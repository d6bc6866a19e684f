/**
 * The relay step as a specification: which fetched messages are offered to
 * the target channel, in what order, what the ledger becomes and which
 * pauses are taken.
 *
 * The messaging client is not modelled. What it fetched is a sequence of
 * items, newest first, and what it answers to each forward request is an
 * outcome given per position of that sequence. A run walks the sequence from
 * its last element (the oldest) to its first; `Run(ledger0, w, o, j)` is the
 * state after the items at positions `|w| - 1` down to `j` were handled.
 */
module Relay {
  import opened Ledger

  /** A fetched item: a message with its id, or anything else the channel returns. */
  datatype Item = Message(id: int) | NotMessage

  /** What the client answers to a forward request: success, or an error with its text. */
  datatype Outcome = Ok | Err(text: string)

  /**
   * One forward request: the position of the item in the fetched sequence,
   * its id, the client's answer, and the pause taken afterwards (0 for none).
   */
  datatype Attempt = Attempt(index: nat, id: int, outcome: Outcome, pause: nat)

  /** The ledger, the requests made so far and the count of successful forwards. */
  datatype RunState = RunState(ledger: set<int>, trace: seq<Attempt>, count: nat)

  const FirstRunLimit: nat := 1
  const NormalLimit: nat := 50
  const ThrottlePause: nat := 2
  const RateLimitPause: nat := 60
  const RateLimitMarker: string := "Too Many Requests"

  /** The fetch window: 1 message while the ledger is empty, 50 once it holds an id. */
  function FetchLimit(ledger: set<int>): (limit: nat)
    ensures limit == FirstRunLimit <==> ledger == {}
    ensures ledger != {} ==> limit == NormalLimit
  {
    if |ledger| == 0 then FirstRunLimit else NormalLimit
  }

  /** The most recent `limit` items of a channel history given newest first. */
  function Window(history: seq<Item>, limit: nat): (w: seq<Item>)
    ensures |w| <= limit && |w| <= |history|
    ensures |w| == limit || |w| == |history|
    ensures w == history[..|w|]
  {
    if |history| <= limit then history else history[..limit]
  }

  ghost predicate OccursAt(text: string, pattern: string, i: int) {
    0 <= i && i + |pattern| <= |text| && text[i..i + |pattern|] == pattern
  }

  /**
   * Python's `pattern in text` on strings: never when the pattern is longer
   * than the text, always when the text starts with it (the full
   * characterisation is `ContainsIffOccurs`).
   */
  function Contains(text: string, pattern: string): (found: bool)
    ensures found ==> |pattern| <= |text|
    ensures |pattern| <= |text| && text[..|pattern|] == pattern ==> found
    decreases |text|
  {
    if |text| < |pattern| then false
    else if text[..|pattern|] == pattern then true
    else Contains(text[1..], pattern)
  }

  lemma {:induction false} ContainsIffOccurs(text: string, pattern: string)
    ensures Contains(text, pattern) <==> exists i :: OccursAt(text, pattern, i)
    decreases |text|
  {
    if |text| < |pattern| {
    } else if text[..|pattern|] == pattern {
      assert OccursAt(text, pattern, 0);
    } else {
      ContainsIffOccurs(text[1..], pattern);
      forall i | OccursAt(text, pattern, i)
        ensures OccursAt(text[1..], pattern, i - 1)
      {
        assert i != 0;
        assert text[1..][i - 1..i - 1 + |pattern|] == text[i..i + |pattern|];
      }
      forall i | OccursAt(text[1..], pattern, i)
        ensures OccursAt(text, pattern, i + 1)
      {
        assert text[1..][i..i + |pattern|] == text[i + 1..i + 1 + |pattern|];
      }
    }
  }

  /** An error whose text says the provider is throttling requests. */
  ghost predicate RateLimited(text: string) {
    exists i :: OccursAt(text, RateLimitMarker, i)
  }

  /**
   * The pause after a request, given the count of successes once it is
   * answered: 2 after a success that is not the first, 60 after a rate-limit
   * error, none otherwise.
   */
  function PauseAfter(outcome: Outcome, countAfter: nat): (pause: nat)
    ensures pause == 0 || pause == ThrottlePause || pause == RateLimitPause
    ensures pause == ThrottlePause <==> outcome.Ok? && countAfter > 1
    ensures pause == RateLimitPause <==> outcome.Err? && RateLimited(outcome.text)
  {
    match outcome
    case Ok => if countAfter > 1 then ThrottlePause else 0
    case Err(text) =>
      ContainsIffOccurs(text, RateLimitMarker);
      if Contains(text, RateLimitMarker) then RateLimitPause else 0
  }

  /**
   * Handling one fetched item: a request is made exactly for a message whose
   * id is not yet in the ledger, and the count grows exactly when that
   * request succeeds (the ledger's side is `StepAccounts`).
   */
  function Step(st: RunState, index: nat, item: Item, outcome: Outcome): (next: RunState)
    ensures |next.trace| == |st.trace| + (if item.Message? && item.id !in st.ledger then 1 else 0)
    ensures next.count == st.count + (if item.Message? && item.id !in st.ledger && outcome.Ok? then 1 else 0)
  {
    if item.Message? && item.id !in st.ledger then
      if outcome.Ok? then
        var count := st.count + 1;
        RunState(st.ledger + {item.id},
                 st.trace + [Attempt(index, item.id, outcome, PauseAfter(outcome, count))],
                 count)
      else
        RunState(st.ledger,
                 st.trace + [Attempt(index, item.id, outcome, PauseAfter(outcome, st.count))],
                 st.count)
    else
      st
  }

  /**
   * The state after the items at positions `|w| - 1` down to `j` were
   * handled, oldest first: at most one request per handled position, and at
   * most one success per request.
   */
  function Run(ledger0: set<int>, w: seq<Item>, o: seq<Outcome>, j: nat): (st: RunState)
    requires j <= |w| <= |o|
    ensures |st.trace| <= |w| - j
    ensures st.count <= |st.trace|
    decreases |w| - j
  {
    if j == |w| then RunState(ledger0, [], 0)
    else Step(Run(ledger0, w, o, j + 1), j, w[j], o[j])
  }

  /**
   * A whole run over the fetched window `w`: the ledger becomes the old
   * ledger plus exactly the ids of the successful requests, and no request
   * is for an id already in the old ledger.
   */
  function FullRun(ledger0: set<int>, w: seq<Item>, o: seq<Outcome>): (st: RunState)
    requires |w| <= |o|
    ensures |st.trace| <= |w|
    ensures forall x :: x in st.ledger <==> x in ledger0 || x in Forwarded(st.trace)
    ensures st.count == |Forwarded(st.trace)| == |st.ledger| - |ledger0|
    ensures forall k :: 0 <= k < |st.trace| ==> st.trace[k].id !in ledger0
  {
    RunLedger(ledger0, w, o, 0);
    RunTrace(ledger0, w, o, 0);
    Run(ledger0, w, o, 0)
  }

  /** The ids of the successful requests, in request order. */
  function Forwarded(trace: seq<Attempt>): seq<int> {
    if trace == [] then []
    else
      var last := trace[|trace| - 1];
      Forwarded(trace[..|trace| - 1]) + (if last.outcome.Ok? then [last.id] else [])
  }

  /** Whether the item at position `p` was offered to the target channel. */
  ghost predicate Attempted(trace: seq<Attempt>, p: nat) {
    exists k :: 0 <= k < |trace| && trace[k].index == p
  }

  lemma ForwardedSnoc(trace: seq<Attempt>, a: Attempt)
    ensures Forwarded(trace + [a]) == Forwarded(trace) + (if a.outcome.Ok? then [a.id] else [])
  {
    assert (trace + [a])[..|trace|] == trace;
  }

  /** The ledger of `st` is `ledger0` plus the distinct, new ids of its successful requests, counted by `count`. */
  ghost predicate Accounts(ledger0: set<int>, st: RunState) {
    && ledger0 <= st.ledger
    && (forall x :: x in st.ledger <==> x in ledger0 || x in Forwarded(st.trace))
    && (forall x :: x in Forwarded(st.trace) ==> x !in ledger0)
    && Distinct(Forwarded(st.trace))
    && st.count == |Forwarded(st.trace)|
    && |st.ledger| == |ledger0| + st.count
  }

  /** Handling one item keeps the ledger accounted for by the successful requests. */
  lemma StepAccounts(ledger0: set<int>, st: RunState, index: nat, item: Item, outcome: Outcome)
    requires Accounts(ledger0, st)
    ensures Accounts(ledger0, Step(st, index, item, outcome))
  {
    if item.Message? && item.id !in st.ledger {
      var next := Step(st, index, item, outcome);
      ForwardedSnoc(st.trace, next.trace[|st.trace|]);
    }
  }

  /**
   * The ledger after a run is the old ledger plus exactly the ids forwarded
   * successfully: nothing is removed, a failed id is added only if a later
   * request for the same id succeeds, no id is forwarded twice, and the count
   * is both the number of successes and the growth of the ledger.
   */
  lemma {:induction false} RunLedger(ledger0: set<int>, w: seq<Item>, o: seq<Outcome>, j: nat)
    requires j <= |w| <= |o|
    ensures var st := Run(ledger0, w, o, j);
      && ledger0 <= st.ledger
      && (forall x :: x in st.ledger <==> x in ledger0 || x in Forwarded(st.trace))
      && (forall x :: x in Forwarded(st.trace) ==> x !in ledger0)
      && Distinct(Forwarded(st.trace))
      && st.count == |Forwarded(st.trace)|
      && |st.ledger| == |ledger0| + st.count
    decreases |w| - j
  {
    if j < |w| {
      RunLedger(ledger0, w, o, j + 1);
      var prev := Run(ledger0, w, o, j + 1);
      assert Accounts(ledger0, prev);
      StepAccounts(ledger0, prev, j, w[j], o[j]);
    } else {
      assert Forwarded([]) == [];
    }
  }

  /**
   * Every request in `t` is for a message (never another kind of item) at a
   * position from `lo` on whose id is not in `ledger0`, and carries the
   * client's answer for that position.
   */
  ghost predicate OffersOnlyNew(ledger0: set<int>, w: seq<Item>, o: seq<Outcome>, lo: nat, t: seq<Attempt>)
    requires |w| <= |o|
  {
    forall k :: 0 <= k < |t| ==>
      && lo <= t[k].index < |w|
      && w[t[k].index] == Message(t[k].id)
      && t[k].outcome == o[t[k].index]
      && t[k].id !in ledger0
  }

  /** Requests go strictly from older fetched positions to newer ones. */
  ghost predicate OldestFirst(t: seq<Attempt>) {
    forall a, b :: 0 <= a < b < |t| ==> t[a].index > t[b].index
  }

  /** Handling position `j` keeps every request new, for a message, and oldest first. */
  lemma StepOffers(ledger0: set<int>, w: seq<Item>, o: seq<Outcome>, j: nat, prev: RunState)
    requires j < |w| <= |o|
    requires ledger0 <= prev.ledger
    requires OffersOnlyNew(ledger0, w, o, j + 1, prev.trace) && OldestFirst(prev.trace)
    ensures OffersOnlyNew(ledger0, w, o, j, Step(prev, j, w[j], o[j]).trace)
    ensures OldestFirst(Step(prev, j, w[j], o[j]).trace)
  {
    var t := Step(prev, j, w[j], o[j]).trace;
    if w[j].Message? && w[j].id !in prev.ledger {
      var n := |prev.trace|;
      assert t == prev.trace + [t[n]];
      assert t[n] == Attempt(j, w[j].id, o[j], t[n].pause);
      forall k | 0 <= k < |t|
        ensures j <= t[k].index < |w| && w[t[k].index] == Message(t[k].id)
        ensures t[k].outcome == o[t[k].index] && t[k].id !in ledger0
      {
        if k < n {
          assert t[k] == prev.trace[k];
        }
      }
      forall a, b | 0 <= a < b < |t|
        ensures t[a].index > t[b].index
      {
        assert t[a] == prev.trace[a];
        if b < n {
          assert t[b] == prev.trace[b];
        }
      }
    } else {
      assert t == prev.trace;
    }
  }

  /**
   * Every request made in a run is for a message whose id was not in the
   * ledger the run started with, and requests are made strictly from the
   * oldest fetched position to the newest, each position at most once.
   */
  lemma {:induction false} RunTrace(ledger0: set<int>, w: seq<Item>, o: seq<Outcome>, j: nat)
    requires j <= |w| <= |o|
    ensures OffersOnlyNew(ledger0, w, o, j, Run(ledger0, w, o, j).trace)
    ensures OldestFirst(Run(ledger0, w, o, j).trace)
    decreases |w| - j
  {
    if j < |w| {
      RunTrace(ledger0, w, o, j + 1);
      RunLedger(ledger0, w, o, j + 1);
      StepOffers(ledger0, w, o, j, Run(ledger0, w, o, j + 1));
    }
  }

  /** The pause rule for the request at position `k` of a trace. */
  ghost predicate PauseRule(t: seq<Attempt>, k: nat)
    requires k < |t|
  {
    match t[k].outcome
    case Ok => t[k].pause == (if |Forwarded(t[..k + 1])| > 1 then ThrottlePause else 0)
    case Err(text) => t[k].pause == (if RateLimited(text) then RateLimitPause else 0)
  }

  ghost predicate PausesFollowRule(t: seq<Attempt>) {
    forall k :: 0 <= k < |t| ==> PauseRule(t, k)
  }

  /** Handling one item keeps every pause in the trace following the rule. */
  lemma StepPauses(prev: RunState, index: nat, item: Item, outcome: Outcome)
    requires PausesFollowRule(prev.trace) && prev.count == |Forwarded(prev.trace)|
    ensures PausesFollowRule(Step(prev, index, item, outcome).trace)
  {
    var t := Step(prev, index, item, outcome).trace;
    if item.Message? && item.id !in prev.ledger {
      var n := |prev.trace|;
      var a := t[n];
      assert t == prev.trace + [a];
      forall k | 0 <= k < n
        ensures PauseRule(t, k)
      {
        assert t[..k + 1] == prev.trace[..k + 1];
        assert PauseRule(prev.trace, k);
      }
      assert t[..n + 1] == t;
      ForwardedSnoc(prev.trace, a);
      assert PauseRule(t, n);
    } else {
      assert t == prev.trace;
    }
  }

  /**
   * Pauses: after a success, 2 units exactly when the count of successes so
   * far exceeds 1; after a failure, 60 units exactly when the error text
   * contains the rate-limit marker; no pause otherwise.
   */
  lemma {:induction false} RunPauses(ledger0: set<int>, w: seq<Item>, o: seq<Outcome>, j: nat)
    requires j <= |w| <= |o|
    ensures PausesFollowRule(Run(ledger0, w, o, j).trace)
    decreases |w| - j
  {
    if j < |w| {
      RunPauses(ledger0, w, o, j + 1);
      RunLedger(ledger0, w, o, j + 1);
      StepPauses(Run(ledger0, w, o, j + 1), j, w[j], o[j]);
    }
  }

  /**
   * Handling position `index` after requests only for later positions: the
   * positions already requested stay the same, and `index` is requested
   * exactly when its item is a message whose id is not in the ledger.
   */
  lemma StepAttempted(prev: RunState, index: nat, item: Item, outcome: Outcome)
    requires forall k :: 0 <= k < |prev.trace| ==> prev.trace[k].index > index
    ensures var t := Step(prev, index, item, outcome).trace;
      && (forall p :: p != index ==> (Attempted(t, p) <==> Attempted(prev.trace, p)))
      && (Attempted(t, index) <==> item.Message? && item.id !in prev.ledger)
  {
    var t := Step(prev, index, item, outcome).trace;
    var offered := item.Message? && item.id !in prev.ledger;
    if offered {
      assert |t| == |prev.trace| + 1 && t[..|prev.trace|] == prev.trace && t[|prev.trace|].index == index;
    } else {
      assert t == prev.trace;
    }
    forall p | p != index
      ensures Attempted(t, p) <==> Attempted(prev.trace, p)
    {
      if Attempted(t, p) {
        var k :| 0 <= k < |t| && t[k].index == p;
        assert k < |prev.trace| && prev.trace[k] == t[k];
      }
      if Attempted(prev.trace, p) {
        var k :| 0 <= k < |prev.trace| && prev.trace[k].index == p;
        assert t[k] == prev.trace[k];
      }
    }
    if offered {
      assert Attempted(t, index);
    }
  }

  /**
   * Which items are offered: the item at position `p` is offered exactly when
   * it is a message whose id is not in the ledger as it stands when the run
   * reaches `p`. In particular a failed request never stops the run from
   * handling the items after it.
   */
  lemma {:induction false} RunAttempts(ledger0: set<int>, w: seq<Item>, o: seq<Outcome>, j: nat)
    requires j <= |w| <= |o|
    ensures forall p :: j <= p < |w| ==>
      (Attempted(Run(ledger0, w, o, j).trace, p) <==>
         w[p].Message? && w[p].id !in Run(ledger0, w, o, p + 1).ledger)
    decreases |w| - j
  {
    if j < |w| {
      RunAttempts(ledger0, w, o, j + 1);
      RunTrace(ledger0, w, o, j + 1);
      var prev := Run(ledger0, w, o, j + 1);
      assert OffersOnlyNew(ledger0, w, o, j + 1, prev.trace);
      StepAttempted(prev, j, w[j], o[j]);
    }
  }

  /** First run: with an empty ledger only the newest message is offered, and on success it is the whole ledger. */
  lemma FirstRunForwardsNewest(history: seq<Item>, o: seq<Outcome>)
    requires |o| == |history| && |history| > 0
    requires history[0].Message? && o[0].Ok?
    ensures var w := Window(history, FetchLimit({}));
      && w == [history[0]]
      && FullRun({}, w, o).ledger == {history[0].id}
      && FullRun({}, w, o).count == 1
      && FullRun({}, w, o).trace == [Attempt(0, history[0].id, Ok, 0)]
  {
    var w := Window(history, FetchLimit({}));
    assert w == [history[0]];
    assert Run({}, w, o, 1) == RunState({}, [], 0);
  }

  /**
   * Catching up: with ids 101 and 102 already forwarded and the four messages
   * 100, 101, 102, 103 fetched newest first, the run offers 103 and then 100,
   * and the ledger ends with all four ids.
   */
  lemma CatchUpScenario()
    ensures var w := [Message(100), Message(101), Message(102), Message(103)];
      var st := FullRun({101, 102}, w, [Ok, Ok, Ok, Ok]);
      && st.ledger == {100, 101, 102, 103}
      && st.count == 2
      && Forwarded(st.trace) == [103, 100]
  {
    var w := [Message(100), Message(101), Message(102), Message(103)];
    var o := [Ok, Ok, Ok, Ok];
    var a103 := Attempt(3, 103, Ok, 0);
    var a100 := Attempt(0, 100, Ok, ThrottlePause);
    var s4 := RunState({101, 102}, [], 0);
    assert Run({101, 102}, w, o, 4) == s4;
    var s3 := RunState({101, 102, 103}, [a103], 1);
    assert Run({101, 102}, w, o, 3) == Step(s4, 3, Message(103), Ok) == s3;
    assert Run({101, 102}, w, o, 2) == Step(s3, 2, Message(102), Ok) == s3;
    assert Run({101, 102}, w, o, 1) == Step(s3, 1, Message(101), Ok) == s3;
    var s0 := RunState({100, 101, 102, 103}, [a103, a100], 2);
    assert Run({101, 102}, w, o, 0) == Step(s3, 0, Message(100), Ok) == s0;
    ForwardedSnoc([], a103);
    ForwardedSnoc([a103], a100);
    assert [a103, a100] == [a103] + [a100];
  }
}
