/**
 * The forwarder object: its ledger of forwarded ids, loaded at construction,
 * updated in place by the relay loop and written back once at the end.
 *
 * The file system is a field mapping paths to ledger file contents; the
 * messaging client is replaced by the inputs of `ForwardNewMessages`: the
 * source channel's history, newest first, and the client's answer to a
 * forward request for each position of it.
 */
module Forwarder {
  import Config
  import Ledger
  import opened Relay

  class Forwarder {
    const settings: Config.Settings
    var ledger: set<int>
    var files: map<string, Ledger.LedgerFile>

    /** Construction with validated settings: the ledger is loaded from the configured path. */
    constructor (settings: Config.Settings, files: map<string, Ledger.LedgerFile>)
      ensures this.settings == settings && this.files == files
      ensures ledger == Ledger.Load(files, settings.ledgerPath)
    {
      this.settings := settings;
      this.files := files;
      ledger := Ledger.Load(files, settings.ledgerPath);
    }

    /** The first run is the one that starts with no forwarded ids. */
    function IsFirstRun(): (first: bool)
      reads this
      ensures first <==> ledger == {}
    {
      |ledger| == 0
    }

    /** Writes the ledger, as a list, to the configured path; other files are untouched. */
    method Save()
      modifies this`files
      ensures settings.ledgerPath in files && files[settings.ledgerPath].Array?
      ensures Ledger.Lists(files[settings.ledgerPath].ids, ledger)
      ensures Ledger.Load(files, settings.ledgerPath) == ledger
      ensures files - {settings.ledgerPath} == old(files) - {settings.ledgerPath}
    {
      var ids := Ledger.ListOf(ledger);
      Ledger.LoadAfterSave(ledger, ids);
      files := files[settings.ledgerPath := Ledger.Array(ids)];
    }

    /**
     * One relay run: fetch the newest 1 (first run) or 50 items, walk them
     * oldest first, forward every message whose id is not yet in the ledger,
     * record each success in the ledger, and save the ledger at the end.
     * Returns the requests made, in order, and the number of successes.
     */
    method ForwardNewMessages(history: seq<Item>, outcomes: seq<Outcome>)
      returns (trace: seq<Attempt>, count: nat)
      requires |outcomes| == |history|
      modifies this`ledger, this`files
      ensures var w := Window(history, FetchLimit(old(ledger)));
        RunState(ledger, trace, count) == FullRun(old(ledger), w, outcomes)
      ensures old(ledger) <= ledger && |ledger| == |old(ledger)| + count
      ensures forall x :: x in ledger <==> x in old(ledger) || x in Forwarded(trace)
      ensures count == |Forwarded(trace)| && Ledger.Distinct(Forwarded(trace))
      ensures forall k :: 0 <= k < |trace| ==>
        trace[k].index < FetchLimit(old(ledger)) && trace[k].id !in old(ledger)
      ensures OldestFirst(trace) && PausesFollowRule(trace)
      ensures settings.ledgerPath in files && files[settings.ledgerPath].Array?
      ensures Ledger.Lists(files[settings.ledgerPath].ids, ledger)
      ensures Ledger.Load(files, settings.ledgerPath) == ledger
      ensures files - {settings.ledgerPath} == old(files) - {settings.ledgerPath}
    {
      ghost var ledger0 := ledger;
      var limit := if IsFirstRun() then FirstRunLimit else NormalLimit;
      var messages := Window(history, limit);
      trace, count := [], 0;
      var i := |messages|;
      while i > 0
        invariant 0 <= i <= |messages|
        invariant RunState(ledger, trace, count) == Run(ledger0, messages, outcomes, i)
        invariant files == old(files)
      {
        i := i - 1;
        var message := messages[i];
        if message.Message? && message.id !in ledger {
          var outcome := outcomes[i];
          var pause := 0;
          match outcome {
            case Ok =>
              ledger := ledger + {message.id};
              count := count + 1;
              if count > 1 {
                pause := ThrottlePause;
              }
            case Err(text) =>
              if Contains(text, RateLimitMarker) {
                pause := RateLimitPause;
              }
          }
          trace := trace + [Attempt(i, message.id, outcome, pause)];
        }
      }
      RunLedger(ledger0, messages, outcomes, 0);
      RunTrace(ledger0, messages, outcomes, 0);
      RunPauses(ledger0, messages, outcomes, 0);
      Save();
    }
  }

  /** What constructing the forwarder yields. */
  datatype Startup = Started(forwarder: Forwarder) | ConfigurationError(message: string)

  /**
   * Construction from the environment: a configuration error, with no
   * forwarder, exactly when a required setting is unset or empty; otherwise a
   * new forwarder whose ledger is loaded from the configured path.
   */
  method Start(env: map<string, string>, files: map<string, Ledger.LedgerFile>)
    returns (r: Startup)
    ensures r.ConfigurationError? <==>
      exists i :: 0 <= i < |Config.RequiredKeys| && Config.Missing(env, Config.RequiredKeys[i])
    ensures r.ConfigurationError? ==> r.message == Config.MissingSettingsMessage
    ensures r.Started? ==>
      && fresh(r.forwarder)
      && r.forwarder.settings == Config.Validate(env).settings
      && r.forwarder.files == files
      && r.forwarder.ledger == Ledger.Load(files, Config.LedgerPath(env))
  {
    match Config.Validate(env) {
      case ConfigError(message) =>
        r := ConfigurationError(message);
      case Configured(settings) =>
        var f := new Forwarder(settings, files);
        r := Started(f);
    }
  }
}
