/**
 * The ledger: the set of message ids already forwarded, kept in a flat file
 * as a JSON list of integers.
 *
 * The file's content is an abstract value rather than JSON text: content
 * that does not parse (`Malformed`), a parsed value other than a list that
 * is falsy (`Falsy`: null, false, 0, "" or {}), or a list of integers
 * (`Array`; the empty list, also falsy, is `Array([])`). A missing file is a
 * path that the file map does not hold.
 */
module Ledger {

  datatype LedgerFile = Malformed | Falsy | Array(ids: seq<int>)

  /** What loading yields from the content of an existing file: `set(data) if data else set()`. */
  function Decode(f: LedgerFile): (s: set<int>)
    ensures forall x :: x in s <==> f.Array? && x in f.ids
    ensures !f.Array? ==> s == {}
  {
    match f
    case Array(ids) => if |ids| == 0 then {} else set x | x in ids
    case _ => {}
  }

  /** Loading the ledger from `path`; a missing file yields the empty set. */
  function Load(files: map<string, LedgerFile>, path: string): (s: set<int>)
    ensures path !in files ==> s == {}
    ensures forall x :: x in s <==> path in files && files[path].Array? && x in files[path].ids
  {
    if path in files then Decode(files[path]) else {}
  }

  /** No id occurs twice in `ids`. */
  predicate Distinct(ids: seq<int>) {
    forall a, b :: 0 <= a < b < |ids| ==> ids[a] != ids[b]
  }

  /** `ids` lists the members of `s`, each exactly once, in some order. */
  ghost predicate Lists(ids: seq<int>, s: set<int>) {
    && (forall x :: x in ids <==> x in s)
    && Distinct(ids)
  }

  lemma HasMember(s: set<int>)
    requires s != {}
    ensures exists x :: x in s
  {
    if forall x :: x !in s {
      assert false;
    }
  }

  /** `list(s)`: the members of a set as a list, in an unspecified order. */
  method ListOf(s: set<int>) returns (ids: seq<int>)
    ensures Lists(ids, s)
    ensures |ids| == |s|
  {
    ids := [];
    var rest := s;
    while rest != {}
      invariant rest <= s
      invariant forall x :: x in ids ==> x in s && x !in rest
      invariant forall x :: x in s ==> x in ids || x in rest
      invariant Distinct(ids)
      invariant |ids| + |rest| == |s|
      decreases |rest|
    {
      HasMember(rest);
      var x :| x in rest;
      ids := ids + [x];
      rest := rest - {x};
    }
  }

  /** Load after save: decoding a saved listing of `s` gives back `s`, the empty set included. */
  lemma LoadAfterSave(s: set<int>, ids: seq<int>)
    requires Lists(ids, s)
    ensures Decode(Array(ids)) == s
  {
    assert forall x :: x in Decode(Array(ids)) <==> x in s;
  }
}
