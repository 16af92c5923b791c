/** The record store the resolvers and the reconciler write to: an in-memory
    collection of documents with filter-based find, insert, update (with
    optional upsert) and remove. */
module Store {
  import opened Wrappers
  import opened Json

  /** A store filter: `{}`, `{f: v}`, `{f: {$ne: v}}`, or both of two filters. */
  datatype Query =
    | All
    | Eq(field: string, value: Value)
    | Ne(field: string, value: Value)
    | And(left: Query, right: Query)

  predicate Matches(d: Doc, q: Query) {
    match q
    case All => true
    case Eq(f, v) => f in d && d[f] == v
    case Ne(f, v) => !(f in d && d[f] == v)
    case And(l, r) => Matches(d, l) && Matches(d, r)
  }

  /** `{name: name}`: the filter every keyed-by-name operation uses. */
  function NameIs(name: string): Query {
    Eq("name", Str(name))
  }

  /** The record an upsert starts from when nothing matches: the filter's
      equality fields (operator conditions such as `$ne` contribute nothing). */
  function Seed(q: Query): Doc {
    match q
    case All => map[]
    case Eq(f, v) => map[f := v]
    case Ne(_, _) => map[]
    case And(l, r) => Seed(l) + Seed(r)
  }

  /** The position of the first record the filter matches, if any. */
  function FirstMatch(docs: seq<Doc>, q: Query): (r: Option<nat>)
    ensures r.Some? ==>
      r.value < |docs| && Matches(docs[r.value], q) &&
      forall j :: 0 <= j < r.value ==> !Matches(docs[j], q)
    ensures r.None? ==> forall j :: 0 <= j < |docs| ==> !Matches(docs[j], q)
  {
    if docs == [] then None
    else if Matches(docs[0], q) then Some(0)
    else match FirstMatch(docs[1..], q)
      case None => None
      case Some(i) => Some(i + 1)
  }

  /** The records a remove leaves behind: those the filter does not match,
      in their original order. */
  function Keep(docs: seq<Doc>, q: Query): (r: seq<Doc>)
    ensures |r| <= |docs|
    ensures forall d :: d in r ==> d in docs && !Matches(d, q)
    ensures forall d :: d in docs && !Matches(d, q) ==> d in r
  {
    if docs == [] then []
    else
      var rest := Keep(docs[..|docs| - 1], q);
      var last := docs[|docs| - 1];
      assert docs == docs[..|docs| - 1] + [last];
      if Matches(last, q) then rest else rest + [last]
  }

  /** A remove keeps each unmatched record as many times as it was stored and
      no copy of a matched one. */
  lemma {:induction false} KeepCounts(docs: seq<Doc>, q: Query)
    ensures forall d :: multiset(Keep(docs, q))[d] == if Matches(d, q) then 0 else multiset(docs)[d]
  {
    if docs != [] {
      var init := docs[..|docs| - 1];
      var last := docs[|docs| - 1];
      KeepCounts(init, q);
      assert docs == init + [last];
      assert multiset(docs) == multiset(init) + multiset{last};
      assert Keep(docs, q) == if Matches(last, q) then Keep(init, q) else Keep(init, q) + [last];
    }
  }

  /** An update `{$set: patch}` of the first record the filter matches; with
      `upsert`, a record built from the filter and the patch is appended when
      nothing matches. The second component is the affected record. */
  function Updated(docs: seq<Doc>, q: Query, patch: Doc, upsert: bool): (r: (seq<Doc>, Option<Doc>))
    ensures r.1.None? <==> !upsert && FirstMatch(docs, q).None?
    ensures r.1.None? ==> r.0 == docs
    ensures r.1.Some? ==> forall f :: f in patch ==> f in r.1.value && r.1.value[f] == patch[f]
    ensures FirstMatch(docs, q).Some? ==>
      var i := FirstMatch(docs, q).value;
      && |r.0| == |docs| && r.1 == Some(r.0[i])
      && (forall f :: f in r.0[i] <==> f in docs[i] || f in patch)
      && (forall f :: f in docs[i] && f !in patch ==> r.0[i][f] == docs[i][f])
      && (forall j :: 0 <= j < |docs| && j != i ==> r.0[j] == docs[j])
    ensures FirstMatch(docs, q).None? && upsert ==>
      && r.0 == docs + [r.1.value]
      && (forall f :: f in r.1.value <==> f in Seed(q) || f in patch)
      && (forall f :: f in Seed(q) && f !in patch ==> r.1.value[f] == Seed(q)[f])
  {
    match FirstMatch(docs, q)
    case Some(i) => (docs[i := docs[i] + patch], Some(docs[i] + patch))
    case None =>
      if upsert then (docs + [Seed(q) + patch], Some(Seed(q) + patch)) else (docs, None)
  }

  /** A patch that sets every field the filter tests for equality, to the
      value tested, and a filter with no `$ne` condition: every record that
      carries the patch matches the filter. */
  predicate Agrees(q: Query, patch: Doc) {
    match q
    case All => true
    case Eq(f, v) => f in patch && patch[f] == v
    case Ne(_, _) => false
    case And(l, r) => Agrees(l, patch) && Agrees(r, patch)
  }

  lemma {:induction false} AgreesMatches(q: Query, patch: Doc, d: Doc)
    requires Agrees(q, patch)
    requires forall f :: f in patch ==> f in d && d[f] == patch[f]
    ensures Matches(d, q)
  {
    match q
    case All =>
    case Eq(f, v) =>
    case Ne(_, _) =>
    case And(l, r) =>
      AgreesMatches(l, patch, d);
      AgreesMatches(r, patch, d);
  }

  /** A record that matches, with no match before it, is the first match. */
  lemma FirstMatchAt(docs: seq<Doc>, q: Query, i: nat)
    requires i < |docs| && Matches(docs[i], q)
    requires forall j :: 0 <= j < i ==> !Matches(docs[j], q)
    ensures FirstMatch(docs, q) == Some(i)
  {
  }

  /** Repeating an upsert whose patch agrees with its filter changes nothing:
      the second one finds the record the first left and sets the same
      fields again. */
  lemma UpsertIdempotent(docs: seq<Doc>, q: Query, patch: Doc)
    requires Agrees(q, patch)
    ensures Updated(Updated(docs, q, patch, true).0, q, patch, true).0 == Updated(docs, q, patch, true).0
  {
    var (once, affected) := Updated(docs, q, patch, true);
    var k := match FirstMatch(docs, q) case Some(i) => i case None => |docs|;
    assert k < |once| && once[k] == affected.value;
    AgreesMatches(q, patch, once[k]);
    FirstMatchAt(once, q, k);
    assert once[k] + patch == once[k];
    assert once[k := once[k] + patch] == once;
  }

  // ---- records keyed by name ----

  function NameSet(docs: seq<Doc>): set<Value> {
    set d | d in docs && "name" in d :: d["name"]
  }

  /** At most one record per name. */
  predicate UniqueNames(docs: seq<Doc>) {
    forall i, j :: 0 <= i < j < |docs| && "name" in docs[i] && "name" in docs[j] ==> docs[i]["name"] != docs[j]["name"]
  }

  /** The record a name selects: the first one the `{name}` filter matches. */
  function Named(docs: seq<Doc>, name: string): (r: Option<Doc>)
    ensures r.Some? ==> r.value in docs && "name" in r.value && r.value["name"] == Str(name)
    ensures r.None? ==> Str(name) !in NameSet(docs)
  {
    match FirstMatch(docs, NameIs(name))
    case Some(i) => Some(docs[i])
    case None => None
  }

  lemma FirstMatchAppend(s: seq<Doc>, x: Doc, q: Query)
    ensures FirstMatch(s + [x], q) ==
      if FirstMatch(s, q).Some? then FirstMatch(s, q)
      else if Matches(x, q) then Some(|s|) else None
  {
    var t := s + [x];
    match FirstMatch(s, q)
    case Some(i) => FirstMatchAt(t, q, i);
    case None =>
      if Matches(x, q) {
        FirstMatchAt(t, q, |s|);
      } else {
        assert forall j :: 0 <= j < |t| ==> !Matches(t[j], q);
      }
  }

  /** A named store: the Instances, Apps or Buckets collection. */
  class Collection {
    var docs: seq<Doc>

    constructor (initial: seq<Doc>)
      ensures docs == initial
    {
      docs := initial;
    }

    /** `find({})`: every record, in store order. */
    method FindAll() returns (all: seq<Doc>)
      ensures all == docs
    {
      all := docs;
    }

    /** `findOne(q)`: the first matching record, or nothing. */
    method FindOne(q: Query) returns (found: Option<Doc>)
      ensures found.Some? <==> exists j :: 0 <= j < |docs| && Matches(docs[j], q)
      ensures found.Some? ==> found.value == docs[FirstMatch(docs, q).value]
    {
      var i := IndexOf(docs, q);
      match i
      case Some(k) => found := Some(docs[k]);
      case None => found := None;
    }

    /** `insert(d)`: appends the record and hands it back. */
    method Insert(d: Doc) returns (inserted: Doc)
      modifies this
      ensures docs == old(docs) + [d] && inserted == d
    {
      docs := docs + [d];
      inserted := d;
    }

    /** `update(q, {$set: patch}, {upsert})`: see `Updated`. */
    method Update(q: Query, patch: Doc, upsert: bool) returns (affected: Option<Doc>)
      modifies this
      ensures (docs, affected) == Updated(old(docs), q, patch, upsert)
    {
      var i := IndexOf(docs, q);
      match i
      case Some(k) =>
        var d := docs[k] + patch;
        docs := docs[k := d];
        affected := Some(d);
      case None =>
        if upsert {
          var d := Seed(q) + patch;
          docs := docs + [d];
          affected := Some(d);
        } else {
          affected := None;
        }
    }

    /** `remove(q)`: deletes every matching record and reports how many. */
    method Remove(q: Query) returns (removed: nat)
      modifies this
      ensures docs == Keep(old(docs), q)
      ensures removed == |old(docs)| - |docs|
    {
      var kept: seq<Doc> := [];
      var i := 0;
      while i < |docs|
        invariant 0 <= i <= |docs|
        invariant kept == Keep(docs[..i], q)
      {
        assert docs[..i + 1][..i] == docs[..i];
        if !Matches(docs[i], q) {
          kept := kept + [docs[i]];
        }
        i := i + 1;
      }
      assert docs[..i] == docs;
      removed := |docs| - |kept|;
      docs := kept;
    }
  }

  /** The scan behind every filtered store operation: the position of the
      first matching record. */
  method IndexOf(docs: seq<Doc>, q: Query) returns (found: Option<nat>)
    ensures found == FirstMatch(docs, q)
  {
    var i := 0;
    while i < |docs|
      invariant 0 <= i <= |docs|
      invariant forall j :: 0 <= j < i ==> !Matches(docs[j], q)
    {
      if Matches(docs[i], q) {
        return Some(i);
      }
      i := i + 1;
    }
    return None;
  }
}
