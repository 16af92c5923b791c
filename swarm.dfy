/** The reconciler the swarm agent's reports drive: it stamps each reported
    instance, upserts it by name into the Instances store, removes every
    record that does not carry this pass's stamp, and publishes what is left. */
module Swarm {
  import opened Wrappers
  import opened Json
  import opened Store
  import opened Bus

  /** What the agent reports: instance name -> observed fields, in `for…in` order. */
  type Snapshot = seq<(string, Doc)>

  /** An entry either has no `name` field or names its own key; otherwise
      `$set` would rename the record it is written to. */
  predicate EntryNamed(name: string, entry: Doc) {
    "name" in entry ==> entry["name"] == Str(name)
  }

  predicate WellKeyed(snapshot: Snapshot) {
    forall i :: 0 <= i < |snapshot| ==> EntryNamed(snapshot[i].0, snapshot[i].1)
  }

  /** The record carries the stamp `ts` in `_ts`: exactly the records the
      sweep's `Stale(ts)` query leaves alone. */
  predicate Current(d: Doc, ts: int) {
    !Matches(d, Stale(ts))
  }

  /** No stored record carries the stamp `ts` yet. */
  predicate Fresh(docs: seq<Doc>, ts: int) {
    forall d :: d in docs ==> !Current(d, ts)
  }

  function KeySet(snapshot: Snapshot): set<Value> {
    set i | 0 <= i < |snapshot| :: Str(snapshot[i].0)
  }

  /** A reported entry with the pass's stamp written into it. */
  function Stamped(entry: Doc, ts: int): Doc {
    entry["_ts" := Num(ts)]
  }

  /** One iteration of the loop: `update({name}, {$set: entry}, {upsert: true})`. */
  function UpsertOne(docs: seq<Doc>, name: string, entry: Doc, ts: int): seq<Doc> {
    Updated(docs, NameIs(name), Stamped(entry, ts), true).0
  }

  /** The whole upsert loop over the snapshot, in order. */
  function UpsertAll(docs: seq<Doc>, snapshot: Snapshot, ts: int): seq<Doc>
    decreases |snapshot|
  {
    if snapshot == [] then docs
    else
      var last := snapshot[|snapshot| - 1];
      UpsertOne(UpsertAll(docs, snapshot[..|snapshot| - 1], ts), last.0, last.1, ts)
  }

  /** `{_ts: {$ne: ts}}`: the records the sweep deletes. */
  function Stale(ts: int): Query {
    Ne("_ts", Num(ts))
  }

  /** The store after a whole pass: upserts, then the sweep. Every survivor
      carries the pass's stamp. */
  function Reconciled(docs: seq<Doc>, snapshot: Snapshot, ts: int): (r: seq<Doc>)
    ensures forall d :: d in r ==> Current(d, ts)
  {
    Keep(UpsertAll(docs, snapshot, ts), Stale(ts))
  }

  /** The record a pass leaves for a reported name: the old record (or a new
      one holding just the name) with the stamped entry written over it. */
  function Merged(docs: seq<Doc>, name: string, entry: Doc, ts: int): Doc {
    (match Named(docs, name) case Some(d) => d case None => map["name" := Str(name)]) + Stamped(entry, ts)
  }

  /** The reconciler: for each reported instance, stamp it and upsert it by
      name; then remove every record without this pass's stamp; then publish
      the whole remaining store. */
  method Reconcile(instances: Collection, outbox: Outbox, snapshot: Snapshot, ts: int)
    modifies instances, outbox
    ensures instances.docs == Reconciled(old(instances.docs), snapshot, ts)
    ensures outbox.effects == old(outbox.effects) + [Published(InstancesTopic, instances.docs)]
  {
    var i := 0;
    while i < |snapshot|
      invariant 0 <= i <= |snapshot|
      invariant instances.docs == UpsertAll(old(instances.docs), snapshot[..i], ts)
      invariant outbox.effects == old(outbox.effects)
    {
      assert snapshot[..i + 1][..i] == snapshot[..i];
      var name := snapshot[i].0;
      var entry := snapshot[i].1["_ts" := Num(ts)];
      var _ := instances.Update(NameIs(name), entry, true);
      i := i + 1;
    }
    assert snapshot[..i] == snapshot;
    var _ := instances.Remove(Stale(ts));
    var docs := instances.FindAll();
    outbox.Publish(InstancesTopic, docs);
  }

  // ---- one upsert ----

  /** After upserting `name`, the record that name selects is the merge. */
  lemma UpsertOneNamed(docs: seq<Doc>, name: string, entry: Doc, ts: int)
    requires EntryNamed(name, entry)
    ensures Named(UpsertOne(docs, name, entry, ts), name) == Some(Merged(docs, name, entry, ts))
  {
    var q := NameIs(name);
    var p := Stamped(entry, ts);
    var r := UpsertOne(docs, name, entry, ts);
    match FirstMatch(docs, q)
    case Some(i) =>
      assert r[i] == docs[i] + p;
      assert Matches(r[i], q);
      FirstMatchAt(r, q, i);
    case None =>
      assert r == docs + [Seed(q) + p];
      assert Matches(r[|docs|], q);
      FirstMatchAt(r, q, |docs|);
  }

  /** Upserting `name` leaves every record it does not write in place, and
      the record it writes is named `name`. */
  lemma UpsertOneShape(docs: seq<Doc>, name: string, entry: Doc, ts: int)
    requires EntryNamed(name, entry)
    ensures var r := UpsertOne(docs, name, entry, ts);
      && |docs| <= |r| <= |docs| + 1
      && (forall j :: 0 <= j < |r| ==>
            (j < |docs| && r[j] == docs[j]) || ("name" in r[j] && r[j]["name"] == Str(name)))
      && (FirstMatch(docs, NameIs(name)).Some? ==>
            var i := FirstMatch(docs, NameIs(name)).value;
            |r| == |docs| && forall j :: 0 <= j < |docs| && j != i ==> r[j] == docs[j])
      && (FirstMatch(docs, NameIs(name)).None? ==> |r| == |docs| + 1 && r[..|docs|] == docs)
  {
    var q := NameIs(name);
    var p := Stamped(entry, ts);
    var r := UpsertOne(docs, name, entry, ts);
    match FirstMatch(docs, q)
    case Some(i) =>
      assert r == docs[i := docs[i] + p];
    case None =>
      assert r == docs + [Seed(q) + p];
  }

  /** Upserting `name` does not change which record another name selects. */
  lemma UpsertOneOther(docs: seq<Doc>, name: string, entry: Doc, ts: int, k: string)
    requires EntryNamed(name, entry) && k != name
    ensures Named(UpsertOne(docs, name, entry, ts), k) == Named(docs, k)
  {
    var r := UpsertOne(docs, name, entry, ts);
    UpsertOneShape(docs, name, entry, ts);
    var qk := NameIs(k);
    match FirstMatch(docs, qk)
    case Some(m) =>
      assert r[m] == docs[m];
      FirstMatchAt(r, qk, m);
    case None =>
      forall j | 0 <= j < |r| ensures !Matches(r[j], qk) {
      }
      assert FirstMatch(r, qk) == None;
  }

  // ---- the upsert loop ----

  lemma PrefixKeyed(snapshot: Snapshot, n: nat)
    requires n <= |snapshot|
    ensures WellKeyed(snapshot) ==> WellKeyed(snapshot[..n])
    ensures DistinctKeys(snapshot) ==> DistinctKeys(snapshot[..n])
    ensures KeySet(snapshot[..n]) <= KeySet(snapshot)
  {
    var init := snapshot[..n];
    assert forall i :: 0 <= i < n ==> init[i] == snapshot[i];
    forall v | v in KeySet(init) ensures v in KeySet(snapshot) {
      var i :| 0 <= i < n && v == Str(init[i].0);
    }
  }

  /** The upsert loop never changes which record an unreported name selects. */
  lemma {:induction false} UpsertAllOther(docs: seq<Doc>, snapshot: Snapshot, ts: int, k: string)
    requires WellKeyed(snapshot)
    requires forall i :: 0 <= i < |snapshot| ==> snapshot[i].0 != k
    ensures Named(UpsertAll(docs, snapshot, ts), k) == Named(docs, k)
  {
    if snapshot != [] {
      var n := |snapshot| - 1;
      PrefixKeyed(snapshot, n);
      UpsertAllOther(docs, snapshot[..n], ts, k);
      UpsertOneOther(UpsertAll(docs, snapshot[..n], ts), snapshot[n].0, snapshot[n].1, ts, k);
    }
  }

  /** After the upsert loop, each reported name selects its merged record. */
  lemma {:induction false} UpsertAllNamed(docs: seq<Doc>, snapshot: Snapshot, ts: int, j: nat)
    requires WellKeyed(snapshot) && DistinctKeys(snapshot) && j < |snapshot|
    ensures Named(UpsertAll(docs, snapshot, ts), snapshot[j].0) == Some(Merged(docs, snapshot[j].0, snapshot[j].1, ts))
  {
    var n := |snapshot| - 1;
    var init := snapshot[..n];
    var mid := UpsertAll(docs, init, ts);
    assert UpsertAll(docs, snapshot, ts) == UpsertOne(mid, snapshot[n].0, snapshot[n].1, ts);
    PrefixKeyed(snapshot, n);
    if j == n {
      assert forall i :: 0 <= i < n ==> init[i].0 != snapshot[n].0 by {
        forall i | 0 <= i < n ensures init[i].0 != snapshot[n].0 {
          assert init[i] == snapshot[i];
        }
      }
      UpsertAllOther(docs, init, ts, snapshot[n].0);
      UpsertOneNamed(mid, snapshot[n].0, snapshot[n].1, ts);
      assert Merged(mid, snapshot[n].0, snapshot[n].1, ts) == Merged(docs, snapshot[n].0, snapshot[n].1, ts);
    } else {
      assert init[j] == snapshot[j];
      UpsertAllNamed(docs, init, ts, j);
      UpsertOneOther(mid, snapshot[n].0, snapshot[n].1, ts, snapshot[j].0);
    }
  }

  /** Every record after the upsert loop is an old one or is named after a
      reported key. */
  lemma {:induction false} UpsertAllOrigin(docs: seq<Doc>, snapshot: Snapshot, ts: int)
    requires WellKeyed(snapshot)
    ensures forall d :: d in UpsertAll(docs, snapshot, ts) ==>
      d in docs || ("name" in d && d["name"] in KeySet(snapshot))
  {
    if snapshot != [] {
      var n := |snapshot| - 1;
      var mid := UpsertAll(docs, snapshot[..n], ts);
      PrefixKeyed(snapshot, n);
      UpsertAllOrigin(docs, snapshot[..n], ts);
      UpsertOneShape(mid, snapshot[n].0, snapshot[n].1, ts);
      var r := UpsertAll(docs, snapshot, ts);
      forall d | d in r ensures d in docs || ("name" in d && d["name"] in KeySet(snapshot)) {
        var j :| 0 <= j < |r| && r[j] == d;
        if !(j < |mid| && r[j] == mid[j]) {
          assert Str(snapshot[n].0) in KeySet(snapshot);
        } else {
          assert d in mid;
        }
      }
    }
  }

  lemma UpsertOneUnique(docs: seq<Doc>, name: string, entry: Doc, ts: int)
    requires UniqueNames(docs) && EntryNamed(name, entry)
    ensures UniqueNames(UpsertOne(docs, name, entry, ts))
  {
    var q := NameIs(name);
    var p := Stamped(entry, ts);
    var r := UpsertOne(docs, name, entry, ts);
    match FirstMatch(docs, q)
    case Some(i) =>
      assert r == docs[i := docs[i] + p];
      assert forall j :: 0 <= j < |r| ==> ("name" in r[j] <==> "name" in docs[j]) && ("name" in r[j] ==> r[j]["name"] == docs[j]["name"]);
    case None =>
      assert r == docs + [Seed(q) + p];
  }

  lemma {:induction false} UpsertAllUnique(docs: seq<Doc>, snapshot: Snapshot, ts: int)
    requires UniqueNames(docs) && WellKeyed(snapshot)
    ensures UniqueNames(UpsertAll(docs, snapshot, ts))
  {
    if snapshot != [] {
      var n := |snapshot| - 1;
      PrefixKeyed(snapshot, n);
      UpsertAllUnique(docs, snapshot[..n], ts);
      UpsertOneUnique(UpsertAll(docs, snapshot[..n], ts), snapshot[n].0, snapshot[n].1, ts);
    }
  }

  // ---- the sweep ----

  /** The sweep keeps the record a name selects when it does not delete it. */
  lemma {:induction false} KeepNamed(docs: seq<Doc>, q: Query, k: string)
    requires Named(docs, k).Some? && !Matches(Named(docs, k).value, q)
    ensures Named(Keep(docs, q), k) == Named(docs, k)
  {
    var n := |docs| - 1;
    var init := docs[..n];
    var last := docs[n];
    assert docs == init + [last];
    var kept := Keep(init, q);
    FirstMatchAppend(init, last, NameIs(k));
    FirstMatchAppend(kept, last, NameIs(k));
    if Named(init, k).Some? {
      KeepNamed(init, q, k);
    } else {
      forall j | 0 <= j < |kept| ensures !Matches(kept[j], NameIs(k)) {
        assert kept[j] in kept;
        var i :| 0 <= i < |init| && init[i] == kept[j];
      }
      assert FirstMatch(kept, NameIs(k)) == None;
    }
  }

  /** No two records the sweep `q` keeps share a name. */
  predicate KeptUnique(docs: seq<Doc>, q: Query) {
    forall i, j ::
      0 <= i < j < |docs| && !Matches(docs[i], q) && !Matches(docs[j], q) && "name" in docs[i] && "name" in docs[j]
      ==> docs[i]["name"] != docs[j]["name"]
  }

  /** The sweep leaves unique names when the records it keeps had them. */
  lemma {:induction false} KeepKeptUnique(docs: seq<Doc>, q: Query)
    requires KeptUnique(docs, q)
    ensures UniqueNames(Keep(docs, q))
  {
    if docs != [] {
      var n := |docs| - 1;
      var init := docs[..n];
      var last := docs[n];
      assert KeptUnique(init, q) by {
        forall i, j | 0 <= i < j < |init| ensures init[i] == docs[i] && init[j] == docs[j] { }
      }
      KeepKeptUnique(init, q);
      var kept := Keep(init, q);
      if !Matches(last, q) {
        var r := kept + [last];
        forall i | 0 <= i < |kept| && "name" in kept[i] && "name" in last
          ensures kept[i]["name"] != last["name"]
        {
          assert kept[i] in kept;
          var a :| 0 <= a < |init| && init[a] == kept[i];
          assert docs[a] == init[a];
        }
        assert forall i, j :: 0 <= i < j < |r| - 1 ==> r[i] == kept[i] && r[j] == kept[j];
      }
    }
  }

  /** The sweep keeps names unique. */
  lemma KeepUnique(docs: seq<Doc>, q: Query)
    requires UniqueNames(docs)
    ensures UniqueNames(Keep(docs, q))
  {
    KeepKeptUnique(docs, q);
  }

  // ---- a whole pass ----

  /** After a pass, each reported name selects a record that carries the
      pass's stamp and every field of its entry; a record that existed keeps
      every field the entry does not mention; a name with no record gets a new
      one holding only its name, the entry and the stamp. */
  lemma ReconcileMerges(docs: seq<Doc>, snapshot: Snapshot, ts: int, j: nat)
    requires WellKeyed(snapshot) && DistinctKeys(snapshot) && j < |snapshot|
    ensures Named(Reconciled(docs, snapshot, ts), snapshot[j].0) == Some(Merged(docs, snapshot[j].0, snapshot[j].1, ts))
    ensures var rec := Merged(docs, snapshot[j].0, snapshot[j].1, ts);
      && Current(rec, ts)
      && (forall f :: f in snapshot[j].1 && f != "_ts" ==> f in rec && rec[f] == snapshot[j].1[f])
      && (Named(docs, snapshot[j].0).Some? ==>
            forall f :: f in Named(docs, snapshot[j].0).value && f !in snapshot[j].1 && f != "_ts" ==>
              f in rec && rec[f] == Named(docs, snapshot[j].0).value[f])
      && (Named(docs, snapshot[j].0).None? ==>
            rec.Keys == snapshot[j].1.Keys + {"name", "_ts"} && rec["name"] == Str(snapshot[j].0))
  {
    var k := snapshot[j].0;
    UpsertAllNamed(docs, snapshot, ts, j);
    KeepNamed(UpsertAll(docs, snapshot, ts), Stale(ts), k);
  }

  /** With a stamp no stored record has yet, the names left after a pass are
      exactly the reported names. */
  lemma ReconcileNames(docs: seq<Doc>, snapshot: Snapshot, ts: int)
    requires WellKeyed(snapshot) && DistinctKeys(snapshot) && Fresh(docs, ts)
    ensures NameSet(Reconciled(docs, snapshot, ts)) == KeySet(snapshot)
    ensures forall d :: d in Reconciled(docs, snapshot, ts) ==> "name" in d
  {
    var r := Reconciled(docs, snapshot, ts);
    var u := UpsertAll(docs, snapshot, ts);
    UpsertAllOrigin(docs, snapshot, ts);
    forall v | v in NameSet(r) ensures v in KeySet(snapshot) {
      var d :| d in r && "name" in d && d["name"] == v;
      assert d in u && Current(d, ts);
    }
    forall v | v in KeySet(snapshot) ensures v in NameSet(r) {
      var i :| 0 <= i < |snapshot| && v == Str(snapshot[i].0);
      ReconcileMerges(docs, snapshot, ts, i);
    }
  }

  /** With a fresh stamp, a pass leaves exactly one record per reported
      instance. */
  lemma ReconcileCount(docs: seq<Doc>, snapshot: Snapshot, ts: int)
    requires WellKeyed(snapshot) && DistinctKeys(snapshot) && Fresh(docs, ts)
    ensures |Reconciled(docs, snapshot, ts)| == |snapshot|
  {
    var r := Reconciled(docs, snapshot, ts);
    ReconcileNames(docs, snapshot, ts);
    FreshPassUnique(docs, snapshot, ts);
    NameCount(r);
    KeyCount(snapshot);
  }

  /** Records that all carry a name, no two the same, have as many names as
      records. */
  lemma {:induction false} NameCount(docs: seq<Doc>)
    requires UniqueNames(docs) && forall d :: d in docs ==> "name" in d
    ensures |NameSet(docs)| == |docs|
  {
    if docs != [] {
      var init := docs[..|docs| - 1];
      var last := docs[|docs| - 1];
      assert docs == init + [last];
      assert UniqueNames(init) by {
        forall i, j | 0 <= i < j < |init| && "name" in init[i] && "name" in init[j]
          ensures init[i]["name"] != init[j]["name"]
        {
          assert init[i] == docs[i] && init[j] == docs[j];
        }
      }
      NameCount(init);
      assert NameSet(docs) == NameSet(init) + {last["name"]};
      forall d | d in init && "name" in d ensures d["name"] != last["name"] {
        var i :| 0 <= i < |init| && init[i] == d;
        assert docs[i] == d;
      }
    }
  }

  /** A snapshot with distinct keys has as many keys as entries. */
  lemma {:induction false} KeyCount(snapshot: Snapshot)
    requires DistinctKeys(snapshot)
    ensures |KeySet(snapshot)| == |snapshot|
  {
    if snapshot != [] {
      var n := |snapshot| - 1;
      var init, last := snapshot[..n], snapshot[n];
      assert snapshot == init + [last];
      assert DistinctKeys(init) by {
        forall a, b | 0 <= a < b < |init| ensures init[a].0 != init[b].0 {
          assert init[a] == snapshot[a] && init[b] == snapshot[b];
        }
      }
      KeyCount(init);
      KeySetAppend(init, last);
      forall i | 0 <= i < |init| ensures Str(init[i].0) != Str(last.0) {
        assert init[i] == snapshot[i];
      }
    }
  }

  lemma KeySetAppend(init: Snapshot, last: (string, Doc))
    ensures KeySet(init + [last]) == KeySet(init) + {Str(last.0)}
  {
    var s := init + [last];
    forall v | v in KeySet(s) ensures v in KeySet(init) + {Str(last.0)} {
      var i :| 0 <= i < |s| && v == Str(s[i].0);
      if i < |init| { assert s[i] == init[i]; }
    }
    forall v | v in KeySet(init) ensures v in KeySet(s) {
      var i :| 0 <= i < |init| && v == Str(init[i].0);
      assert s[i] == init[i];
    }
    assert s[|init|] == last;
  }

  /** The records carrying stamp `ts` are named, with names from `names`. */
  predicate CurrentNamedIn(docs: seq<Doc>, ts: int, names: set<Value>) {
    forall i :: 0 <= i < |docs| && Current(docs[i], ts) ==> "name" in docs[i] && docs[i]["name"] in names
  }

  /** No two records carrying stamp `ts` share a name. */
  predicate CurrentUnique(docs: seq<Doc>, ts: int) {
    KeptUnique(docs, Stale(ts))
  }

  /** One upsert under a name no stamped record has yet adds exactly one
      stamped record, under that name. */
  lemma FreshStep(docs: seq<Doc>, name: string, entry: Doc, ts: int, names: set<Value>)
    requires EntryNamed(name, entry) && Str(name) !in names
    requires CurrentNamedIn(docs, ts, names) && CurrentUnique(docs, ts)
    ensures CurrentNamedIn(UpsertOne(docs, name, entry, ts), ts, names + {Str(name)})
    ensures CurrentUnique(UpsertOne(docs, name, entry, ts), ts)
    ensures var r := UpsertOne(docs, name, entry, ts);
      exists i :: 0 <= i < |r| && Current(r[i], ts) && "name" in r[i] && r[i]["name"] == Str(name)
  {
    var q := NameIs(name);
    var p := Stamped(entry, ts);
    var r := UpsertOne(docs, name, entry, ts);
    match FirstMatch(docs, q)
    case Some(i) =>
      assert r == docs[i := docs[i] + p];
      assert "name" in r[i] && r[i]["name"] == Str(name);
      assert Current(r[i], ts);
      assert forall j :: 0 <= j < |r| && j != i ==> r[j] == docs[j];
    case None =>
      assert r == docs + [Seed(q) + p];
      assert "name" in r[|docs|] && r[|docs|]["name"] == Str(name);
      assert Current(r[|docs|], ts);
      assert forall j :: 0 <= j < |docs| ==> r[j] == docs[j];
  }

  /** From a store without stamp `ts`, the upsert loop stamps records only
      under reported names, at most one per name. */
  lemma {:induction false} FreshUpsert(docs: seq<Doc>, snapshot: Snapshot, ts: int)
    requires WellKeyed(snapshot) && DistinctKeys(snapshot) && Fresh(docs, ts)
    ensures CurrentNamedIn(UpsertAll(docs, snapshot, ts), ts, KeySet(snapshot))
    ensures CurrentUnique(UpsertAll(docs, snapshot, ts), ts)
  {
    if snapshot != [] {
      var n := |snapshot| - 1;
      var init := snapshot[..n];
      PrefixKeyed(snapshot, n);
      FreshUpsert(docs, init, ts);
      KeySetAppend(init, snapshot[n]);
      assert snapshot == init + [snapshot[n]];
      forall i | 0 <= i < n ensures Str(init[i].0) != Str(snapshot[n].0) {
        assert init[i] == snapshot[i];
      }
      FreshStep(UpsertAll(docs, init, ts), snapshot[n].0, snapshot[n].1, ts, KeySet(init));
    }
  }

  /** With a stamp no stored record has yet, a pass leaves unique names,
      whatever duplicates the store held before. */
  lemma FreshPassUnique(docs: seq<Doc>, snapshot: Snapshot, ts: int)
    requires WellKeyed(snapshot) && DistinctKeys(snapshot) && Fresh(docs, ts)
    ensures UniqueNames(Reconciled(docs, snapshot, ts))
  {
    FreshUpsert(docs, snapshot, ts);
    KeepKeptUnique(UpsertAll(docs, snapshot, ts), Stale(ts));
  }

  /** A pass keeps names unique: each reported name is updated or inserted
      once, and the sweep only deletes. */
  lemma ReconcileKeepsUnique(docs: seq<Doc>, snapshot: Snapshot, ts: int)
    requires UniqueNames(docs) && WellKeyed(snapshot)
    ensures UniqueNames(Reconciled(docs, snapshot, ts))
  {
    UpsertAllUnique(docs, snapshot, ts);
    KeepUnique(UpsertAll(docs, snapshot, ts), Stale(ts));
  }

  lemma Restamp(base: Doc, entry: Doc, t1: int, t2: int)
    ensures (base + Stamped(entry, t1)) + Stamped(entry, t2) == (base + Stamped(entry, t1))["_ts" := Num(t2)]
  {
  }

  /** Two passes over the same snapshot with different fresh stamps leave the
      same names, each selecting the same record apart from `_ts`. */
  lemma ReconcileTwice(docs: seq<Doc>, snapshot: Snapshot, t1: int, t2: int)
    requires WellKeyed(snapshot) && DistinctKeys(snapshot)
    requires Fresh(docs, t1) && t1 != t2
    ensures var once := Reconciled(docs, snapshot, t1);
      var twice := Reconciled(once, snapshot, t2);
      && NameSet(twice) == NameSet(once) == KeySet(snapshot)
      && UniqueNames(once) && UniqueNames(twice)
      && forall j :: 0 <= j < |snapshot| ==>
           Named(once, snapshot[j].0).Some? &&
           Named(twice, snapshot[j].0) == Some(Named(once, snapshot[j].0).value["_ts" := Num(t2)])
  {
    var once := Reconciled(docs, snapshot, t1);
    var twice := Reconciled(once, snapshot, t2);
    assert Fresh(once, t2);
    ReconcileNames(docs, snapshot, t1);
    ReconcileNames(once, snapshot, t2);
    FreshPassUnique(docs, snapshot, t1);
    FreshPassUnique(once, snapshot, t2);
    forall j | 0 <= j < |snapshot|
      ensures Named(once, snapshot[j].0).Some? &&
        Named(twice, snapshot[j].0) == Some(Named(once, snapshot[j].0).value["_ts" := Num(t2)])
    {
      var (k, e) := snapshot[j];
      ReconcileMerges(docs, snapshot, t1, j);
      ReconcileMerges(once, snapshot, t2, j);
      var base := match Named(docs, k) case Some(d) => d case None => map["name" := Str(k)];
      Restamp(base, e, t1, t2);
    }
  }
}
