/** The GraphQL mutations: app upsert and removal, instance start and stop,
    and the lock-then-dispatch bucket operations. Each runs its store
    writes, agent commands and publications as sequential steps. */
module Mutations {
  import opened Wrappers
  import opened Json
  import opened Errors
  import opened Store
  import opened Bus
  import Swarm

  // ---- createOrUpdateApp, removeApp ----

  function Pick(data: Doc, f: string): Query {
    if f in data then Eq(f, data[f]) else All
  }

  /** `_.pick(data, "name", "version")` as a filter: only the keys `data` has. */
  function AppFilter(data: Doc): Query {
    And(Pick(data, "name"), Pick(data, "version"))
  }

  /** The arguments with `tags` set from the parsed compose file: its `tags`
      when truthy, `[]` otherwise. Reading `tags` of a compose text that
      parsed to nothing throws. */
  function AppPatch(data: Doc, compose: Value): (r: Result<Doc, Error>)
    ensures r.Failure? <==> compose == Null
    ensures r.Success? ==>
      && r.value.Keys == data.Keys + {"tags"}
      && r.value["tags"] == (if Truthy(Member(compose, "tags")) then Member(compose, "tags") else Arr([]))
      && forall f :: f in data && f != "tags" ==> r.value[f] == data[f]
  {
    if compose == Null then Failure(TypeError("Cannot read properties of undefined (reading 'tags')"))
    else
      var tags := Member(compose, "tags");
      Success(data["tags" := if Truthy(tags) then tags else Arr([])])
  }

  /** `createOrUpdateApp`: upsert the patched arguments under their
      (name, version), then publish the apps. */
  method CreateOrUpdateApp(apps: Collection, outbox: Outbox, data: Doc, compose: Value)
    returns (r: Result<Doc, Error>)
    modifies apps, outbox
    ensures compose == Null ==>
      r.Failure? && apps.docs == old(apps.docs) && outbox.effects == old(outbox.effects)
    ensures compose != Null ==>
      var (after, affected) := Updated(old(apps.docs), AppFilter(data), AppPatch(data, compose).value, true);
      && apps.docs == after && affected.Some? && r == Success(affected.value)
      && outbox.effects == old(outbox.effects) + [Published(AppsTopic, apps.docs)]
  {
    var patch := AppPatch(data, compose);
    if patch.Failure? {
      return Failure(patch.error);
    }
    var affected := apps.Update(AppFilter(data), patch.value, true);
    var docs := apps.FindAll();
    outbox.Publish(AppsTopic, docs);
    r := Success(affected.value);
  }

  /** After `createOrUpdateApp`, the app's (name, version) selects a record
      holding every argument and the tags; a new record is added only when
      none had that key; and repeating the call changes nothing more. */
  lemma AppUpsertStores(docs: seq<Doc>, data: Doc, compose: Value)
    requires compose != Null
    ensures var q := AppFilter(data);
      var patch := AppPatch(data, compose).value;
      var after := Updated(docs, q, patch, true).0;
      && FirstMatch(after, q).Some?
      && (forall f :: f in patch ==> f in after[FirstMatch(after, q).value] && after[FirstMatch(after, q).value][f] == patch[f])
      && |after| == |docs| + (if FirstMatch(docs, q).Some? then 0 else 1)
      && Updated(after, q, patch, true).0 == after
  {
    var q := AppFilter(data);
    var patch := AppPatch(data, compose).value;
    var (after, affected) := Updated(docs, q, patch, true);
    assert patch == data["tags" := patch["tags"]];
    assert "name" != "tags" && "version" != "tags" by {
      assert "name"[0] != "tags"[0] && "version"[0] != "tags"[0];
    }
    assert Agrees(Pick(data, "name"), patch) && Agrees(Pick(data, "version"), patch);
    var k := match FirstMatch(docs, q) case Some(i) => i case None => |docs|;
    AgreesMatches(q, patch, after[k]);
    FirstMatchAt(after, q, k);
    UpsertIdempotent(docs, q, patch);
  }

  /** `removeApp`: delete the records under the arguments' (name, version),
      then publish the apps. */
  method RemoveApp(apps: Collection, outbox: Outbox, data: Doc) returns (removed: nat)
    modifies apps, outbox
    ensures apps.docs == Keep(old(apps.docs), AppFilter(data))
    ensures removed == |old(apps.docs)| - |apps.docs|
    ensures outbox.effects == old(outbox.effects) + [Published(AppsTopic, apps.docs)]
  {
    removed := apps.Remove(AppFilter(data));
    var docs := apps.FindAll();
    outbox.Publish(AppsTopic, docs);
  }

  // ---- startInstance ----

  /** `{name: appName, version: appVersion}`. */
  function AppKey(appName: string, appVersion: string): Query {
    And(Eq("name", Str(appName)), Eq("version", Str(appVersion)))
  }

  /** The options an instance starts with: the caller's when they are truthy
      and have an own key, `{storageBucket: name}` otherwise. */
  function EffectiveOptions(name: string, options: Value): (r: Value)
    ensures Truthy(options) && |OwnEntries(options)| > 0 ==> r == options
    ensures !(Truthy(options) && |OwnEntries(options)| > 0) ==>
      KeysOf(OwnEntries(r)) == ["storageBucket"] && Member(r, "storageBucket") == Str(name)
    ensures Truthy(r) && |OwnEntries(r)| > 0
  {
    if Truthy(options) && |OwnEntries(options)| > 0 then options
    else Obj([("storageBucket", Str(name))])
  }

  /** The record `startInstance` inserts. */
  function NewInstance(name: string, options: Value, app: Value): Doc {
    map[
      "name" := Str(name),
      "storageBucket" := Member(options, "storageBucket"),
      "startedBy" := Str("TBD"),
      "state" := Str("created"),
      "desiredState" := Str("running"),
      "status" := Str("Request sent to agent"),
      "app" := app,
      "services" := Arr([])
    ]
  }

  /** `startInstance`: find the app; reject if it is missing; otherwise insert
      a `created` record, send the start command, and publish the instances.
      `enhance` stands for the compose enhancer. */
  method StartInstance(instances: Collection, apps: Collection, outbox: Outbox,
                       enhance: (string, Value, Doc) -> Value,
                       name: string, appName: string, appVersion: string, options: Value)
    returns (r: Result<Doc, Error>)
    requires instances != apps
    modifies instances, outbox
    ensures FirstMatch(apps.docs, AppKey(appName, appVersion)).None? ==>
      && r == Failure(AppNotFound(appName, appVersion))
      && Message(r.error) == "App " + appName + ":" + appVersion + " does not exist."
      && instances.docs == old(instances.docs)
      && outbox.effects == old(outbox.effects)
    ensures FirstMatch(apps.docs, AppKey(appName, appVersion)).Some? ==>
      var app := apps.docs[FirstMatch(apps.docs, AppKey(appName, appVersion)).value];
      var opts := EffectiveOptions(name, options);
      var described := enhance(name, opts, app);
      var record := NewInstance(name, opts, described);
      && r == Success(record)
      && instances.docs == old(instances.docs) + [record]
      && outbox.effects == old(outbox.effects) + [Sent(Start(described, name, opts), old(instances.docs) + [record]), Published(InstancesTopic, instances.docs)]
  {
    var found := apps.FindOne(AppKey(appName, appVersion));
    if found.None? {
      return Failure(AppNotFound(appName, appVersion));
    }
    var opts := EffectiveOptions(name, options);
    var described := enhance(name, opts, found.value);
    var inserted := instances.Insert(NewInstance(name, opts, described));
    outbox.Send(Start(described, name, opts), instances);
    var docs := instances.FindAll();
    outbox.Publish(InstancesTopic, docs);
    r := Success(inserted);
  }

  /** The insert does not look for an existing name: names stay unique after
      a start exactly when they were unique and the name was not taken. */
  lemma StartUniqueIff(docs: seq<Doc>, name: string, options: Value, app: Value)
    ensures UniqueNames(docs + [NewInstance(name, options, app)]) <==> UniqueNames(docs) && Str(name) !in NameSet(docs)
  {
    var rec := NewInstance(name, options, app);
    var after := docs + [rec];
    assert forall i :: 0 <= i < |docs| ==> docs[i] == after[i];
    if Str(name) in NameSet(docs) {
      var d :| d in docs && "name" in d && d["name"] == Str(name);
      var i :| 0 <= i < |docs| && docs[i] == d;
      assert after[i]["name"] == after[|docs|]["name"];
    }
  }

  /** A started instance that the next pass does not report is swept by that
      pass: the sweep makes no exception for state `created`. */
  lemma StartedThenUnreportedIsSwept(docs: seq<Doc>, name: string, options: Value, app: Value,
                                     snapshot: Swarm.Snapshot, ts: int)
    requires Swarm.WellKeyed(snapshot) && DistinctKeys(snapshot)
    requires Swarm.Fresh(docs, ts)
    requires Str(name) !in Swarm.KeySet(snapshot)
    ensures Str(name) !in NameSet(Swarm.Reconciled(docs + [NewInstance(name, options, app)], snapshot, ts))
  {
    var rec := NewInstance(name, options, app);
    assert !Swarm.Current(rec, ts);
    assert Swarm.Fresh(docs + [rec], ts);
    Swarm.ReconcileNames(docs + [rec], snapshot, ts);
  }

  /** A started instance that the next pass reports keeps its intent fields
      and takes every observed field of the report: its state stays `created`
      only if the report has no `state`. */
  lemma StartedThenReportedIsMerged(docs: seq<Doc>, name: string, options: Value, app: Value,
                                    snapshot: Swarm.Snapshot, ts: int, j: nat)
    requires Swarm.WellKeyed(snapshot) && DistinctKeys(snapshot)
    requires j < |snapshot| && snapshot[j].0 == name
    requires Named(docs, name).None?
    ensures var after := Swarm.Reconciled(docs + [NewInstance(name, options, app)], snapshot, ts);
      var entry := snapshot[j].1;
      && Named(after, name).Some?
      && Named(after, name).value == NewInstance(name, options, app) + Swarm.Stamped(entry, ts)
      && Named(after, name).value["state"] == (if "state" in entry then entry["state"] else Str("created"))
      && Named(after, name).value["desiredState"] == (if "desiredState" in entry then entry["desiredState"] else Str("running"))
  {
    var rec := NewInstance(name, options, app);
    var entry := snapshot[j].1;
    NamedAppendNew(docs, rec, name);
    Swarm.ReconcileMerges(docs + [rec], snapshot, ts, j);
    assert "state" != "_ts" && "desiredState" != "_ts" by {
      assert "state"[0] != "_ts"[0] && "desiredState"[0] != "_ts"[0];
    }
    NewInstanceIntent(name, options, app);
    MergedField(rec, entry, ts, "state");
    MergedField(rec, entry, ts, "desiredState");
  }

  /** A start under a name already stored does not take over that name: the
      next report of it merges into the older record, while the started
      record, which has no stamp, is swept by the same pass. */
  lemma StartedUnderTakenName(docs: seq<Doc>, name: string, options: Value, app: Value,
                              snapshot: Swarm.Snapshot, ts: int, j: nat)
    requires Swarm.WellKeyed(snapshot) && DistinctKeys(snapshot)
    requires j < |snapshot| && snapshot[j].0 == name
    requires Named(docs, name).Some?
    ensures var after := Swarm.Reconciled(docs + [NewInstance(name, options, app)], snapshot, ts);
      && Named(after, name) == Some(Named(docs, name).value + Swarm.Stamped(snapshot[j].1, ts))
      && NewInstance(name, options, app) !in after
  {
    var rec := NewInstance(name, options, app);
    var after := Swarm.Reconciled(docs + [rec], snapshot, ts);
    FirstMatchAppend(docs, rec, NameIs(name));
    assert Named(docs + [rec], name) == Named(docs, name);
    assert Swarm.Merged(docs + [rec], name, snapshot[j].1, ts) == Named(docs, name).value + Swarm.Stamped(snapshot[j].1, ts);
    Swarm.ReconcileMerges(docs + [rec], snapshot, ts, j);
    NewInstanceUnstamped(name, options, app);
    assert forall d :: d in after ==> Swarm.Current(d, ts);
  }

  /** A started record carries no stamp. */
  lemma NewInstanceUnstamped(name: string, options: Value, app: Value)
    ensures "_ts" !in NewInstance(name, options, app)
  {
    var k := NewInstance(name, options, app).Keys;
    assert k == {"name", "storageBucket", "startedBy", "state", "desiredState", "status", "app", "services"};
    assert forall f :: f in k ==> f[0] != '_';
  }

  /** The intent fields of a started record. */
  lemma NewInstanceIntent(name: string, options: Value, app: Value)
    ensures var rec := NewInstance(name, options, app);
      && "state" in rec && rec["state"] == Str("created")
      && "desiredState" in rec && rec["desiredState"] == Str("running")
      && "name" in rec && rec["name"] == Str(name)
  {
    assert "state"[0] != "desiredState"[0] && "state"[4] != "status"[4];
    assert "state"[0] != "app"[0] && "state"[1] != "services"[1];
    assert "desiredState"[0] != "status"[0] && "desiredState"[0] != "app"[0] && "desiredState"[0] != "services"[0];
    assert "name"[0] != "storageBucket"[0] && "name"[0] != "startedBy"[0] && "name"[0] != "state"[0];
    assert "name"[0] != "desiredState"[0] && "name"[0] != "status"[0] && "name"[0] != "app"[0] && "name"[0] != "services"[0];
  }

  /** Appending a record under a name no stored record has makes the name
      select it. */
  lemma NamedAppendNew(docs: seq<Doc>, rec: Doc, name: string)
    requires Named(docs, name).None?
    requires "name" in rec && rec["name"] == Str(name)
    ensures Named(docs + [rec], name) == Some(rec)
  {
    FirstMatchAppend(docs, rec, NameIs(name));
    assert Matches(rec, NameIs(name));
  }

  /** A field other than `_ts` of a record overlaid with a stamped entry comes
      from the entry when the entry has it, and from the record otherwise. */
  lemma MergedField(base: Doc, entry: Doc, ts: int, f: string)
    requires f != "_ts" && f in base
    ensures f in base + Swarm.Stamped(entry, ts)
    ensures (base + Swarm.Stamped(entry, ts))[f] == if f in entry then entry[f] else base[f]
  {
  }

  // ---- stopInstance ----

  /** The three fields a stop request sets. */
  const StopRequest: Doc := map[
    "desiredState" := Str("stopped"),
    "status" := Str("Instance stop is requested"),
    "stoppedBy" := Num(0)
  ]

  /** The store after `update({name}, {$set: StopRequest})`. */
  function Stopped(docs: seq<Doc>, name: string): seq<Doc> {
    Updated(docs, NameIs(name), StopRequest, false).0
  }

  /** The stop command for an updated record, read from `doc.app.name`,
      `doc.app.version` and `doc.name`; nothing when `doc.app` is missing,
      where reading it throws. */
  function StopCommand(doc: Doc): (c: Option<Command>)
    ensures c.None? <==> Get(doc, "app") == Null
    ensures c.Some? ==>
      && c.value.Stop?
      && c.value.appName == Member(Get(doc, "app"), "name")
      && c.value.appVersion == Member(Get(doc, "app"), "version")
      && c.value.stoppedName == Get(doc, "name")
  {
    var app := Get(doc, "app");
    if app == Null then None else Some(Stop(Member(app, "name"), Member(app, "version"), Get(doc, "name")))
  }

  /** `stopInstance`: set the stop request on the record with that name;
      reject if there is none; otherwise send the stop command and return
      the updated record. A record without `app` makes the update callback
      throw: the update stays, no command goes out, and the request never
      gets an answer (`Uncaught`). */
  method StopInstance(instances: Collection, outbox: Outbox, name: string) returns (r: Result<Doc, Error>)
    modifies instances, outbox
    ensures instances.docs == Stopped(old(instances.docs), name)
    ensures FirstMatch(old(instances.docs), NameIs(name)).None? ==>
      && r == Failure(InstanceNotFound(name))
      && Message(r.error) == "Instance " + name + " does not exist"
      && outbox.effects == old(outbox.effects)
    ensures FirstMatch(old(instances.docs), NameIs(name)).Some? ==>
      var doc := instances.docs[FirstMatch(old(instances.docs), NameIs(name)).value];
      match StopCommand(doc)
      case Some(c) => r == Success(doc) && outbox.effects == old(outbox.effects) + [Sent(c, instances.docs)]
      case None => r.Failure? && r.error.Uncaught? && r.error.thrown.TypeError? && outbox.effects == old(outbox.effects)
  {
    var updated := instances.Update(NameIs(name), StopRequest, false);
    if updated.None? {
      return Failure(InstanceNotFound(name));
    }
    var command := StopCommand(updated.value);
    if command.None? {
      return Failure(Uncaught(TypeError("Cannot read properties of undefined (reading 'name')")));
    }
    outbox.Send(command.value, instances);
    r := Success(updated.value);
  }

  /** A stop changes nothing but the three request fields of the first
      record with that name: its `state`, `app`, `services` and every other
      record stay as they were; an unknown name changes nothing. */
  lemma StopChangesOnlyIntent(docs: seq<Doc>, name: string)
    ensures var after := Stopped(docs, name);
      && |after| == |docs|
      && (FirstMatch(docs, NameIs(name)).None? ==> after == docs)
      && (FirstMatch(docs, NameIs(name)).Some? ==>
            var i := FirstMatch(docs, NameIs(name)).value;
            && after[i]["desiredState"] == Str("stopped")
            && after[i]["status"] == Str("Instance stop is requested")
            && after[i]["stoppedBy"] == Num(0)
            && after[i].Keys == docs[i].Keys + {"desiredState", "status", "stoppedBy"}
            && (forall f :: f in docs[i] && f !in StopRequest ==> after[i][f] == docs[i][f])
            && (forall j :: 0 <= j < |docs| && j != i ==> after[j] == docs[j]))
      && NameSet(after) == NameSet(docs)
  {
    var after := Stopped(docs, name);
    match FirstMatch(docs, NameIs(name))
    case None =>
    case Some(i) =>
      assert after == docs[i := docs[i] + StopRequest];
      forall v | v in NameSet(docs) ensures v in NameSet(after) {
        var d :| d in docs && "name" in d && d["name"] == v;
        var j :| 0 <= j < |docs| && docs[j] == d;
        assert "name" in after[j] && after[j]["name"] == v;
      }
      forall v | v in NameSet(after) ensures v in NameSet(docs) {
        var d :| d in after && "name" in d && d["name"] == v;
        var j :| 0 <= j < |after| && after[j] == d;
        assert "name" in docs[j] && docs[j]["name"] == v;
      }
  }

  /** Stopping twice leaves the store as stopping once. */
  lemma StopIdempotent(docs: seq<Doc>, name: string)
    ensures Stopped(Stopped(docs, name), name) == Stopped(docs, name)
  {
    var q := NameIs(name);
    var once := Stopped(docs, name);
    match FirstMatch(docs, q)
    case None =>
    case Some(i) =>
      assert once == docs[i := docs[i] + StopRequest];
      assert Matches(once[i], q);
      FirstMatchAt(once, q, i);
      assert once[i] + StopRequest == once[i];
      assert once[i := once[i] + StopRequest] == once;
  }

  // ---- deleteBucket, copyBucket ----

  const LockRequest: Doc := map["isLocked" := Bool(true)]

  /** The buckets after `update({name}, {$set: {isLocked: true}})`. */
  function Locked(docs: seq<Doc>, name: string): seq<Doc> {
    Updated(docs, NameIs(name), LockRequest, false).0
  }

  /** The record `copyBucket` inserts for the destination. */
  function NewBucket(name: string): Doc {
    map["name" := Str(name), "isLocked" := Bool(true)]
  }

  /** `deleteBucket`: lock the bucket, send the delete command, publish the
      buckets, and answer 1. The record itself stays. */
  method DeleteBucket(buckets: Collection, outbox: Outbox, name: string) returns (r: int)
    modifies buckets, outbox
    ensures r == 1
    ensures buckets.docs == Locked(old(buckets.docs), name)
    ensures outbox.effects == old(outbox.effects) + [Sent(Command.DeleteBucket(name), buckets.docs), Published(BucketsTopic, buckets.docs)]
  {
    var _ := buckets.Update(NameIs(name), LockRequest, false);
    outbox.Send(Command.DeleteBucket(name), buckets);
    var docs := buckets.FindAll();
    outbox.Publish(BucketsTopic, docs);
    r := 1;
  }

  /** `copyBucket`: lock the source, insert the locked destination, and only
      then send the copy command; answer the new record. */
  method CopyBucket(buckets: Collection, outbox: Outbox, source: string, destination: string) returns (copy: Doc)
    modifies buckets, outbox
    ensures copy == NewBucket(destination)
    ensures buckets.docs == Locked(old(buckets.docs), source) + [copy]
    ensures outbox.effects == old(outbox.effects) + [Sent(Command.CopyBucket(source, destination), Locked(old(buckets.docs), source) + [copy])]
  {
    var _ := buckets.Update(NameIs(source), LockRequest, false);
    copy := buckets.Insert(NewBucket(destination));
    outbox.Send(Command.CopyBucket(source, destination), buckets);
  }

  /** Locking removes no bucket and renames none: it only sets `isLocked` on
      the first bucket with that name, which the name still selects. */
  lemma LockKeepsBuckets(docs: seq<Doc>, name: string)
    ensures var after := Locked(docs, name);
      && |after| == |docs|
      && (forall j :: 0 <= j < |docs| ==>
            docs[j].Keys <= after[j].Keys <= docs[j].Keys + {"isLocked"} && Get(after[j], "name") == Get(docs[j], "name"))
      && (forall j, f :: 0 <= j < |docs| && f in docs[j] && f != "isLocked" ==> after[j][f] == docs[j][f])
      && (Named(docs, name).Some? ==>
            Named(after, name).Some? && "isLocked" in Named(after, name).value
              && Named(after, name).value["isLocked"] == Bool(true))
  {
    var q := NameIs(name);
    var after := Locked(docs, name);
    match FirstMatch(docs, q)
    case None =>
    case Some(i) =>
      assert after == docs[i := docs[i] + LockRequest];
      assert Matches(after[i], q);
      FirstMatchAt(after, q, i);
  }

  /** When the copy command goes out, the source (if it exists) and the
      destination are both locked, and every earlier bucket is still there. */
  lemma CopyLocksBoth(docs: seq<Doc>, source: string, destination: string)
    ensures var after := Locked(docs, source) + [NewBucket(destination)];
      && |after| == |docs| + 1
      && (Named(docs, source).Some? ==>
            Named(after, source).Some? && "isLocked" in Named(after, source).value
              && Named(after, source).value["isLocked"] == Bool(true))
      && after[|docs|]["isLocked"] == Bool(true) && after[|docs|]["name"] == Str(destination)
      && (forall j :: 0 <= j < |docs| ==> Get(after[j], "name") == Get(docs[j], "name"))
  {
    LockKeepsBuckets(docs, source);
    FirstMatchAppend(Locked(docs, source), NewBucket(destination), NameIs(source));
  }
}
