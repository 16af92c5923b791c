# Instance control plane: reconciler and lifecycle mutations

This project models two cooperating pieces of a container-platform control plane.

**The reconciler.** An agent periodically reports every running instance as a snapshot `name -> observed fields`. The reconciler then does three things:

1. It stamps each report with one fresh time stamp `_ts` and upserts it into the instance store under that name.
2. It deletes every stored instance whose `_ts` is not that stamp.
3. It publishes the remaining list.

**The GraphQL layer.** This layer provides:

- projections of a stored instance: its `services` as a list, and the log text split into lines;
- the mutations that record user intent and send commands to the agent:
  - start and stop an instance;
  - delete and copy a bucket;
  - create, update and remove an app.

## How the model is built

**Values and records.** JavaScript values are the datatype `Json.Value`:

- `null` and `undefined` are both `Null`;
- an object is its own entries in `Object.keys` order;
- numbers are integers.

A stored record is a `Doc`, a map from field names to values.

**The store.** The record store is `Store.Collection`, a class over a `seq<Doc>`. Queries are equality, `$ne` and conjunction filters. It implements the store behaviour the code relies on:

- `update` changes the first matching record and merges the `$set` fields into it;
- with `upsert`, `update` appends the query's equality fields plus the patch when nothing matches;
- `remove` deletes every match.

**Commands and publications.** Agent commands and subscription publications are appended, in order, to the single ghost log `Bus.Outbox.effects`. Each sent command is logged with the contents of the store it was sent beside, so the log shows which store writes came before it.

**How each operation is modelled.** Each operation is a method over these classes. Its `ensures` ties the new store and the new log to pure specification functions. The properties the code promises are then proved about those functions as lemmas.

**Inputs taken as parameters.** Three inputs that come from outside the modelled code are parameters:

- the clock reading is `ts`;
- the parsed compose file is `compose`;
- the compose enhancer is the function parameter `enhance`.

**No sweep exemption for new instances.** One might expect the sweep to spare a record still in state `created`, since an instance the user has just started has not yet been reported by the agent. The code makes no such exception: src/mqtt/docker/swarm.js:13 removes on the stamp alone. The model follows the code.

- `Mutations.StartedThenUnreportedIsSwept` proves the consequence: a freshly started instance that the next report omits is deleted, since the insert gives it no `_ts` at all.
- A new instance's `services` starts as an empty array (src/schema/resolvers.js:134), although the reconciler later writes a name-keyed object there. The model stores the array, as the code does.

## Model

| member | source | states |
|---|---|---|
| Swarm.Reconcile | src/mqtt/docker/swarm.js:6-15 | the store after a pass is exactly `Reconciled(old store, snapshot, ts)`, i.e. every entry upserted in key order then every record with a stamp other than `ts` removed, and the pass appends exactly one publication, of the whole store after the sweep |
| Swarm.Reconciled | src/mqtt/docker/swarm.js:13 | no record without `_ts == ts` survives the sweep, including unreported `created` records and records with no `_ts` |
| Swarm.ReconcileMerges | src/mqtt/docker/swarm.js:8-11 | after a pass each snapshot name selects a record equal to the stored record (or `{name}` when none) overlaid with the entry and `_ts = ts`; it holds every entry field, keeps the fields the entry does not mention (`desiredState`, `app`, `status`, ...), and a newly created one has exactly the entry's fields plus `name` and `_ts` |
| Swarm.ReconcileNames | src/mqtt/docker/swarm.js:7-13 | when no stored record already carries `ts`, the set of names after a pass equals the snapshot's key set, and every surviving record has a name |
| Swarm.ReconcileCount | src/mqtt/docker/swarm.js:7-13 | when no stored record already carries `ts`, a pass leaves exactly one record per reported instance, even if the store held duplicate names before |
| Swarm.FreshPassUnique | src/mqtt/docker/swarm.js:7-13 | when no stored record already carries `ts`, names are unique after a pass, whatever duplicates the store held before |
| Swarm.FreshUpsert | src/mqtt/docker/swarm.js:8-12 | from a store without stamp `ts`, the upsert loop stamps records only under reported names, at most one per name |
| Swarm.FreshStep | src/mqtt/docker/swarm.js:11 | one upsert under a name no stamped record has leaves a stamped record under that name and adds no second one; every stamped name is reported |
| Swarm.KeepKeptUnique | src/mqtt/docker/swarm.js:13 | the sweep leaves unique names when the records it keeps had distinct names |
| Swarm.NameCount | src/mqtt/docker/swarm.js:13-14 | records that all carry distinct names number as many as their names |
| Swarm.KeyCount | src/mqtt/docker/swarm.js:8 | a snapshot has as many keys as entries |
| Swarm.ReconcileKeepsUnique | src/mqtt/docker/swarm.js:8-13 | names unique before a pass stay unique after it |
| Swarm.ReconcileTwice | src/mqtt/docker/swarm.js:7-13 | two passes with the same snapshot and different stamps (the first fresh) leave the same names, unique after each pass even if the store held duplicates, and, name by name, the same record apart from `_ts` |
| Swarm.UpsertOneNamed | src/mqtt/docker/swarm.js:11 | one upsert makes the name select the merged record |
| Swarm.UpsertOneShape | src/mqtt/docker/swarm.js:11 | one upsert either rewrites the first record with that name in place, leaving every other index alone, or (when no record has the name) keeps the store as a prefix and appends one record with the name |
| Swarm.UpsertOneOther | src/mqtt/docker/swarm.js:11 | one upsert does not change what any other name selects |
| Swarm.UpsertAllOther | src/mqtt/docker/swarm.js:8-12 | the upsert loop does not change what an unreported name selects |
| Swarm.UpsertAllNamed | src/mqtt/docker/swarm.js:8-12 | after the upsert loop every reported name selects its merged record |
| Swarm.UpsertAllOrigin | src/mqtt/docker/swarm.js:8-12 | every record after the upsert loop was stored before or carries a reported name |
| Swarm.UpsertOneUnique | src/mqtt/docker/swarm.js:11 | one upsert keeps names unique |
| Swarm.UpsertAllUnique | src/mqtt/docker/swarm.js:8-12 | the upsert loop keeps names unique |
| Swarm.KeepNamed | src/mqtt/docker/swarm.js:13 | the sweep does not change what a name selects when that record is not stale |
| Swarm.KeepUnique | src/mqtt/docker/swarm.js:13 | the sweep keeps names unique |
| Swarm.PrefixKeyed | src/mqtt/docker/swarm.js:8 | a prefix of the snapshot's key iteration keeps its keys distinct and well keyed |
| Swarm.Restamp | src/mqtt/docker/swarm.js:10-11 | re-merging the same entry under a second stamp only changes `_ts` |
| Store.FirstMatch | src/mqtt/docker/swarm.js:11 | the index found is the first record the filter matches; none means no record matches |
| Store.IndexOf | src/schema/resolvers.js:112-114 | the scan returns the index of the first record the filter matches, the same as `FirstMatch` |
| Store.Keep | src/mqtt/docker/swarm.js:13 | remove keeps exactly the records the filter does not match: every kept record was stored and is unmatched, every unmatched record is kept |
| Store.KeepCounts | src/mqtt/docker/swarm.js:13 | remove keeps each unmatched record as many times as it was stored, and no copy of a matched one |
| Store.Updated | src/mqtt/docker/swarm.js:11 | an update sets every patch field on the first match and leaves its other fields and all other records alone; with upsert and no match it appends the query's equality fields plus the patch; with neither it changes nothing |
| Store.AgreesMatches | src/schema/resolvers.js:92-95 | a record carrying a patch that agrees with an equality filter matches that filter |
| Store.UpsertIdempotent | src/schema/resolvers.js:92-95 | upserting an agreeing patch a second time changes nothing |
| Store.Named | src/mqtt/docker/swarm.js:11 | the record a name selects is stored and carries that name; none means the name is not stored |
| Store.Collection.FindAll | src/schema/resolvers.js:19-22 | a full scan returns the whole store and changes nothing |
| Store.Collection.FindOne | src/schema/resolvers.js:112-114 | `findOne` returns the first match, or nothing when none matches, and changes nothing |
| Store.Collection.Insert | src/schema/resolvers.js:125-136 | `insert` appends the record and returns it |
| Store.Collection.Update | src/mqtt/docker/swarm.js:11 | `update` leaves the store and returned record as `Updated` defines |
| Store.Collection.Remove | src/mqtt/docker/swarm.js:13 | `remove` leaves `Keep(old store, filter)` and returns how many records it deleted |
| Bus.Outbox.Send | src/schema/resolvers.js:137-143 | sending a command appends it, with the store's contents at that moment, to the effect log and changes nothing else |
| Bus.Outbox.Publish | src/mqtt/docker/swarm.js:14 | publishing appends the published list to the effect log and nothing else |
| Json.LookupFinds | src/schema/resolvers.js:51 | with distinct keys, reading an object's key gives that entry's value |
| Json.DecimalStringInjective | src/schema/resolvers.js:46 | two indices have the same decimal key exactly when they are equal |
| Json.IndexKeysDistinct | src/schema/resolvers.js:46 | the keys `Object.keys` gives for an array or a string never repeat |
| Json.AssignFields | src/schema/resolvers.js:51 | `Object.assign` keeps the target's keys, adds the source's, gives source values precedence and keeps untouched target fields |
| InstanceResolvers.Services | src/schema/resolvers.js:45-52 | the resolver fails exactly when the instance has no `services` |
| InstanceResolvers.SelectKeys | src/schema/resolvers.js:47-50 | a key is kept exactly when there are no arguments or it equals `args.name` |
| InstanceResolvers.SelectAll | src/schema/resolvers.js:49 | with no arguments every key is kept, in order |
| InstanceResolvers.SelectOne | src/schema/resolvers.js:49 | with arguments, exactly the key equal to `args.name` is kept if present, else none |
| InstanceResolvers.ServicesListsEveryKey | src/schema/resolvers.js:45-52 | with no arguments the result has one `{name: key, ...info}` entry per service key, in key order |
| InstanceResolvers.ServicesByName | src/schema/resolvers.js:45-52 | with arguments the result is the single entry for `args.name` when it is a key, and empty otherwise |
| InstanceResolvers.ServiceEntryFields | src/schema/resolvers.js:51 | a service entry has `name` = key when the info has no `name` of its own, every field of the info, and no other field |
| InstanceResolvers.SplitLines | src/schema/resolvers.js:67 | splitting gives at least one line |
| InstanceResolvers.Logs | src/schema/resolvers.js:67 | one entry per line; each entry is the line without its first 8 characters, empty when the line is shorter |
| InstanceResolvers.SplitThenJoin | src/schema/resolvers.js:67 | the lines rejoined by newlines give the text back, no line holds a newline, and there is one line more than newlines |
| InstanceResolvers.JoinThenSplit | src/schema/resolvers.js:67 | newline-free lines joined and split again give the same lines |
| InstanceResolvers.LogsCount | src/schema/resolvers.js:67 | the log has one entry more than the text has newlines |
| Mutations.AppPatch | src/schema/resolvers.js:89-90 | the stored fields are the arguments plus `tags`, taken from the compose file when truthy and `[]` otherwise; a compose text that parses to nothing fails |
| Mutations.CreateOrUpdateApp | src/schema/resolvers.js:88-100 | the apps become the upsert of the patched arguments under their (name, version), the affected record is returned, and the apps are published once; a failed parse changes nothing |
| Mutations.AppUpsertStores | src/schema/resolvers.js:92-95 | after the upsert the (name, version) selects a record holding every stored field, a record is added only when none had that key, and repeating the upsert changes nothing |
| Mutations.RemoveApp | src/schema/resolvers.js:101-108 | every app under the arguments' (name, version) is deleted, their number is returned, and the apps are published |
| Mutations.EffectiveOptions | src/schema/resolvers.js:120-123 | truthy options with an own key are used unchanged; otherwise they become `{storageBucket: name}`; either way they are non-empty |
| Mutations.StartInstance | src/schema/resolvers.js:109-151 | an unknown (appName, appVersion) rejects with "App appName:appVersion does not exist." and changes nothing; otherwise the `created`/`running` record with `storageBucket = options.storageBucket` and empty services is appended and returned, then the start command, sent with the store already holding the new record, then one publication of the instances |
| Mutations.NewInstanceIntent | src/schema/resolvers.js:126-132 | a started record carries its name, `state` = `created` and `desiredState` = `running` |
| Mutations.StartUniqueIff | src/schema/resolvers.js:125 | names stay unique after a start exactly when they were unique and the name was not yet stored |
| Mutations.StartedThenUnreportedIsSwept | src/mqtt/docker/swarm.js:13 | a just-started instance that the next report omits is deleted by that pass |
| Mutations.StartedThenReportedIsMerged | src/mqtt/docker/swarm.js:8-11 | when its name was not yet stored, a just-started instance that the next report includes keeps its intent fields and takes the reported ones; `state` stays `created` only if the report has none |
| Mutations.StartedUnderTakenName | src/schema/resolvers.js:125 | a start under a name already stored does not take it over: the next report merges into the older record and the pass sweeps the started one |
| Mutations.NewInstanceUnstamped | src/schema/resolvers.js:126-135 | a started record carries no `_ts` stamp |
| Mutations.StopCommand | src/schema/resolvers.js:164-176 | the stop command carries the record's app name and version and the instance name; there is none when the record has no `app` |
| Mutations.StopInstance | src/schema/resolvers.js:152-184 | the store gets the three stop fields on the first record with that name; no match rejects with "Instance name does not exist" and sends nothing; a match sends one stop command, with the store already holding the stop fields, and returns the updated record; when the record has no `app`, the update stays, nothing is sent, and the outcome is an uncaught type error (the request never gets an answer), not a rejection |
| Mutations.StopChangesOnlyIntent | src/schema/resolvers.js:154-162 | a stop sets `desiredState`, `status` and `stoppedBy` on that record and changes no other field and no other record; names are unchanged; an unknown name changes nothing |
| Mutations.StopIdempotent | src/schema/resolvers.js:159-162 | stopping twice leaves the store as stopping once |
| Mutations.DeleteBucket | src/schema/resolvers.js:185-195 | the bucket is locked, the delete command is sent beside the locked store, the buckets are published, and the answer is 1 |
| Mutations.CopyBucket | src/schema/resolvers.js:196-212 | the source is locked, then the locked destination is appended, and only then the copy command is sent: the log records it beside the store holding both; the new record is returned |
| Mutations.LockKeepsBuckets | src/schema/resolvers.js:186-188 | locking removes and renames no bucket, changes no field but `isLocked`, and the named bucket ends locked |
| Mutations.CopyLocksBoth | src/schema/resolvers.js:198-205 | in the store logged with the copy command, the source (if stored) and the destination are both locked and every earlier bucket is still there |

## Left out

- Network I/O is not modelled: fetching the app store file and the log URL. Only the text-to-lines transform of the log resolver is modelled.
- `yaml.safeLoad` is a foreign parser. `createOrUpdateApp` takes the parsed compose value as input, and a parse error is not modelled.
- `enhanceForBigBoat` is not part of this model. It is the uninterpreted parameter `enhance`.
- The MQTT senders and the `publish*` functions are modelled only as appends to the effect log. Delivery, and whether anyone receives the message, are not modelled.
- The clock is not modelled. `Date.now()` becomes the parameter `ts`.
- Callbacks and async scheduling are not modelled:
  - each operation runs as sequential steps;
  - ignored `err` arguments are not modelled;
  - the publication in `createOrUpdateApp` is not awaited, and is modelled as running after the update;
  - concurrent reconciliation passes and interleaved mutations are not modelled;
  - in `deleteBucket` the delete command is sent right after the lock is queued, so the lock may reach the store after the command goes out. Mutations.DeleteBucket locks first and then sends.
- Store.Collection.Remove: deletes every match. The reconciler calls `remove` without options, and `removeApp` (Mutations.RemoveApp) passes empty options. That default belongs to the store library, which is not part of this model. A `removeApp` call without `version` picks only `name` and so removes every version of the app; the model does the same through `AppFilter`.
- Store.Updated: only the first matching record is changed, the store library's default when `multi` is not set.
- Dotted `$set` paths are not modelled, and neither are record ordering or indexing inside the store library.
- The store's generated `_id` field is not modelled.
- The code mutates the caller's snapshot entries and mutation arguments: it writes `_ts` and `tags` into them. The model works on values, so that aliasing is not captured.
- Swarm.ReconcileMerges: assumes each snapshot entry's own `name` field, if any, equals its key (WellKeyed). An entry naming a different instance would rename the record through `$set`.
- Json.Value: numbers are integers only, and `NaN`, floats and number formatting are left out.
- Json.Value: `null` and `undefined` are not distinguished.
- InstanceResolvers.Logs: strings are sequences of Unicode code points, while `slice(8)` and `Object.keys` of a string count UTF-16 code units. A line with a character outside the Basic Multilingual Plane among its first 8 code units loses one more character in the model than in the code. The same applies to Json.OwnEntries of a string.
- Swarm.Reconcile: snapshot entries are records. A `null` entry, or in strict-mode code any primitive entry, makes the `_ts` write throw, which aborts the pass before the sweep and the publication; that path is not modelled.
- Json.OwnEntries: the lemmas that read an object assume its fields are distinct (DistinctKeys), as JavaScript objects guarantee. For arrays and strings this is proved (Json.IndexKeysDistinct).
- Mutations.StopInstance: assumes the `name` argument is present. Without it the filter picks `{}` and stops the first instance.
- Mutations.StopInstance: the `"??"` placeholder fields and empty options of the stop message are not modelled. Neither is its `console.log` output, or that of `startInstance`.
- The GraphQL `Query` resolvers, the `id` resolvers, scalars and subscription iterators are not modelled. They are thin wrappers over the store and pubsub libraries.
