/** The two outward channels: commands to the orchestration agent and
    full-snapshot publications to subscribers. Only the fact and order of
    each send or publish is kept, with the store each command was sent
    beside; delivery is not part of the model. */
module Bus {
  import opened Json
  import Store

  datatype Topic = InstancesTopic | AppsTopic | BucketsTopic

  /** A command for the agent. `Stop` carries the values read from the
      stored record's `app.name`, `app.version` and `name`. */
  datatype Command =
    | Start(app: Value, instanceName: string, options: Value)
    | Stop(appName: Value, appVersion: Value, stoppedName: Value)
    | DeleteBucket(bucket: string)
    | CopyBucket(source: string, destination: string)

  datatype Effect =
    | Sent(command: Command, seen: seq<Doc>)
    | Published(topic: Topic, snapshot: seq<Doc>)

  /** Everything sent or published so far, in order. */
  class Outbox {
    ghost var effects: seq<Effect>

    constructor ()
      ensures effects == []
    {
      effects := [];
    }

    /** Sends `c`, recording what `store` holds at that moment. */
    method Send(c: Command, store: Store.Collection)
      modifies this
      ensures effects == old(effects) + [Sent(c, store.docs)]
    {
      effects := effects + [Sent(c, store.docs)];
    }

    method Publish(t: Topic, snapshot: seq<Doc>)
      modifies this
      ensures effects == old(effects) + [Published(t, snapshot)]
    {
      effects := effects + [Published(t, snapshot)];
    }
  }
}
