/** The field resolvers of the GraphQL schema that compute something: the
    list view of an instance's services, and a service's log lines. */
module InstanceResolvers {
  import opened Wrappers
  import opened Json
  import opened Errors

  // ---- Instance.services ----

  /** `Object.assign({name: key}, info)`: the service's own properties with
      its key as `name` (an own `name` property of `info` wins). */
  function ServiceEntry(key: string, info: Value): Doc {
    Assign(map["name" := Str(key)], OwnEntries(info))
  }

  /** The filter: every key when no argument is given, otherwise only the key
      equal to `args.name`. */
  predicate Selected(args: Doc, key: string) {
    |args| == 0 || Get(args, "name") == Str(key)
  }

  function SelectKeys(keys: seq<string>, args: Doc): (r: seq<string>)
    ensures forall k :: k in r <==> k in keys && Selected(args, k)
    ensures |r| <= |keys|
  {
    if keys == [] then []
    else (if Selected(args, keys[0]) then [keys[0]] else []) + SelectKeys(keys[1..], args)
  }

  /** `Instance.services(instance, args)`: `Object.keys(instance.services)`,
      filtered, each mapped to its entry. `Object.keys` throws on a missing
      or null `services`. */
  function Services(instance: Doc, args: Doc): (r: Result<seq<Doc>, Error>)
    ensures r.Failure? <==> Get(instance, "services") == Null
  {
    var services := Get(instance, "services");
    if services == Null then Failure(TypeError("Cannot convert undefined or null to object"))
    else
      var entries := OwnEntries(services);
      var keys := SelectKeys(KeysOf(entries), args);
      Success(seq(|keys|, i requires 0 <= i < |keys| => ServiceEntry(keys[i], Lookup(entries, keys[i]))))
  }

  lemma {:induction false} SelectAll(keys: seq<string>, args: Doc)
    requires |args| == 0
    ensures SelectKeys(keys, args) == keys
  {
    if keys != [] {
      SelectAll(keys[1..], args);
    }
  }

  /** With a name given, at most the one key equal to it survives the filter. */
  lemma {:induction false} SelectOne(keys: seq<string>, args: Doc)
    requires |args| != 0
    requires forall i, j :: 0 <= i < j < |keys| ==> keys[i] != keys[j]
    ensures Get(args, "name").Str? && Get(args, "name").s in keys ==> SelectKeys(keys, args) == [Get(args, "name").s]
    ensures !(Get(args, "name").Str? && Get(args, "name").s in keys) ==> SelectKeys(keys, args) == []
  {
    if keys != [] {
      SelectOne(keys[1..], args);
      if Selected(args, keys[0]) {
        assert keys[0] !in keys[1..];
      }
    }
  }

  /** Without arguments, `services` lists one entry per key, in key order;
      each holds the key as `name` (unless the service has its own `name`)
      and every property of that service. */
  lemma ServicesListsEveryKey(instance: Doc)
    requires Get(instance, "services") != Null
    requires DistinctKeys(OwnEntries(Get(instance, "services")))
    ensures var entries := OwnEntries(Get(instance, "services"));
      && Services(instance, map[]).Success?
      && |Services(instance, map[]).value| == |entries|
      && forall i :: 0 <= i < |entries| ==>
           Services(instance, map[]).value[i] == ServiceEntry(entries[i].0, entries[i].1)
  {
    var entries := OwnEntries(Get(instance, "services"));
    SelectAll(KeysOf(entries), map[]);
    forall i | 0 <= i < |entries| ensures Lookup(entries, entries[i].0) == entries[i].1 {
      LookupFinds(entries, i);
    }
  }

  /** With arguments, `services` returns at most one entry: the one whose key
      equals `args.name`, or none when no key does (also when `args` has no
      `name`). */
  lemma ServicesByName(instance: Doc, args: Doc)
    requires Get(instance, "services") != Null
    requires DistinctKeys(OwnEntries(Get(instance, "services")))
    requires |args| != 0
    ensures var entries := OwnEntries(Get(instance, "services"));
      && Services(instance, args).Success?
      && |Services(instance, args).value| <= 1
      && (forall i :: 0 <= i < |entries| && Get(args, "name") == Str(entries[i].0) ==>
            Services(instance, args).value == [ServiceEntry(entries[i].0, entries[i].1)])
      && ((forall i :: 0 <= i < |entries| ==> Get(args, "name") != Str(entries[i].0)) ==>
            Services(instance, args).value == [])
  {
    var entries := OwnEntries(Get(instance, "services"));
    var keys := KeysOf(entries);
    SelectOne(keys, args);
    forall i | 0 <= i < |entries| && Get(args, "name") == Str(entries[i].0)
      ensures Services(instance, args).value == [ServiceEntry(entries[i].0, entries[i].1)]
    {
      assert keys[i] == entries[i].0;
      LookupFinds(entries, i);
    }
    if Get(args, "name").Str? && Get(args, "name").s in keys {
      var i :| 0 <= i < |keys| && keys[i] == Get(args, "name").s;
      assert Get(args, "name") == Str(entries[i].0);
    }
  }

  /** A service entry holds the key as `name` unless the service has its own
      `name`, and every property of the service. */
  lemma ServiceEntryFields(key: string, info: Value)
    requires DistinctKeys(OwnEntries(info))
    ensures var e := ServiceEntry(key, info); var own := OwnEntries(info);
      && ("name" !in KeysOf(own) ==> "name" in e && e["name"] == Str(key))
      && (forall i :: 0 <= i < |own| ==> own[i].0 in e && e[own[i].0] == own[i].1)
      && (forall f :: f in e <==> f == "name" || f in KeysOf(own))
  {
    AssignFields(map["name" := Str(key)], OwnEntries(info));
  }

  // ---- ServiceInfo.logs ----

  /** `text.split("\n")`: the pieces between newlines; always at least one. */
  function SplitLines(text: string): (lines: seq<string>)
    ensures |lines| >= 1
  {
    if text == [] then [""]
    else
      var rest := SplitLines(text[1..]);
      if text[0] == '\n' then [""] + rest
      else [[text[0]] + rest[0]] + rest[1..]
  }

  /** `lines.join("\n")`, the inverse of the split. */
  function JoinLines(lines: seq<string>): string {
    if lines == [] then ""
    else if |lines| == 1 then lines[0]
    else lines[0] + "\n" + JoinLines(lines[1..])
  }

  function NewlineCount(text: string): nat {
    if text == [] then 0 else (if text[0] == '\n' then 1 else 0) + NewlineCount(text[1..])
  }

  /** `line.slice(8)`: the line without its first 8 characters. */
  function DropPrefix(line: string): string {
    if |line| <= 8 then "" else line[8..]
  }

  /** `ServiceInfo.logs`, after the fetch: one entry per line of the text,
      each with its first 8 characters dropped (empty if the line is
      shorter). */
  function Logs(text: string): (r: seq<string>)
    ensures |r| == |SplitLines(text)|
    ensures forall i :: 0 <= i < |r| ==>
      var line := SplitLines(text)[i];
      && |r[i]| == (if |line| <= 8 then 0 else |line| - 8)
      && (|line| >= 8 ==> line == line[..8] + r[i])
  {
    var lines := SplitLines(text);
    seq(|lines|, i requires 0 <= i < |lines| => DropPrefix(lines[i]))
  }

  /** Splitting then joining gives the text back; no piece holds a newline;
      there is one piece more than there are newlines. */
  lemma {:induction false} SplitThenJoin(text: string)
    ensures JoinLines(SplitLines(text)) == text
    ensures forall i :: 0 <= i < |SplitLines(text)| ==> '\n' !in SplitLines(text)[i]
    ensures |SplitLines(text)| == NewlineCount(text) + 1
  {
    if text != [] {
      var rest := SplitLines(text[1..]);
      SplitThenJoin(text[1..]);
      var lines := SplitLines(text);
      if text[0] == '\n' {
        assert lines == [""] + rest;
        assert lines[1..] == rest;
        assert text == [text[0]] + text[1..];
      } else {
        assert lines == [[text[0]] + rest[0]] + rest[1..];
        if |rest| == 1 {
          assert text == [text[0]] + text[1..];
        } else {
          assert lines[1..] == rest[1..];
          assert JoinLines(rest) == rest[0] + "\n" + JoinLines(rest[1..]);
          assert text == [text[0]] + text[1..];
        }
        forall i | 0 <= i < |lines| ensures '\n' !in lines[i] {
          if i > 0 {
            assert lines[i] == rest[i];
          }
        }
      }
    }
  }

  function TotalLength(lines: seq<string>): nat {
    if lines == [] then 0 else |lines[0]| + TotalLength(lines[1..])
  }

  /** Joining newline-free lines and splitting again gives the lines back. */
  lemma {:induction false} JoinThenSplit(lines: seq<string>)
    requires |lines| >= 1
    requires forall i :: 0 <= i < |lines| ==> '\n' !in lines[i]
    ensures SplitLines(JoinLines(lines)) == lines
    decreases TotalLength(lines) + |lines|
  {
    var head := lines[0];
    if head == "" {
      if |lines| > 1 {
        var tail := lines[1..];
        assert JoinLines(lines) == "\n" + JoinLines(tail);
        assert forall i :: 0 <= i < |tail| ==> tail[i] == lines[i + 1];
        JoinThenSplit(tail);
        assert ("\n" + JoinLines(tail))[1..] == JoinLines(tail);
        assert lines == [""] + tail;
      }
    } else {
      var shorter := [head[1..]] + lines[1..];
      assert shorter[1..] == lines[1..];
      assert forall i :: 0 <= i < |shorter| ==> '\n' !in shorter[i] by {
        forall i | 0 <= i < |shorter| ensures '\n' !in shorter[i] {
          if i == 0 {
            assert forall c :: c in head[1..] ==> c in head;
          } else {
            assert shorter[i] == lines[i];
          }
        }
      }
      assert TotalLength(shorter) < TotalLength(lines);
      JoinThenSplit(shorter);
      assert head == [head[0]] + head[1..];
      assert JoinLines(lines) == [head[0]] + JoinLines(shorter);
      assert ([head[0]] + JoinLines(shorter))[1..] == JoinLines(shorter);
      assert lines == [[head[0]] + head[1..]] + shorter[1..];
    }
  }

  /** The log view has one entry per line of the text: one more than the
      number of newlines. */
  lemma LogsCount(text: string)
    ensures |Logs(text)| == NewlineCount(text) + 1
  {
    SplitThenJoin(text);
  }
}
