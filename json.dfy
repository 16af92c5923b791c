/** JavaScript values and stored records, as the control plane handles them. */
module Json {

  /** A JavaScript value. `Null` stands for both `null` and `undefined`;
      numbers are integers (stamps, counters); an `Obj` lists its own
      enumerable properties in the order `Object.keys` and `for…in`
      report them. */
  datatype Value =
    | Null
    | Bool(b: bool)
    | Num(n: int)
    | Str(s: string)
    | Arr(items: seq<Value>)
    | Obj(fields: seq<(string, Value)>)

  /** A stored record of the Instances, Apps or Buckets store: field -> value. */
  type Doc = map<string, Value>

  /** JavaScript truthiness, as `a || b` and `a && b` test it. */
  predicate Truthy(v: Value) {
    match v
    case Null => false
    case Bool(b) => b
    case Num(n) => n != 0
    case Str(s) => s != ""
    case Arr(_) => true
    case Obj(_) => true
  }

  function Digit(d: nat): char
    requires d < 10
  {
    ('0' as int + d) as char
  }

  /** The decimal spelling of an index, as `Object.keys` gives array and string indices. */
  function DecimalString(n: nat): (r: string)
    ensures |r| == 1 <==> n < 10
    ensures 0 < |r|
  {
    if n < 10 then [Digit(n)] else DecimalString(n / 10) + [Digit(n % 10)]
  }

  /** Distinct indices have distinct spellings. */
  lemma {:induction false} DecimalStringInjective(m: nat, n: nat)
    ensures DecimalString(m) == DecimalString(n) <==> m == n
  {
    if m >= 10 && n >= 10 {
      DecimalStringInjective(m / 10, n / 10);
      var a, b := DecimalString(m), DecimalString(n);
      if a == b {
        assert Digit(m % 10) == a[|a| - 1] == b[|b| - 1] == Digit(n % 10);
        assert DecimalString(m / 10) == a[..|a| - 1] == b[..|b| - 1] == DecimalString(n / 10);
      }
    }
  }

  /** The own enumerable properties of a non-null value, in `Object.keys`
      order: an object's fields, an array's or a string's indices, and
      nothing for numbers and booleans. */
  function OwnEntries(v: Value): seq<(string, Value)> {
    match v
    case Obj(fields) => fields
    case Arr(items) => seq(|items|, i requires 0 <= i < |items| => (DecimalString(i), items[i]))
    case Str(s) => seq(|s|, i requires 0 <= i < |s| => (DecimalString(i), Str([s[i]])))
    case _ => []
  }

  function KeysOf<T>(entries: seq<(string, T)>): seq<string> {
    seq(|entries|, i requires 0 <= i < |entries| => entries[i].0)
  }

  /** No key occurs twice: true of the own properties of every JavaScript object. */
  predicate DistinctKeys<T>(entries: seq<(string, T)>) {
    forall i, j :: 0 <= i < j < |entries| ==> entries[i].0 != entries[j].0
  }

  /** An array's or a string's index keys never repeat; only an object's
      fields rest on the language's own guarantee. */
  lemma IndexKeysDistinct(v: Value)
    requires v.Arr? || v.Str?
    ensures DistinctKeys(OwnEntries(v))
  {
    var e := OwnEntries(v);
    forall i, j | 0 <= i < j < |e| ensures e[i].0 != e[j].0 {
      DecimalStringInjective(i, j);
    }
  }

  /** `o[key]` for an object given by its own entries: the value stored
      under `key`, or `undefined`. */
  function Lookup(entries: seq<(string, Value)>, key: string): Value {
    if entries == [] then Null
    else if entries[0].0 == key then entries[0].1
    else Lookup(entries[1..], key)
  }

  /** `v.f` for a value `v` that is neither null nor undefined. */
  function Member(v: Value, f: string): Value {
    Lookup(OwnEntries(v), f)
  }

  /** `d.f` for a stored record: undefined when the field is absent. */
  function Get(d: Doc, f: string): Value {
    if f in d then d[f] else Null
  }

  /** `Object.assign(target, source)` where `entries` are the source's own
      properties: each is written into the target in turn. */
  function Assign(target: Doc, entries: seq<(string, Value)>): Doc {
    if entries == [] then target
    else
      var last := entries[|entries| - 1];
      Assign(target, entries[..|entries| - 1])[last.0 := last.1]
  }

  /** A lookup by a key of a well-formed object finds that key's value. */
  lemma {:induction false} LookupFinds(entries: seq<(string, Value)>, i: nat)
    requires DistinctKeys(entries) && i < |entries|
    ensures Lookup(entries, entries[i].0) == entries[i].1
  {
    if i > 0 {
      assert entries[0].0 != entries[i].0;
      assert DistinctKeys(entries[1..]) by {
        forall a, b | 0 <= a < b < |entries| - 1 ensures entries[1..][a].0 != entries[1..][b].0 {
          assert entries[1..][a] == entries[a + 1] && entries[1..][b] == entries[b + 1];
        }
      }
      LookupFinds(entries[1..], i - 1);
    }
  }

  /** After `Object.assign`, the target holds exactly its old fields and the
      source's keys; every source property has its value, and every other
      field of the target is unchanged. */
  lemma {:induction false} AssignFields(target: Doc, entries: seq<(string, Value)>)
    requires DistinctKeys(entries)
    ensures forall k :: k in Assign(target, entries) <==> k in target || k in KeysOf(entries)
    ensures forall i :: 0 <= i < |entries| ==>
      entries[i].0 in Assign(target, entries) && Assign(target, entries)[entries[i].0] == entries[i].1
    ensures forall k :: k in target && k !in KeysOf(entries) ==> Assign(target, entries)[k] == target[k]
  {
    if entries != [] {
      var n := |entries| - 1;
      var init := entries[..n];
      assert DistinctKeys(init) by {
        forall a, b | 0 <= a < b < n ensures init[a].0 != init[b].0 {
          assert init[a] == entries[a] && init[b] == entries[b];
        }
      }
      AssignFields(target, init);
      assert KeysOf(entries) == KeysOf(init) + [entries[n].0];
      forall i | 0 <= i < |entries|
        ensures entries[i].0 in Assign(target, entries) && Assign(target, entries)[entries[i].0] == entries[i].1
      {
        assert KeysOf(entries)[i] == entries[i].0;
        if i < n {
          assert init[i] == entries[i];
          assert entries[i].0 != entries[n].0;
        }
      }
    }
  }
}
