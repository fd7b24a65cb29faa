/** JavaScript values as the generator sees them: the operation input tree
    handed over by the GraphQL layer, and the parameter objects it builds.
    An object is an ordered list of fields, as `Object.entries` enumerates it. */
module Js {
  import opened Wrappers

  datatype Value =
    | Null
    | Bool(b: bool)
    | Num(n: int)
    | Str(s: string)
    | List(items: seq<Value>)
    | Obj(fields: seq<Field>)

  datatype Field = Field(key: string, val: Value)

  /** A parameter object: keys in insertion order, as JavaScript keeps keys that do not look
      like integers; parameter names never do. */
  type Params = seq<Field>

  /** Number of constructors in a value; every recursion over the input tree descends in it. */
  function Size(v: Value): nat
  {
    match v
    case List(items) => 1 + ItemsSize(items)
    case Obj(fields) => 1 + FieldsSize(fields)
    case _ => 1
  }

  function ItemsSize(items: seq<Value>): nat
  {
    if items == [] then 0 else Size(items[0]) + ItemsSize(items[1..])
  }

  function FieldsSize(fields: seq<Field>): nat
  {
    if fields == [] then 0 else Size(fields[0].val) + FieldsSize(fields[1..])
  }

  /** JavaScript truthiness. */
  predicate Truthy(v: Value)
  {
    match v
    case Null => false
    case Bool(b) => b
    case Num(n) => n != 0
    case Str(s) => s != ""
    case _ => true
  }

  /** `if (x)` on a property that may be absent (`undefined` is falsy). */
  predicate IsSet(o: Option<Value>)
  {
    o.Some? && Truthy(o.value)
  }

  /** The value of the first field named `key`. */
  function Lookup(fields: seq<Field>, key: string): (r: Option<Value>)
    ensures r.Some? <==> key in Keys(fields)
    ensures r.Some? ==> exists i :: 0 <= i < |fields| && fields[i] == Field(key, r.value)
  {
    if fields == [] then None
    else if fields[0].key == key then Some(fields[0].val)
    else Lookup(fields[1..], key)
  }

  /** `v[key]` / `v?.[key]`: absent unless `v` is an object holding `key`. */
  function Get(v: Value, key: string): Option<Value>
  {
    if v.Obj? then Lookup(v.fields, key) else None
  }

  /** `Object.keys(v)` */
  function Keys(fields: seq<Field>): (r: seq<string>)
    ensures |r| == |fields|
    ensures forall i :: 0 <= i < |fields| ==> r[i] == fields[i].key
  {
    seq(|fields|, i requires 0 <= i < |fields| => fields[i].key)
  }

  /** `Object.entries(v)` for an input object. */
  function Entries(v: Value): seq<Field>
  {
    if v.Obj? then v.fields else []
  }

  /** `Array.isArray(v) ? v : [v]` */
  function AsList(v: Value): (r: seq<Value>)
    ensures !v.List? ==> r == [v]
  {
    if v.List? then v.items else [v]
  }

  /** `Object.prototype.hasOwnProperty.call(v, key)` on an object. */
  predicate HasOwn(v: Value, key: string)
  {
    v.Obj? && key in Keys(v.fields)
  }

  /** `p[key] = v`: overwrites the value in place, or appends a new key at the end. */
  function Set(p: Params, key: string, v: Value): Params
  {
    if key in Keys(p) then Replaced(p, key, v) else p + [Field(key, v)]
  }

  /** Every field named `key` given the value `v`, in place. */
  function Replaced(p: Params, key: string, v: Value): (r: Params)
    ensures |r| == |p|
    ensures forall i :: 0 <= i < |p| ==> r[i] == if p[i].key == key then Field(key, v) else p[i]
  {
    seq(|p|, i requires 0 <= i < |p| => if p[i].key == key then Field(key, v) else p[i])
  }

  /** After `p[key] = v`, `key` reads `v`, every other key reads as before, and the key
      order changes only by appending a new key. */
  lemma SetSpec(p: Params, key: string, v: Value)
    ensures Lookup(Set(p, key, v), key) == Some(v)
    ensures forall k :: k != key ==> Lookup(Set(p, key, v), k) == Lookup(p, k)
    ensures Keys(Set(p, key, v)) == if key in Keys(p) then Keys(p) else Keys(p) + [key]
  {
    var r := Set(p, key, v);
    if key in Keys(p) {
      forall k ensures Lookup(r, k) == if k == key then Some(v) else Lookup(p, k) {
        ReplacedLookup(p, key, v, k);
      }
    } else {
      forall k ensures Lookup(r, k) == if k == key then Some(v) else Lookup(p, k) {
        AppendedLookup(p, Field(key, v), k);
      }
    }
  }

  lemma SetKeys(p: Params, key: string, v: Value)
    ensures Keys(Set(p, key, v)) == if key in Keys(p) then Keys(p) else Keys(p) + [key]
  {
  }

  lemma {:induction false} ReplacedLookup(p: Params, key: string, v: Value, k: string)
    ensures Lookup(Replaced(p, key, v), k) == if k == key && key in Keys(p) then Some(v) else Lookup(p, k)
  {
    if p != [] {
      var r := Replaced(p, key, v);
      assert Keys(p) == [p[0].key] + Keys(p[1..]);
      if r[0].key == k {
        assert Lookup(r, k) == Some(r[0].val);
      } else {
        assert r[1..] == Replaced(p[1..], key, v);
        ReplacedLookup(p[1..], key, v, k);
      }
    }
  }

  lemma {:induction false} AppendedLookup(p: Params, f: Field, k: string)
    ensures Lookup(p + [f], k) == if k in Keys(p) then Lookup(p, k) else if k == f.key then Some(f.val) else None
  {
    if p != [] {
      assert (p + [f])[1..] == p[1..] + [f];
      assert Keys(p) == [p[0].key] + Keys(p[1..]);
      AppendedLookup(p[1..], f, k);
    }
  }

  /** `{ ...a, ...b }`: the fields of `b`, in order, written over `a`. */
  function Spread(a: Params, b: Params): Params
    decreases b
  {
    if b == [] then a else Spread(Set(a, b[0].key, b[0].val), b[1..])
  }

  /** The value the last field named `key` gives it. */
  function LastLookup(fields: seq<Field>, key: string): (r: Option<Value>)
    ensures r.Some? <==> key in Keys(fields)
  {
    if fields == [] then None
    else
      var later := LastLookup(fields[1..], key);
      assert Keys(fields) == [fields[0].key] + Keys(fields[1..]);
      if later.Some? then later
      else if fields[0].key == key then Some(fields[0].val)
      else None
  }

  /** Keys that `b` adds to `a`, in the order `{ ...a, ...b }` appends them. */
  function NewKeys(a: seq<string>, b: seq<string>): seq<string>
    decreases b
  {
    if b == [] then []
    else if b[0] in a then NewKeys(a, b[1..])
    else [b[0]] + NewKeys(a + [b[0]], b[1..])
  }

  /** `{ ...a, ...b }` reads a key from the last field of `b` that names it, and from `a`
      otherwise. */
  lemma {:induction false} SpreadLookup(a: Params, b: Params, k: string)
    ensures Lookup(Spread(a, b), k) == if k in Keys(b) then LastLookup(b, k) else Lookup(a, k)
    decreases b
  {
    if b != [] {
      var a' := Set(a, b[0].key, b[0].val);
      SetLookup(a, b[0].key, b[0].val, k);
      SpreadLookup(a', b[1..], k);
      LastLookupCons(b, k);
    }
  }

  lemma SetLookup(p: Params, key: string, v: Value, k: string)
    ensures Lookup(Set(p, key, v), k) == if k == key then Some(v) else Lookup(p, k)
  {
    SetSpec(p, key, v);
  }

  /** The last binding of a key is in the rest of the list when the rest binds it. */
  lemma LastLookupCons(b: Params, k: string)
    requires b != []
    ensures k in Keys(b) <==> k in Keys(b[1..]) || k == b[0].key
    ensures LastLookup(b, k)
            == if k in Keys(b[1..]) then LastLookup(b[1..], k) else if k == b[0].key then Some(b[0].val) else None
  {
    assert Keys(b) == [b[0].key] + Keys(b[1..]);
  }



  /** The keys of `{ ...a, ...b }` are those of `a`, in place, followed by the keys `b` adds. */
  lemma {:induction false} SpreadKeys(a: Params, b: Params)
    ensures Keys(Spread(a, b)) == Keys(a) + NewKeys(Keys(a), Keys(b))
    decreases b
  {
    if b != [] {
      var k0 := b[0].key;
      var a' := Set(a, k0, b[0].val);
      assert Keys(a') == (if k0 in Keys(a) then Keys(a) else Keys(a) + [k0]) by {
        SetKeys(a, k0, b[0].val);
      }
      assert Keys(Spread(a, b)) == Keys(a') + NewKeys(Keys(a'), Keys(b[1..])) by {
        SpreadKeys(a', b[1..]);
      }
      assert Keys(b) == [k0] + Keys(b[1..]);
      NewKeysStep(Keys(a), k0, Keys(b[1..]), Keys(a'), Keys(Spread(a, b)));
    }
  }

  /** One key of `b` at a time: it is new exactly when `a` lacks it. */
  lemma NewKeysStep(ka: seq<string>, k0: string, rest: seq<string>, ka': seq<string>, result: seq<string>)
    requires ka' == (if k0 in ka then ka else ka + [k0])
    requires result == ka' + NewKeys(ka', rest)
    ensures result == ka + NewKeys(ka, [k0] + rest)
  {
    assert ([k0] + rest)[0] == k0 && ([k0] + rest)[1..] == rest;
    if k0 !in ka {
      assert ka + ([k0] + NewKeys(ka', rest)) == (ka + [k0]) + NewKeys(ka', rest);
    }
  }

  // ---------------------------------------------------------------------------------------------
  // Sizes: what the generator descends into is smaller than where it came from

  lemma {:induction false} LookupSmaller(fields: seq<Field>, key: string)
    ensures Lookup(fields, key).Some? ==> Size(Lookup(fields, key).value) <= FieldsSize(fields)
  {
    if fields != [] && fields[0].key != key {
      LookupSmaller(fields[1..], key);
    }
  }

  lemma GetSmaller(v: Value, key: string)
    ensures Get(v, key).Some? ==> Size(Get(v, key).value) < Size(v)
  {
    if v.Obj? {
      LookupSmaller(v.fields, key);
    }
  }

  lemma {:induction false} ItemSmaller(items: seq<Value>, i: nat)
    requires i < |items|
    ensures Size(items[i]) <= ItemsSize(items)
  {
    if i > 0 {
      ItemSmaller(items[1..], i - 1);
    }
  }

  lemma AsListSmaller(v: Value, i: nat)
    requires i < |AsList(v)|
    ensures Size(AsList(v)[i]) <= Size(v)
  {
    if v.List? {
      ItemSmaller(v.items, i);
    }
  }

  lemma EntriesSmaller(v: Value)
    ensures FieldsSize(Entries(v)) < Size(v)
  {
  }
}
