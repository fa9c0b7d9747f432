/** The JavaScript values that cross the IPC boundary between the renderer and
    the main process, with the parts of the language the code relies on:
    truthiness, `??`, property reads, object spread (`{...a, k: v}`), which
    keeps the position of an existing key and appends a new one, and
    `Object.keys`/`Object.values`. Numbers are integers. */
module JsValues {
  import opened Wrappers
  import opened Strings

  datatype Value =
    | Undefined
    | Null
    | Bool(b: bool)
    | Num(n: int)
    | Str(s: string)
    | Arr(items: seq<Value>)
    | Obj(fields: seq<Field>)
      /** A string holding `JSON.stringify(payload)`. The text itself is not
          modelled; `Parse` recovers the payload. */
    | Json(payload: Value)

  /** One own property of an object, in insertion order. */
  datatype Field = Field(key: string, val: Value)

  predicate Truthy(v: Value) {
    match v
    case Undefined => false
    case Null => false
    case Bool(b) => b
    case Num(n) => n != 0
    case Str(s) => s != []
    case Json(_) => true
    case Arr(_) => true
    case Obj(_) => true
  }

  predicate IsNullish(v: Value) {
    v.Undefined? || v.Null?
  }

  /** `a ?? b`. */
  function OrElse(a: Value, b: Value): (r: Value)
    ensures IsNullish(a) ==> r == b
    ensures !IsNullish(a) ==> r == a
  {
    if IsNullish(a) then b else a
  }

  function Keys(fs: seq<Field>): (r: seq<string>)
    ensures |r| == |fs|
    ensures forall i :: 0 <= i < |fs| ==> r[i] == fs[i].key
  {
    if fs == [] then [] else [fs[0].key] + Keys(fs[1..])
  }

  function Values(fs: seq<Field>): (r: seq<Value>)
    ensures |r| == |fs|
    ensures forall i :: 0 <= i < |fs| ==> r[i] == fs[i].val
  {
    if fs == [] then [] else [fs[0].val] + Values(fs[1..])
  }

  /** The value stored under `k`, if `k` is a key. */
  function Lookup(fs: seq<Field>, k: string): (r: Option<Value>)
    ensures r.None? <==> k !in Keys(fs)
  {
    if fs == [] then None
    else if fs[0].key == k then Some(fs[0].val)
    else Lookup(fs[1..], k)
  }

  /** `v?.k`: `undefined` for a missing key or a value that is not an object. */
  function Get(v: Value, k: string): (r: Value)
    ensures v.Obj? && Lookup(v.fields, k).Some? ==> r == Lookup(v.fields, k).value
    ensures !v.Obj? || Lookup(v.fields, k).None? ==> r == Undefined
  {
    if v.Obj? then (var x := Lookup(v.fields, k); if x.Some? then x.value else Undefined)
    else Undefined
  }

  /** `o[k] = v` on an object: an existing key keeps its place, a new key goes last. */
  function Put(fs: seq<Field>, k: string, v: Value): (r: seq<Field>)
    ensures |fs| <= |r|
  {
    if fs == [] then [Field(k, v)]
    else if fs[0].key == k then [Field(k, v)] + fs[1..]
    else [fs[0]] + Put(fs[1..], k, v)
  }

  /** The keys after a write: unchanged for an existing key, one more at the end otherwise. */
  lemma {:induction false} PutKeys(fs: seq<Field>, k: string, v: Value)
    ensures Keys(Put(fs, k, v)) == if k in Keys(fs) then Keys(fs) else Keys(fs) + [k]
  {
    if fs != [] {
      assert Keys(fs) == [fs[0].key] + Keys(fs[1..]);
      if fs[0].key != k {
        PutKeys(fs[1..], k, v);
        assert Keys(Put(fs, k, v)) == [fs[0].key] + Keys(Put(fs[1..], k, v));
      } else {
        assert Keys(Put(fs, k, v)) == [k] + Keys(fs[1..]);
      }
    }
  }

  /** After a write, the key holds the new value and every other key its old one. */
  lemma {:induction false} PutLookup(fs: seq<Field>, k: string, v: Value, j: string)
    ensures Lookup(Put(fs, k, v), j) == if j == k then Some(v) else Lookup(fs, j)
  {
    if fs != [] && fs[0].key != k {
      PutLookup(fs[1..], k, v, j);
    }
  }

  /** The own enumerable properties that spread copies: an object's fields,
      an array's or a string's elements under their decimal indices, and
      nothing for other values. */
  function OwnFields(v: Value): (r: seq<Field>)
    ensures v.Obj? ==> r == v.fields
    ensures !v.Obj? && !v.Arr? && !v.Str? ==> r == []
  {
    match v
    case Obj(fs) => fs
    case Arr(items) => seq(|items|, i requires 0 <= i < |items| => Field(NatToDecimal(i), items[i]))
    case Str(s) => seq(|s|, i requires 0 <= i < |s| => Field(NatToDecimal(i), Str([s[i]])))
    case _ => []
  }

  /** `{...base, ...src}` as a list of fields: each field of `src` written in turn. */
  function Assign(base: seq<Field>, src: seq<Field>): (r: seq<Field>)
    ensures |base| <= |r|
    decreases |src|
  {
    if src == [] then base else Assign(Put(base, src[0].key, src[0].val), src[1..])
  }

  predicate DistinctKeys(fs: seq<Field>) {
    forall i, j :: 0 <= i < j < |fs| ==> fs[i].key != fs[j].key
  }

  /** After spreading a source with distinct keys, its keys hold its values. */
  lemma {:induction false} AssignLookup(base: seq<Field>, src: seq<Field>, k: string)
    requires DistinctKeys(src)
    requires k in Keys(src)
    ensures Lookup(Assign(base, src), k) == Lookup(src, k)
    decreases |src|
  {
    var b' := Put(base, src[0].key, src[0].val);
    assert Keys(src) == [src[0].key] + Keys(src[1..]);
    if src[0].key == k {
      assert k !in Keys(src[1..]);
      AssignUntouched(b', src[1..], k);
      PutLookup(base, k, src[0].val, k);
    } else {
      AssignLookup(b', src[1..], k);
    }
  }

  /** A key the source does not have keeps the value it had. */
  lemma {:induction false} AssignUntouched(base: seq<Field>, src: seq<Field>, k: string)
    requires k !in Keys(src)
    ensures Lookup(Assign(base, src), k) == Lookup(base, k)
    decreases |src|
  {
    if src != [] {
      assert Keys(src) == [src[0].key] + Keys(src[1..]);
      AssignUntouched(Put(base, src[0].key, src[0].val), src[1..], k);
      PutLookup(base, src[0].key, src[0].val, k);
    }
  }

  /** Spreading only ever adds keys at the end; the keys already present stay
      where they were. */
  lemma {:induction false} AssignKeysPrefix(base: seq<Field>, src: seq<Field>)
    ensures |Keys(base)| <= |Keys(Assign(base, src))|
    ensures Keys(Assign(base, src))[..|base|] == Keys(base)
    decreases |src|
  {
    if src != [] {
      var b' := Put(base, src[0].key, src[0].val);
      AssignKeysPrefix(b', src[1..]);
      PutKeys(base, src[0].key, src[0].val);
      PrefixOfPrefix(Keys(Assign(b', src[1..])), Keys(b'), Keys(base));
    }
  }

  lemma PrefixOfPrefix<T>(c: seq<T>, b: seq<T>, a: seq<T>)
    requires |b| <= |c| && c[..|b|] == b
    requires |a| <= |b| && b[..|a|] == a
    ensures |a| <= |c| && c[..|a|] == a
  {
    assert c[..|a|] == c[..|b|][..|a|];
  }

  /** Writing a key overwrites its first occurrence in place. */
  lemma {:induction false} PutReplaces(fs: seq<Field>, k: string, v: Value, i: nat)
    requires i < |fs| && fs[i].key == k
    requires forall j :: 0 <= j < i ==> fs[j].key != k
    ensures Put(fs, k, v) == fs[i := Field(k, v)]
  {
    if i > 0 {
      var tail := Put(fs[1..], k, v);
      assert Put(fs, k, v) == [fs[0]] + tail;
      PutReplaces(fs[1..], k, v, i - 1);
      assert [fs[0]] + tail == fs[i := Field(k, v)] by {
        assert tail == fs[1..][i - 1 := Field(k, v)];
      }
    }
  }

  /** Writing a key the object does not have appends it. */
  lemma {:induction false} PutNew(fs: seq<Field>, k: string, v: Value)
    requires k !in Keys(fs)
    ensures Put(fs, k, v) == fs + [Field(k, v)]
  {
    if fs != [] {
      assert fs[0].key != k && k !in Keys(fs[1..]) by {
        assert Keys(fs) == [fs[0].key] + Keys(fs[1..]);
      }
      var tail := Put(fs[1..], k, v);
      assert Put(fs, k, v) == [fs[0]] + tail;
      PutNew(fs[1..], k, v);
      assert [fs[0]] + tail == fs + [Field(k, v)] by {
        assert tail == fs[1..] + [Field(k, v)];
        assert fs == [fs[0]] + fs[1..];
      }
    }
  }

  lemma FreshHead(base: seq<Field>, src: seq<Field>)
    requires src != [] && DistinctKeys(base + src)
    ensures src[0].key !in Keys(base)
  {
    var all := base + src;
    forall i | 0 <= i < |base| ensures base[i].key != src[0].key {
      assert all[i] == base[i] && all[|base|] == src[0];
    }
  }

  /** Spreading fields whose keys are all new copies them as they are:
      `{...o}` of an object is the object. */
  lemma {:induction false} AssignFresh(base: seq<Field>, src: seq<Field>)
    requires DistinctKeys(base + src)
    ensures Assign(base, src) == base + src
    decreases |src|
  {
    if src != [] {
      var b' := base + [src[0]];
      assert DistinctKeys(b' + src[1..]) by {
        assert b' + src[1..] == base + src;
      }
      calc {
        Assign(base, src);
        { AssignFreshStep(base, src); }
        Assign(b', src[1..]);
        { AssignFresh(b', src[1..]); }
        b' + src[1..];
        { assert b' + src[1..] == base + src; }
        base + src;
      }
    }
  }

  /** One step of `AssignFresh`: the first field of the source goes last. */
  lemma AssignFreshStep(base: seq<Field>, src: seq<Field>)
    requires src != [] && DistinctKeys(base + src)
    ensures Assign(base, src) == Assign(base + [src[0]], src[1..])
  {
    FreshHead(base, src);
    PutNew(base, src[0].key, src[0].val);
  }

  /** `Object.keys(v)`: a `TypeError` for `null` and `undefined`. */
  function ObjectKeys(v: Value): (r: Result<seq<string>>)
    ensures r.Failure? <==> IsNullish(v)
    ensures r.Success? ==> r.value == Keys(OwnFields(v))
  {
    if IsNullish(v) then Failure(NullConversionError) else Success(Keys(OwnFields(v)))
  }

  /** `Object.values(v)`, in the same order as `Object.keys(v)`. */
  function ObjectValues(v: Value): (r: Result<seq<Value>>)
    ensures r.Failure? <==> IsNullish(v)
    ensures r.Success? ==> r.value == Values(OwnFields(v))
  {
    if IsNullish(v) then Failure(NullConversionError) else Success(Values(OwnFields(v)))
  }

  const NullConversionError := "Cannot convert undefined or null to object"

  /** `JSON.stringify(v)`. */
  function Stringify(v: Value): Value {
    Json(v)
  }

  /** `JSON.parse(v)`: only the text of a stringified value is modelled as
      parsing; any other value is treated as malformed text. */
  function Parse(v: Value): (r: Result<Value>)
    ensures v.Json? <==> r.Success?
  {
    if v.Json? then Success(v.payload) else Failure(JsonParseError)
  }

  const JsonParseError := "Unexpected token in JSON"

  lemma ParseStringify(v: Value)
    ensures Parse(Stringify(v)) == Success(v)
    ensures Truthy(Stringify(v))
  {
  }
}
