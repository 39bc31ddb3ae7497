/**
 * JSON-like values of the site-profile document, together with the
 * JavaScript property-access rules that the editor's path operations rely
 * on: truthiness, array-index keys, reading a property, and assigning one.
 */
module Json {

  datatype Option<T> = None | Some(value: T)

  /** A node of the document tree. The document holds no numbers. */
  datatype Value =
    | Null
    | Bool(b: bool)
    | Str(s: string)
    | Obj(fields: map<string, Value>)
    | Arr(items: seq<Value>)

  /** JavaScript truthiness, for the kinds of value a document holds. */
  predicate Truthy(v: Value) {
    match v
    case Null => false
    case Bool(b) => b
    case Str(s) => s != ""
    case Obj(_) => true
    case Arr(_) => true
  }

  /** Containers are the only values whose properties can be assigned. */
  predicate IsContainer(v: Value) {
    v.Obj? || v.Arr?
  }

  // ---------------------------------------------------------------------
  // Array-index keys: a path segment such as "3" addresses element 3 of an
  // array; only the canonical numeral does ("03" is an ordinary key).
  // ---------------------------------------------------------------------

  predicate IsDigit(c: char) {
    '0' <= c <= '9'
  }

  predicate AllDigits(s: string) {
    forall i :: 0 <= i < |s| ==> IsDigit(s[i])
  }

  function DigitValue(c: char): nat
    requires IsDigit(c)
  {
    c as int - '0' as int
  }

  function Digit(d: nat): char
    requires d < 10
  {
    ('0' as int + d) as char
  }

  /** The number a string of decimal digits denotes, most significant first. */
  function DigitsValue(s: string): nat
    requires AllDigits(s)
  {
    if s == [] then 0 else DigitsValue(s[..|s| - 1]) * 10 + DigitValue(s[|s| - 1])
  }

  /** "0", or a non-empty digit string that does not start with '0'. */
  predicate IsCanonicalIndex(key: string) {
    |key| > 0 && AllDigits(key) && (key[0] != '0' || |key| == 1)
  }

  /** The array index a property key denotes, if any. */
  function IndexOf(key: string): Option<nat> {
    if IsCanonicalIndex(key) then Some(DigitsValue(key)) else None
  }

  /** `String(n)`: the decimal numeral of n, which the views use to build paths. */
  function NatToString(n: nat): (r: string)
    ensures |r| > 0 && AllDigits(r)
    ensures r[0] == '0' <==> n == 0
    ensures n == 0 ==> |r| == 1
    decreases n
  {
    if n < 10 then [Digit(n)] else NatToString(n / 10) + [Digit(n % 10)]
  }

  lemma {:induction false} IndexOfNatToString(n: nat)
    ensures IndexOf(NatToString(n)) == Some(n)
    decreases n
  {
    var r := NatToString(n);
    if n >= 10 {
      IndexOfNatToString(n / 10);
      var p := NatToString(n / 10);
      assert r[..|r| - 1] == p;
      assert DigitValue(Digit(n % 10)) == n % 10;
      assert DigitsValue(r) == DigitsValue(p) * 10 + n % 10;
    } else {
      assert r == [Digit(n)] && r[..0] == [];
      assert DigitValue(Digit(n)) == n;
      assert DigitsValue(r) == DigitsValue(r[..0]) * 10 + n;
    }
  }

  lemma {:induction false} DigitsValuePositive(s: string)
    requires |s| > 0 && AllDigits(s) && s[0] != '0'
    ensures DigitsValue(s) > 0
    decreases |s|
  {
    if |s| > 1 {
      DigitsValuePositive(s[..|s| - 1]);
    }
  }

  lemma {:induction false} NatToStringOfIndex(key: string)
    requires IndexOf(key).Some?
    ensures NatToString(IndexOf(key).value) == key
    decreases |key|
  {
    var n := DigitsValue(key);
    var c := key[|key| - 1];
    if |key| == 1 {
      assert key == [c] && key[..|key| - 1] == [];
      assert DigitsValue(key[..|key| - 1]) == 0;
      assert n == DigitValue(c) < 10;
      assert Digit(DigitValue(c)) == c;
    } else {
      var p := key[..|key| - 1];
      assert IsCanonicalIndex(p);
      DigitsValuePositive(p);
      NatToStringOfIndex(p);
      assert n == DigitsValue(p) * 10 + DigitValue(c);
      assert n / 10 == DigitsValue(p) && n % 10 == DigitValue(c);
      assert Digit(DigitValue(c)) == c;
      assert key == p + [c];
    }
  }

  /** Two keys that denote the same array index are the same string. */
  lemma IndexKeyInjective(a: string, b: string)
    requires IndexOf(a).Some? && IndexOf(a) == IndexOf(b)
    ensures a == b
  {
    NatToStringOfIndex(a);
    NatToStringOfIndex(b);
  }

  lemma NatToStringInjective()
    ensures forall i: nat, j: nat :: NatToString(i) == NatToString(j) ==> i == j
  {
    forall i: nat, j: nat | NatToString(i) == NatToString(j)
      ensures i == j
    {
      IndexOfNatToString(i);
      IndexOfNatToString(j);
    }
  }

  // ---------------------------------------------------------------------
  // Reading and assigning one property.
  // ---------------------------------------------------------------------

  /**
   * The outcome of a JavaScript property read: a value, `undefined`, or a
   * TypeError (reading a property of null or undefined).
   */
  datatype Read = Found(value: Value) | Undefined | Thrown

  /** `v[key]` for a value v that is not undefined. */
  function Child(v: Value, key: string): (r: Read)
    ensures r.Thrown? <==> v.Null?
    ensures r.Found? ==> IsContainer(v)
    ensures v.Obj? ==> (r.Found? <==> key in v.fields)
    ensures v.Arr? ==> (r.Found? <==> IndexOf(key).Some? && IndexOf(key).value < |v.items|)
  {
    match v
    case Null => Thrown
    case Obj(m) => if key in m then Found(m[key]) else Undefined
    case Arr(s) =>
      (match IndexOf(key)
       case Some(i) => if i < |s| then Found(s[i]) else Undefined
       case None => Undefined)
    case _ => Undefined
  }

  /** One more `[key]` applied to the result of a read. */
  function Step(r: Read, key: string): Read {
    match r
    case Found(v) => Child(v, key)
    case _ => Thrown
  }

  /** `v[path[0]][path[1]]...`: the value at a path, walked from the root. */
  function Get(v: Value, path: seq<string>): (r: Read)
    ensures path == [] ==> r == Found(v)
    ensures path != [] && v.Null? ==> r == Thrown
    ensures path != [] && r.Found? ==> IsContainer(v)
    ensures path != [] && (v.Str? || v.Bool?) ==> r == if |path| == 1 then Undefined else Thrown
    decreases |path|
  {
    if path == [] then Found(v)
    else
      match Child(v, path[0])
      case Found(c) => Get(c, path[1..])
      case Undefined => if |path| == 1 then Undefined else Thrown
      case Thrown => Thrown
  }

  /** Reading a path one segment further is one more step of the walk. */
  lemma {:induction false} GetSnoc(v: Value, path: seq<string>, key: string)
    ensures Get(v, path + [key]) == Step(Get(v, path), key)
    decreases |path|
  {
    if path != [] {
      assert (path + [key])[0] == path[0];
      assert (path + [key])[1..] == path[1..] + [key];
      match Child(v, path[0])
      case Found(c) => GetSnoc(c, path[1..], key);
      case Undefined =>
      case Thrown =>
    } else {
      assert [key][1..] == [];
    }
  }

  /** The JavaScript assignment `v[key] = x` has a value-level meaning on these. */
  predicate CanPut(v: Value, key: string) {
    v.Obj? || (v.Arr? && IndexOf(key).Some? && IndexOf(key).value < |v.items|)
  }

  /** `v[key] = x`, as the value v becomes afterwards. */
  function Put(v: Value, key: string, x: Value): (r: Value)
    requires CanPut(v, key)
    ensures r.Obj? == v.Obj? && r.Arr? == v.Arr?
    ensures r.Arr? ==> |r.items| == |v.items|
    ensures Child(r, key) == Found(x)
  {
    if v.Obj? then Obj(v.fields[key := x]) else Arr(v.items[IndexOf(key).value := x])
  }

  /** An assignment to one key leaves every other key as it was. */
  lemma PutFrame(v: Value, key: string, x: Value, other: string)
    requires CanPut(v, key) && other != key
    ensures Child(Put(v, key, x), other) == Child(v, other)
  {
    if v.Arr? && IndexOf(other).Some? && IndexOf(other) == IndexOf(key) {
      IndexKeyInjective(key, other);
    }
  }

  /** Writing back the value already there changes nothing. */
  lemma PutSame(v: Value, key: string)
    requires Child(v, key).Found?
    ensures Put(v, key, Child(v, key).value) == v
  {
    if v.Arr? {
      var i := IndexOf(key).value;
      assert v.items[i := v.items[i]] == v.items;
    }
  }
}
