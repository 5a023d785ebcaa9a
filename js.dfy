/**
 * The slice of JavaScript's value semantics the program relies on: values as
 * MessagePack carries them, `String(v)`, truthiness, indexing (which throws on
 * `undefined` and `null`), `for ... in` enumeration, and plain objects kept as
 * insertion-ordered entry lists.
 */
module Js {
  import opened Wrappers
  import Text

  newtype byte = x: int | 0 <= x < 256

  datatype Value =
    | Undefined
    | Null
    | Bool(b: bool)
    | Int(i: int)
    | Float(r: real)
    | NaN
    | Str(s: string)
    | Bytes(data: seq<byte>)
    | List(items: seq<Value>)
    | Map(entries: seq<(string, Value)>)

  /** A JavaScript number from a real: integral reals are integers. */
  function Number(r: real): (v: Value)
    ensures v.Int? || v.Float?
    ensures v.Int? <==> r.Floor as real == r
  {
    if r.Floor as real == r then Int(r.Floor) else Float(r)
  }

  /** Truncation toward zero. */
  function Trunc(r: real): (i: int)
    ensures r >= 0.0 ==> i as real <= r < i as real + 1.0
    ensures r < 0.0 ==> i as real - 1.0 < r <= i as real
  {
    if r >= 0.0 then r.Floor else -((-r).Floor)
  }

  /** Numbers whose `String` form is plain positional notation (no exponent). */
  predicate Positional(r: real)
  {
    var a := if r < 0.0 then -r else r;
    1.0 / 1000000.0 <= a < 1000000000000000000000.0
  }

  /**
   * `parseInt(String(v))` for the values the encoders hand it: the leading
   * integer of the text, or NaN. A fractional number in positional notation
   * reads as its integer part.
   */
  function ParseIntValue(v: Value): (r: Value)
    ensures r.Int? || r.NaN?
  {
    if v.Float? && Positional(v.r) then Int(Trunc(v.r))
    else match Text.ParseInt(Show(v))
      case None => NaN
      case Some(i) => Int(i)
  }

  /** `parseInt(String(n))` gives back any integer `n`. */
  lemma ParseIntOfInt(i: int)
    ensures ParseIntValue(Int(i)) == Int(i)
  {
    Text.ParseIntToString(i);
  }

  /**
   * `Number(v)`; `None` is NaN. Strings convert as decimal numerals
   * (`Text.StringToNumber`).
   */
  function ToNumber(v: Value): (r: Option<real>)
    ensures v.Int? ==> r == Some(v.i as real)
    ensures v.Undefined? || v.NaN? ==> r.None?
  {
    match v
      case Undefined => None
      case Null => Some(0.0)
      case Bool(b) => Some(if b then 1.0 else 0.0)
      case Int(i) => Some(i as real)
      case Float(r) => Some(r)
      case NaN => None
      case Str(s) => Text.StringToNumber(s)
      case _ => None
  }

  /** `Number(String(i))` gives back any integer `i`. */
  lemma NumberOfShownInt(i: int)
    ensures ToNumber(Str(Show(Int(i)))) == Some(i as real)
  {
    ToNumberStr(Text.IntToString(i));
    Text.IntStringNumber(i);
  }

  lemma ToNumberStr(s: string)
    ensures ToNumber(Str(s)) == Text.StringToNumber(s)
  {
  }

  /** Numerals with a fraction, leading zeros, blanks around them or an exponent convert as JavaScript converts them. */
  lemma NumeralStrings()
    ensures ToNumber(Str("1.5")) == Some(1.5)
    ensures ToNumber(Str("007")) == Some(7.0)
    ensures ToNumber(Str(" 5 ")) == Some(5.0)
    ensures ToNumber(Str("-2e2")) == Some(-200.0)
  {
    ToNumberStr("1.5");
    Text.FractionNumeral();
    ToNumberStr("007");
    Text.ZerosNumeral();
    ToNumberStr(" 5 ");
    Text.BlankNumeral();
    ToNumberStr("-2e2");
    Text.ExponentNumeral();
  }

  /** `Math.floor(v)`. */
  function Floor(v: Value): (r: Value)
    ensures r.Int? || r.NaN?
    ensures v.Int? ==> r == v
    ensures v.Float? ==> r == Int(v.r.Floor)
  {
    match ToNumber(v)
      case None => NaN
      case Some(x) => Int(x.Floor)
  }

  /** `v > n` for a number `n`: false whenever `v` converts to NaN. */
  predicate Greater(v: Value, n: real)
  {
    match ToNumber(v)
      case None => false
      case Some(x) => x > n
  }

  /** `v >= n` for a number `n`: false whenever `v` converts to NaN. */
  predicate AtLeast(v: Value, n: real)
  {
    match ToNumber(v)
      case None => false
      case Some(x) => x >= n
  }

  /** `parts[i]` on an array of strings. */
  function StrAt(parts: seq<string>, i: nat): (v: Value)
    ensures i < |parts| ==> v == Str(parts[i])
    ensures i >= |parts| ==> v == Undefined
  {
    if i < |parts| then Str(parts[i]) else Undefined
  }

  /**
   * `String(v)`. Numbers with a fractional part, buffers and arrays are
   * rendered by fixed placeholders, not as JavaScript renders them.
   */
  function Show(v: Value): string
  {
    match v
      case Undefined => "undefined"
      case Null => "null"
      case Bool(b) => if b then "true" else "false"
      case Int(i) => Text.IntToString(i)
      case Float(_) => "[number]"
      case NaN => "NaN"
      case Str(s) => s
      case Bytes(_) => "[buffer]"
      case List(_) => "[array]"
      case Map(_) => "[object Object]"
  }

  /** JavaScript truthiness. */
  predicate Truthy(v: Value)
  {
    match v
      case Undefined => false
      case Null => false
      case Bool(b) => b
      case Int(i) => i != 0
      case Float(r) => r != 0.0
      case NaN => false
      case Str(s) => s != ""
      case _ => true
  }

  /** `v[i]`; `None` is the TypeError thrown when `v` is `undefined` or `null`. */
  function Index(v: Value, i: nat): (r: Option<Value>)
    ensures r.None? <==> v.Undefined? || v.Null?
  {
    match v
      case Undefined => None
      case Null => None
      case List(items) => Some(At(items, i))
      case Map(es) => Some(Lookup(es, Text.NatToString(i)).GetOr(Undefined))
      case Str(s) => Some(if i < |s| then Str([s[i]]) else Undefined)
      case Bytes(d) => Some(if i < |d| then Int(d[i] as int) else Undefined)
      case _ => Some(Undefined)
  }

  /** `vs[i]` on an array: `undefined` past its end. */
  function At(vs: seq<Value>, i: int): (v: Value)
    ensures 0 <= i < |vs| ==> v == vs[i]
    ensures !(0 <= i < |vs|) ==> v == Undefined
  {
    if 0 <= i < |vs| then vs[i] else Undefined
  }

  /** The index-keyed entries of an array, as `for ... in` visits them. */
  function Indexed(vs: seq<Value>): (es: seq<(string, Value)>)
    ensures |es| == |vs|
    ensures forall i :: 0 <= i < |vs| ==> es[i] == (Text.NatToString(i), vs[i])
  {
    seq(|vs|, i requires 0 <= i < |vs| => (Text.NatToString(i), vs[i]))
  }

  /** The (key, value) pairs `for (k in v)` visits, in order. */
  function Entries(v: Value): (es: seq<(string, Value)>)
    ensures v.Map? ==> es == v.entries
    ensures v.List? ==> es == Indexed(v.items)
    ensures !(v.Map? || v.List? || v.Str? || v.Bytes?) ==> es == []
  {
    match v
      case Map(es) => es
      case List(items) => Indexed(items)
      case Str(s) => Indexed(seq(|s|, i requires 0 <= i < |s| => Str([s[i]])))
      case Bytes(d) => Indexed(seq(|d|, i requires 0 <= i < |d| => Int(d[i] as int)))
      case _ => []
  }

  /** The values `for (k in v)` visits, as `v[k]`. */
  function Elements(v: Value): (vs: seq<Value>)
    ensures |vs| == |Entries(v)|
    ensures forall i :: 0 <= i < |vs| ==> vs[i] == Entries(v)[i].1
    ensures v.List? ==> vs == v.items
  {
    var es := Entries(v);
    seq(|es|, i requires 0 <= i < |es| => es[i].1)
  }

  /** The keys `for (k in v)` visits. */
  function KeysOf<V>(es: seq<(string, V)>): (ks: seq<string>)
    ensures |ks| == |es|
    ensures forall i :: 0 <= i < |es| ==> ks[i] == es[i].0
  {
    if es == [] then [] else [es[0].0] + KeysOf(es[1..])
  }

  // ---------------------------------------------------------------------------
  // Plain objects as insertion-ordered entry lists

  function Lookup<V>(o: seq<(string, V)>, k: string): (r: Option<V>)
    ensures r.None? <==> k !in KeysOf(o)
    ensures r.Some? ==> (k, r.value) in o
  {
    if o == [] then None
    else if o[0].0 == k then Some(o[0].1)
    else Lookup(o[1..], k)
  }

  /** `o[k] = v`: replaces the value of an existing key in place, or appends. */
  function Assign<V>(o: seq<(string, V)>, k: string, v: V): (r: seq<(string, V)>)
    ensures Lookup(r, k) == Some(v)
    ensures forall j :: j != k ==> Lookup(r, j) == Lookup(o, j)
  {
    if o == [] then [(k, v)]
    else if o[0].0 == k then [(k, v)] + o[1..]
    else [o[0]] + Assign(o[1..], k, v)
  }

  /** Assigning keeps the key order, appending a new key at the end. */
  lemma {:induction false} AssignKeys<V>(o: seq<(string, V)>, k: string, v: V)
    ensures k in KeysOf(o) ==> KeysOf(Assign(o, k, v)) == KeysOf(o)
    ensures k !in KeysOf(o) ==> KeysOf(Assign(o, k, v)) == KeysOf(o) + [k]
  {
    if o != [] {
      var tail := o[1..];
      assert KeysOf(o) == [o[0].0] + KeysOf(tail);
      if o[0].0 != k {
        AssignKeys(tail, k, v);
        var r := Assign(tail, k, v);
        var s := [o[0]] + r;
        assert Assign(o, k, v) == s;
        assert s[1..] == r;
        assert KeysOf(s) == [o[0].0] + KeysOf(r);
        if k !in KeysOf(tail) {
          SeqAssoc([o[0].0], KeysOf(tail), [k]);
        }
      }
    }
  }

  lemma SeqAssoc<T>(a: seq<T>, b: seq<T>, c: seq<T>)
    ensures a + (b + c) == (a + b) + c
  {
  }

  /** Assigning adds the assigned entry and keeps only entries that were there. */
  lemma {:induction false} AssignEntries<V>(o: seq<(string, V)>, k: string, v: V)
    ensures (k, v) in Assign(o, k, v)
    ensures forall e :: e in Assign(o, k, v) ==> e == (k, v) || e in o
  {
    if o != [] && o[0].0 != k {
      AssignEntries(o[1..], k, v);
    }
  }

  /** Assigning a key the object does not have yet appends it. */
  lemma {:induction false} AssignFresh<V>(o: seq<(string, V)>, k: string, v: V)
    requires k !in KeysOf(o)
    ensures Assign(o, k, v) == o + [(k, v)]
  {
    if o != [] {
      var tail := o[1..];
      assert KeysOf(o) == [o[0].0] + KeysOf(tail);
      AssignFresh(tail, k, v);
      assert o == [o[0]] + tail;
      assert Assign(o, k, v) == [o[0]] + (tail + [(k, v)]);
    }
  }

  predicate DistinctKeys<V>(o: seq<(string, V)>)
  {
    forall i, j :: 0 <= i < j < |o| ==> o[i].0 != o[j].0
  }

  /** In an object with distinct keys, each key looks up its own entry. */
  lemma {:induction false} LookupAt<V>(o: seq<(string, V)>, i: nat)
    requires DistinctKeys(o) && i < |o|
    ensures Lookup(o, o[i].0) == Some(o[i].1)
  {
    if i > 0 {
      assert o[0].0 != o[i].0;
      assert DistinctKeys(o[1..]) by {
        forall a, b | 0 <= a < b < |o| - 1 ensures o[1..][a].0 != o[1..][b].0 {
          assert o[1..][a] == o[a + 1] && o[1..][b] == o[b + 1];
        }
      }
      LookupAt(o[1..], i - 1);
    }
  }

  /** `delete o[k]`. */
  function Delete<V>(o: seq<(string, V)>, k: string): (r: seq<(string, V)>)
    ensures Lookup(r, k) == None
    ensures forall j :: j != k ==> Lookup(r, j) == Lookup(o, j)
  {
    if o == [] then []
    else if o[0].0 == k then Delete(o[1..], k)
    else [o[0]] + Delete(o[1..], k)
  }
}
