/** JavaScript values as the core sees them after `response.json()`: the JSON
    value kinds plus `undefined`, which is what reading a missing property
    yields. Numbers are integers here: the core only tests them for
    truthiness, passes them through, or turns them into decimal text.

    This module gives the three pieces of JavaScript semantics the core leans
    on: truthiness and the `||` operator, property reads with optional
    chaining, strict equality on the values that can appear as ids, and the
    `String(v)` conversion that `new Error(v)` applies to its argument. */
module JsValues {

  datatype JsValue =
    | Undefined
    | Null
    | Bool(b: bool)
    | Num(n: int)
    | Str(s: string)
    | Arr(items: seq<JsValue>)
    | Obj(fields: map<string, JsValue>)

  /** JavaScript truthiness: `undefined`, `null`, `false`, `0` and `""` are
      falsy; everything else, including `{}`, `[]` and `"0"`, is truthy. */
  predicate Truthy(v: JsValue) {
    match v
    case Undefined => false
    case Null => false
    case Bool(b) => b
    case Num(n) => n != 0
    case Str(s) => s != ""
    case Arr(_) => true
    case Obj(_) => true
  }

  /** `a || b`: the left operand when it is truthy, otherwise the right one. */
  function Or(a: JsValue, b: JsValue): JsValue {
    if Truthy(a) then a else b
  }

  /** `v?.key` (and `v.key` on a non-null value): an object's own property, and
      `undefined` for a missing key or for any value that is not an object.
      None of the keys the core reads is a property of strings, arrays or
      `Object.prototype`, so non-objects have nothing to offer. */
  function Get(v: JsValue, key: string): (r: JsValue)
    ensures r != Undefined ==> v.Obj? && key in v.fields && r == v.fields[key]
    ensures v.Obj? && key in v.fields ==> r == v.fields[key]
  {
    if v.Obj? && key in v.fields then v.fields[key] else Undefined
  }

  /** No element before index `i` is truthy. */
  ghost predicate FalsyBefore(vs: seq<JsValue>, i: int)
    requires 0 <= i <= |vs|
  {
    forall j :: 0 <= j < i ==> !Truthy(vs[j])
  }

  /** A fallback chain `v0 || v1 || ... || vn`: the first truthy value wins, and
      when none is truthy the chain yields its last value. */
  function FirstTruthy(vs: seq<JsValue>): (r: JsValue)
    requires |vs| > 0
    ensures Truthy(r) <==> exists i :: 0 <= i < |vs| && Truthy(vs[i])
    ensures forall i :: 0 <= i < |vs| && Truthy(vs[i]) && FalsyBefore(vs, i) ==> r == vs[i]
    ensures FalsyBefore(vs, |vs|) ==> r == vs[|vs| - 1]
  {
    if |vs| == 1 || Truthy(vs[0]) then vs[0]
    else
      var r := FirstTruthy(vs[1..]);
      assert forall i :: 1 <= i < |vs| ==> vs[i] == vs[1..][i - 1];
      r
  }

  /** `v0 || v1 || ... || vn` exactly as JavaScript groups it: to the left. */
  function OrChain(vs: seq<JsValue>): JsValue
    requires |vs| > 0
  {
    if |vs| == 1 then vs[0] else Or(OrChain(vs[..|vs| - 1]), vs[|vs| - 1])
  }

  lemma {:induction false} FirstTruthySnoc(vs: seq<JsValue>, last: JsValue)
    requires |vs| > 0
    ensures FirstTruthy(vs + [last]) == Or(FirstTruthy(vs), last)
  {
    if |vs| == 1 {
    } else if Truthy(vs[0]) {
    } else {
      assert (vs + [last])[1..] == vs[1..] + [last];
      FirstTruthySnoc(vs[1..], last);
    }
  }

  /** The left-grouped `||` chain the source writes is the first-truthy-wins
      fallback chain. */
  lemma {:induction false} OrChainIsFirstTruthy(vs: seq<JsValue>)
    requires |vs| > 0
    ensures OrChain(vs) == FirstTruthy(vs)
  {
    if |vs| > 1 {
      var init := vs[..|vs| - 1];
      OrChainIsFirstTruthy(init);
      FirstTruthySnoc(init, vs[|vs| - 1]);
      assert init + [vs[|vs| - 1]] == vs;
    }
  }

  /** The value of a first-truthy chain is truthy only as one of its members. */
  lemma FirstTruthyPicks(vs: seq<JsValue>, r: JsValue)
    requires |vs| > 0 && r == FirstTruthy(vs)
    ensures Truthy(r) ==> exists i :: 0 <= i < |vs| && r == vs[i]
  {
    if Truthy(r) {
      var i :| 0 <= i < |vs| && Truthy(vs[i]);
      var k := FirstIndex(vs, i);
      assert r == vs[k];
    }
  }

  /** The first truthy position at or before a known truthy one. */
  function FirstIndex(vs: seq<JsValue>, i: nat): (k: nat)
    requires i < |vs| && Truthy(vs[i])
    ensures k <= i && Truthy(vs[k]) && FalsyBefore(vs, k)
  {
    if exists j :: 0 <= j < i && Truthy(vs[j]) then
      var j :| 0 <= j < i && Truthy(vs[j]);
      FirstIndex(vs, j)
    else i
  }

  /** `r` is what the chain `candidates || fallback` yields, stated without
      computing it: the first truthy candidate, or the fallback when there is
      none. */
  ghost predicate FallsBackTo(r: JsValue, candidates: seq<JsValue>, fallback: JsValue) {
    || (exists i :: 0 <= i < |candidates| && Truthy(candidates[i]) && FalsyBefore(candidates, i) && r == candidates[i])
    || (FalsyBefore(candidates, |candidates|) && r == fallback)
  }

  lemma {:induction false} ChainFallsBack(candidates: seq<JsValue>, fallback: JsValue)
    ensures FallsBackTo(FirstTruthy(candidates + [fallback]), candidates, fallback)
  {
    var vs := candidates + [fallback];
    var r := FirstTruthy(vs);
    if exists i :: 0 <= i < |candidates| && Truthy(candidates[i]) {
      var i :| 0 <= i < |candidates| && Truthy(candidates[i]);
      var k := FirstIndex(candidates, i);
      assert vs[k] == candidates[k];
      assert FalsyBefore(vs, k);
    } else {
      assert FalsyBefore(vs, |candidates|);
    }
  }

  /** `c0 || c1 || ... || fallback`, the shape of every field's chain. */
  function Fallback(candidates: seq<JsValue>, fallback: JsValue): (r: JsValue)
    ensures FallsBackTo(r, candidates, fallback)
    ensures Truthy(r) || r == fallback
    ensures Truthy(fallback) ==> Truthy(r)
  {
    ChainFallsBack(candidates, fallback);
    FirstTruthy(candidates + [fallback])
  }

  /** `a === b` for the values that reach an `===`: primitives compare by value,
      while arrays and objects compare by reference, and two values produced by
      separate JSON parses are never the same reference. */
  predicate StrictEquals(a: JsValue, b: JsValue) {
    match (a, b)
    case (Undefined, Undefined) => true
    case (Null, Null) => true
    case (Bool(x), Bool(y)) => x == y
    case (Num(x), Num(y)) => x == y
    case (Str(x), Str(y)) => x == y
    case _ => false
  }

  lemma StrictEqualsSymmetric(a: JsValue, b: JsValue)
    ensures StrictEquals(a, b) == StrictEquals(b, a)
  {
  }

  lemma StrictEqualsTransitive(a: JsValue, b: JsValue, c: JsValue)
    requires StrictEquals(a, b) && StrictEquals(b, c)
    ensures StrictEquals(a, c)
  {
  }

  /** `===` agrees with equality of the modelled values, except that arrays and
      objects are never identical to anything. */
  lemma {:induction false} StrictEqualsMeansEqual(a: JsValue, b: JsValue)
    ensures StrictEquals(a, b) <==> a == b && !a.Arr? && !a.Obj?
  {
    match a
    case Bool(_) =>
    case Num(_) =>
    case Str(_) =>
    case _ =>
  }

  // ---- decimal text, as `String(n)` renders an integer ----

  function DigitChar(d: nat): (c: char)
    requires d < 10
    ensures '0' <= c <= '9' && c as int - '0' as int == d
  {
    "0123456789"[d]
  }

  predicate IsDigit(c: char) {
    '0' <= c <= '9'
  }

  /** Decimal digits of a natural number, most significant first, without
      leading zeros. */
  function NatToDecimal(n: nat): (s: string)
    ensures |s| > 0 && forall i :: 0 <= i < |s| ==> IsDigit(s[i])
    ensures |s| > 1 ==> s[0] != '0'
  {
    if n < 10 then [DigitChar(n)]
    else NatToDecimal(n / 10) + [DigitChar(n % 10)]
  }

  /** `String(n)` for an integer: an optional minus sign, then the digits. */
  function IntToDecimal(n: int): (s: string)
    ensures |s| > 0
  {
    if n < 0 then "-" + NatToDecimal(-n) else NatToDecimal(n)
  }

  /** The number a string of decimal digits denotes: the independent reading
      that decimal rendering must agree with. */
  function DecimalValue(s: string): nat
    requires forall i :: 0 <= i < |s| ==> IsDigit(s[i])
  {
    if s == [] then 0
    else
      assert IsDigit(s[|s| - 1]);
      DecimalValue(s[..|s| - 1]) * 10 + (s[|s| - 1] as int - '0' as int)
  }

  /** Rendering a natural number in decimal loses nothing. */
  lemma {:induction false} DecimalRoundTrip(n: nat)
    ensures DecimalValue(NatToDecimal(n)) == n
  {
    var s := NatToDecimal(n);
    if n >= 10 {
      DecimalRoundTrip(n / 10);
      assert s[..|s| - 1] == NatToDecimal(n / 10);
    }
  }

  /** Different numbers render differently, so a timestamp-based id tells
      timestamps apart. */
  lemma DecimalInjective(m: nat, n: nat)
    requires NatToDecimal(m) == NatToDecimal(n)
    ensures m == n
  {
    DecimalRoundTrip(m);
    DecimalRoundTrip(n);
  }

  // ---- String(v) ----

  /** `String(v)`, the conversion `new Error(v)` applies to its message. An
      array renders as its elements joined by commas, with `null` and
      `undefined` elements as empty text; an object renders through the
      default `Object.prototype.toString`. */
  function ToJsString(v: JsValue): string {
    match v
    case Undefined => "undefined"
    case Null => "null"
    case Bool(b) => if b then "true" else "false"
    case Num(n) => IntToDecimal(n)
    case Str(s) => s
    case Arr(items) =>
      // Array.prototype.join renders null and undefined elements as empty text
      Join(seq(|items|, i requires 0 <= i < |items| =>
        if items[i].Undefined? || items[i].Null? then "" else ToJsString(items[i])))
    case Obj(_) => "[object Object]"
  }

  function Join(parts: seq<string>): string {
    if |parts| == 0 then ""
    else if |parts| == 1 then parts[0]
    else parts[0] + "," + Join(parts[1..])
  }

  /** Only strings and arrays can render as empty text; a truthy value renders
      empty only when it is an array whose elements all render empty. */
  lemma {:induction false} ToJsStringEmpty(v: JsValue)
    requires ToJsString(v) == ""
    ensures v.Str? || v.Arr?
    ensures v.Str? ==> !Truthy(v)
  {
  }
}
