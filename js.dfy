/**
 * JavaScript values and the array/string built-ins the React pages use:
 * truthiness, `String(v)`, `toLowerCase`, `includes`, `filter`, and the
 * `isNaN(x) || x <= 0` test on form values.
 */
module Js {
  import opened Wrappers
  import Php

  /**
   * A JS value. Numbers are integral here; NaN and fractions are not values
   * of this type. An object is known only by its identity (`Ref`), which is
   * what `===` compares.
   */
  datatype JsVal = Undefined | Null | Bool(b: bool) | Num(n: int) | Str(s: string) | Ref(id: nat)

  /** A plain object: property name to value. */
  type Obj = map<string, JsVal>

  /** `o[k]`, which reads a missing property as undefined. */
  function Prop(o: Obj, k: string): JsVal
  {
    if k in o then o[k] else Undefined
  }

  /** JS truthiness: unlike PHP, the string "0" is truthy. */
  predicate Truthy(v: JsVal)
  {
    match v
    case Undefined => false
    case Null => false
    case Bool(b) => b
    case Num(n) => n != 0
    case Str(s) => s != ""
    case Ref(_) => true
  }

  /** `a || b` on values. */
  function Or(a: JsVal, b: JsVal): (r: JsVal)
    ensures Truthy(a) ==> r == a
    ensures !Truthy(a) ==> r == b
  {
    if Truthy(a) then a else b
  }

  /** `String(v)`, the coercion `RegExp.prototype.test` applies to its argument. */
  function ToString(v: JsVal): string
  {
    match v
    case Undefined => "undefined"
    case Null => "null"
    case Bool(b) => if b then "true" else "false"
    case Num(n) => Php.IntToString(n)
    case Str(s) => s
    case Ref(_) => "[object Object]"
  }

  /** `toLowerCase` restricted to ASCII letters. */
  function LowerChar(c: char): char
  {
    if 'A' <= c <= 'Z' then ((c as int) + 32) as char else c
  }

  function ToLower(s: string): (r: string)
    ensures |r| == |s| && forall i | 0 <= i < |s| :: r[i] == LowerChar(s[i])
  {
    if |s| == 0 then "" else [LowerChar(s[0])] + ToLower(s[1..])
  }

  predicate StartsWith(s: string, prefix: string)
  {
    |prefix| <= |s| && s[..|prefix|] == prefix
  }

  /** `hay.includes(needle)`: the needle occurs at some offset. */
  predicate Includes(hay: string, needle: string)
    decreases |hay|
  {
    StartsWith(hay, needle) || (|hay| > 0 && Includes(hay[1..], needle))
  }

  /** Every string includes the empty string. */
  lemma IncludesEmpty(hay: string)
    ensures Includes(hay, "")
  {
  }

  /** `needle` occurs in `hay` starting at offset `i`. */
  predicate OccursAt(hay: string, needle: string, i: int)
  {
    0 <= i <= |hay| - |needle| && hay[i..i + |needle|] == needle
  }

  /** `includes` holds exactly when the needle occurs at some offset. */
  lemma {:induction false} IncludesAt(hay: string, needle: string)
    ensures Includes(hay, needle) <==> exists i :: OccursAt(hay, needle, i)
    decreases |hay|
  {
    if StartsWith(hay, needle) {
      assert OccursAt(hay, needle, 0);
    }
    if |hay| > 0 {
      IncludesAt(hay[1..], needle);
      if Includes(hay[1..], needle) {
        var i :| OccursAt(hay[1..], needle, i);
        assert hay[i + 1..i + 1 + |needle|] == hay[1..][i..i + |needle|];
        assert OccursAt(hay, needle, i + 1);
      }
      if exists i :: OccursAt(hay, needle, i) {
        var i :| OccursAt(hay, needle, i);
        if i > 0 {
          assert hay[1..][i - 1..i - 1 + |needle|] == hay[i..i + |needle|];
          assert OccursAt(hay[1..], needle, i - 1);
        }
      }
    } else {
      if exists i :: OccursAt(hay, needle, i) {
        var i :| OccursAt(hay, needle, i);
        assert needle == [] && StartsWith(hay, needle);
      }
    }
  }

  // ----- Number(v) for the `isNaN(v) || v <= 0` checks -----

  /** `D+`, `D+.D*` or `.D+`: a decimal numeral without sign or exponent. */
  predicate IsDecimalBody(b: string)
  {
    && (exists i | 0 <= i < |b| :: Php.IsDigit(b[i]))
    && (forall i | 0 <= i < |b| :: Php.IsDigit(b[i]) || b[i] == '.')
    && (forall i, j | 0 <= i < j < |b| :: !(b[i] == '.' && b[j] == '.'))
  }

  predicate AllZeroDigits(b: string)
  {
    forall i | 0 <= i < |b| :: b[i] == '0' || b[i] == '.'
  }

  /**
   * The sign (-1, 0 or 1) of `Number(s)` for an optionally signed decimal
   * numeral, `Some(0)` for the empty string, `None` (NaN) otherwise.
   */
  function DecimalSign(s: string): (r: Option<int>)
    ensures r.Some? ==> -1 <= r.value <= 1
  {
    if |s| == 0 then Some(0)
    else if s[0] == '-' || s[0] == '+' then
      if !IsDecimalBody(s[1..]) then None
      else if AllZeroDigits(s[1..]) then Some(0)
      else if s[0] == '-' then Some(-1) else Some(1)
    else if !IsDecimalBody(s) then None
    else if AllZeroDigits(s) then Some(0)
    else Some(1)
  }

  /** The sign of `Number(v)`, `None` when it is NaN. */
  function NumberSign(v: JsVal): (r: Option<int>)
    ensures r.Some? ==> -1 <= r.value <= 1
  {
    match v
    case Undefined => None
    case Null => Some(0)
    case Bool(b) => Some(if b then 1 else 0)
    case Num(n) => Some(if n > 0 then 1 else if n < 0 then -1 else 0)
    case Str(s) => DecimalSign(s)
    case Ref(_) => None
  }

  /** The negation of `isNaN(v) || v <= 0`. */
  predicate IsPositiveNumber(v: JsVal)
  {
    NumberSign(v) == Some(1)
  }
}
