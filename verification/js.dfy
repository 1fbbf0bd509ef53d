/** The JavaScript values the client and the route guards compare, test for
    truthiness and convert to numbers. Objects and arrays are not values of
    this type; where the source handles objects, the model gives them their
    own datatype. */
module Js {
  import opened Wrappers
  import Text
  import Seqs

  /** A JavaScript number: a finite value or `NaN` (infinities are outside
      the model). */
  datatype JsNumber = Num(value: real) | NaN

  datatype JsValue = Undefined | Null | Bool(b: bool) | Numeric(n: JsNumber) | Str(s: string)

  /** `a === b` on primitive values: `NaN` equals nothing, not even itself. */
  predicate StrictEquals(a: JsValue, b: JsValue) {
    match a
    case Numeric(x) => b.Numeric? && x.Num? && b.n.Num? && x.value == b.n.value
    case _ => a == b
  }

  /** Strict equality is the structural one except on `NaN`. */
  lemma StrictEqualsIsEquality(a: JsValue, b: JsValue)
    ensures StrictEquals(a, b) <==> a == b && a != Numeric(NaN)
  {
  }

  /** The values an `if (v)` or a `!v` treats as true. */
  predicate Truthy(v: JsValue) {
    match v
    case Undefined => false
    case Null => false
    case Bool(b) => b
    case Numeric(n) => n.Num? && n.value != 0.0
    case Str(s) => s != ""
  }

  /** `a || b` where `a` is a string that may be absent and `b` a string. */
  function OrString(a: Option<string>, b: string): (r: string)
    ensures a.Some? && a.value != "" ==> r == a.value
    ensures a.None? || a.value == "" ==> r == b
  {
    if a.Some? && a.value != "" then a.value else b
  }

  /** How a string that may be `undefined` prints inside a concatenation. */
  function Show(a: Option<string>): (r: string)
    ensures a.Some? ==> r == a.value
  {
    if a.Some? then a.value else "undefined"
  }

  /** `Number(v)`, and equally the unary `+v`. */
  function ToNumber(v: JsValue): JsNumber {
    match v
    case Undefined => NaN
    case Null => Num(0.0)
    case Bool(b) => if b then Num(1.0) else Num(0.0)
    case Numeric(n) => n
    case Str(s) => StringToNumber(s)
  }

  /** `Number(s)` for a string: surrounding ASCII white space is ignored,
      the empty string is 0, and otherwise an optionally signed decimal with
      an optional fractional part is read, as an exact real; any other text
      is `NaN`. */
  function StringToNumber(s: string): (r: JsNumber)
    ensures Text.TrimEnd(Text.TrimStart(s)) == "" ==> r == Num(0.0)
    ensures var t := Text.TrimEnd(Text.TrimStart(s));
            t != "" && Text.AllDigits(t) ==> r == Num(Text.DigitsValue(t) as real)
    ensures var t := Text.TrimEnd(Text.TrimStart(s));
            (exists i :: 0 <= i < |t| && !NumberChar(t[i])) ==> r == NaN
  {
    var t := Text.TrimEnd(Text.TrimStart(s));
    SignedDecimalRejects(t);
    DigitsReadAsDecimal(t);
    if t == "" then Num(0.0)
    else match UnsignedDecimal(Text.Unsigned(t))
      case None => NaN
      case Some(x) => if t[0] == '-' then Num(-x) else Num(x)
  }

  predicate IsDot(c: char) { c == '.' }

  /** The characters a signed decimal is written with. */
  predicate NumberChar(c: char) {
    Text.IsDigit(c) || c == '+' || c == '-' || IsDot(c)
  }

  /** Unsigned digits read as their decimal value. */
  lemma DigitsReadAsDecimal(t: string)
    ensures t != "" && Text.AllDigits(t) ==>
              && t[0] != '-' && Text.Unsigned(t) == t
              && UnsignedDecimal(t) == Some(Text.DigitsValue(t) as real)
  {
  }

  /** Text holding a character other than a digit, a sign or a point is not
      a signed decimal. */
  lemma SignedDecimalRejects(t: string)
    ensures (exists i :: 0 <= i < |t| && !NumberChar(t[i])) ==> UnsignedDecimal(Text.Unsigned(t)).None?
  {
    if exists i :: 0 <= i < |t| && !NumberChar(t[i]) {
      var i :| 0 <= i < |t| && !NumberChar(t[i]);
      if t[0] == '-' || t[0] == '+' {
        assert Text.Unsigned(t)[i - 1] == t[i];
        UnsignedDecimalRejects(Text.Unsigned(t), i - 1);
      } else {
        UnsignedDecimalRejects(Text.Unsigned(t), i);
      }
    }
  }

  /** Text holding a character that is neither a digit nor a point is not
      an unsigned decimal. */
  lemma UnsignedDecimalRejects(u: string, k: nat)
    requires k < |u| && !Text.IsDigit(u[k]) && !IsDot(u[k])
    ensures UnsignedDecimal(u).None?
  {
    match Seqs.FindIndex(u, IsDot)
    case None =>
    case Some(i) =>
      if k < i {
        assert u[..i][k] == u[k];
      } else {
        assert u[i + 1..][k - i - 1] == u[k];
      }
  }

  /** The value of `digits`, `digits.`, `.digits` or `digits.digits`. */
  function UnsignedDecimal(u: string): (r: Option<real>)
    ensures r.Some? ==> r.value >= 0.0
    ensures Text.AllDigits(u) && u != "" ==> r == Some(Text.DigitsValue(u) as real)
    ensures u == "" ==> r.None?
  {
    match Seqs.FindIndex(u, IsDot)
    case None =>
      if u != "" && Text.AllDigits(u) then Some(Text.DigitsValue(u) as real) else None
    case Some(i) =>
      var whole := u[..i];
      var frac := u[i + 1..];
      if Text.AllDigits(whole) && Text.AllDigits(frac) && (whole != "" || frac != "")
      then
        var scale := Text.Pow10(|frac|) as real;
        QuotientNonNegative(Text.DigitsValue(frac) as real, scale);
        Some(Text.DigitsValue(whole) as real + Text.DigitsValue(frac) as real / scale)
      else None
  }

  lemma QuotientNonNegative(a: real, b: real)
    requires a >= 0.0 && b > 0.0
    ensures a / b >= 0.0
  {
  }

  /** `Number` reads back every printed integer: `+String(i) === i`. */
  lemma NumberOfIntToString(i: int)
    ensures StringToNumber(Text.IntToString(i)) == Num(i as real)
  {
    if i < 0 {
      NumberOfNegative(i);
    } else {
      NumberOfNatural(i);
    }
  }

  lemma NumberOfNatural(i: int)
    requires i >= 0
    ensures StringToNumber(Text.IntToString(i)) == Num(i as real)
  {
    var d := Text.NatToString(i);
    assert Text.IntToString(i) == d;
    Text.NatToStringRoundTrip(i);
    assert UnsignedDecimal(d) == Some(i as real);
    NoSpaceInDigits(d);
    assert Text.Unsigned(d) == d;
  }

  lemma NumberOfNegative(i: int)
    requires i < 0
    ensures StringToNumber(Text.IntToString(i)) == Num(i as real)
  {
    var d := Text.NatToString(-i);
    var s := "-" + d;
    assert Text.IntToString(i) == s;
    Text.NatToStringRoundTrip(-i);
    NoSpaceInSigned(d);
    assert Text.Unsigned(s) == d;
    NegativeReading(s, d, (-i) as real);
  }

  /** A trimmed string made of a minus sign and an unsigned decimal reads as
      the negated decimal. */
  lemma NegativeReading(s: string, d: string, x: real)
    requires s != "" && s[0] == '-' && Text.TrimEnd(Text.TrimStart(s)) == s
    requires Text.Unsigned(s) == d && UnsignedDecimal(d) == Some(x)
    ensures StringToNumber(s) == Num(-x)
  {
    var t := Text.TrimEnd(Text.TrimStart(s));
    assert t == s && t != "" && t[0] == '-';
  }

  lemma NoSpaceInDigits(d: string)
    requires Text.AllDigits(d)
    ensures Text.TrimEnd(Text.TrimStart(d)) == d
  {
    assert forall k :: 0 <= k < |d| ==> !Text.IsSpace(d[k]);
    NoSpaceTrims(d);
  }

  lemma NoSpaceTrims(s: string)
    requires forall k :: 0 <= k < |s| ==> !Text.IsSpace(s[k])
    ensures Text.TrimEnd(Text.TrimStart(s)) == s
  {
    assert Text.TrimStart(s) == s;
  }

  lemma NoSpaceInSigned(d: string)
    requires Text.AllDigits(d)
    ensures Text.TrimEnd(Text.TrimStart("-" + d)) == "-" + d
  {
    var s := "-" + d;
    forall k | 0 <= k < |s|
      ensures !Text.IsSpace(s[k])
    {
      if k > 0 {
        assert s[k] == d[k - 1];
      }
    }
    NoSpaceTrims(s);
  }
}
