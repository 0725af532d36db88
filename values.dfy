/** Option, map lookup, and the scalar values that the importer hands to
    `format('%s', …)` when it writes a patch statement or a Redmine request. */
module Values {

  datatype Option<+T> = None | Some(value: T) {
    function GetOr(default: T): T
    {
      match this
      case Some(v) => v
      case None => default
    }
  }

  /** `hash[key]` in Ruby: nil when the key is absent. */
  function Lookup<K, V>(m: map<K, V>, k: K): (r: Option<V>)
    ensures r.Some? <==> k in m
    ensures r.Some? ==> r.value == m[k]
  {
    if k in m then Some(m[k]) else None
  }

  /** A Ruby scalar as it reaches a `%s` placeholder: nil, an Integer, a
      String, or a Float that was rounded to two decimals (held here as a
      whole number of hundredths). */
  datatype Value = Nil | Int(i: int) | Str(s: string) | Hundredths(h: nat)

  /** Ruby truthiness: only nil (and false, which never reaches the builder)
      is falsy; 0 is truthy. */
  predicate Truthy(v: Value)
  {
    !v.Nil?
  }

  function OfOption(o: Option<int>): (v: Value)
    ensures o.None? <==> v == Nil
    ensures o.Some? ==> v == Int(o.value)
  {
    match o
    case Some(i) => Int(i)
    case None => Nil
  }

  predicate IsDigit(c: char)
  {
    '0' <= c <= '9'
  }

  function Digit(d: nat): (c: char)
    requires d < 10
    ensures IsDigit(c) && (c as int) - ('0' as int) == d
  {
    (('0' as int) + d) as char
  }

  function DigitValue(c: char): nat
    requires IsDigit(c)
  {
    (c as int) - ('0' as int)
  }

  /** Decimal rendering of a natural number, as Integer#to_s does it. */
  function NatToString(n: nat): (s: string)
    ensures 1 <= |s|
    ensures forall i :: 0 <= i < |s| ==> IsDigit(s[i])
    ensures |s| > 1 ==> s[0] != '0'
  {
    if n < 10 then [Digit(n)] else NatToString(n / 10) + [Digit(n % 10)]
  }

  /** Reads a string of decimal digits back as a number. */
  function ParseNat(s: string): nat
    requires forall i :: 0 <= i < |s| ==> IsDigit(s[i])
  {
    if s == [] then 0 else 10 * ParseNat(s[..|s| - 1]) + DigitValue(s[|s| - 1])
  }

  /** The decimal rendering loses nothing: an id written into a statement
      reads back as the same id. */
  lemma {:induction false} NatToStringRoundTrip(n: nat)
    ensures ParseNat(NatToString(n)) == n
  {
    var s := NatToString(n);
    if n >= 10 {
      NatToStringRoundTrip(n / 10);
      assert s[..|s| - 1] == NatToString(n / 10);
    }
  }

  /** So two different ids never render to the same text. */
  lemma NatToStringInjective(m: nat, n: nat)
    requires NatToString(m) == NatToString(n)
    ensures m == n
  {
    NatToStringRoundTrip(m);
    NatToStringRoundTrip(n);
  }

  function IntToString(i: int): string
  {
    if i < 0 then "-" + NatToString(-i) else NatToString(i)
  }

  /** Float#to_s of a number with at most two decimals: at least one digit
      after the point, no trailing zero beyond it. */
  function Fraction(f: nat): string
    requires f < 100
  {
    if f == 0 then "0"
    else if f % 10 == 0 then [Digit(f / 10)]
    else [Digit(f / 10), Digit(f % 10)]
  }

  /** What `format('%s', v)` writes for the value `v`. */
  function ToS(v: Value): string
  {
    match v
    case Nil => ""
    case Int(i) => IntToString(i)
    case Str(s) => s
    case Hundredths(h) => NatToString(h / 100) + "." + Fraction(h % 100)
  }

  /** `(seconds.to_f / 3600).round(2)`, computed on whole seconds with the
      half-up rounding of Float#round. */
  function HoursOf(seconds: nat): (v: Value)
    ensures v.Hundredths? && 36 * v.h <= seconds + 18 < 36 * (v.h + 1)
  {
    Hundredths((seconds + 18) / 36)
  }
}
