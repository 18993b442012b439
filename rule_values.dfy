/** Rule values of the method catalogue and the settings, and the two
    routines that read them: `eval` (the number at the front of a value) and
    `isMin` (whether a value is a "<n> min" offset). */
module RuleValues {
  import opened Numbers
  import opened Decimal

  /** A setting's value as the source stores it: a number (an angle or a
      factor), a string such as "10 min", "Standard" or "Jafari", or absent. */
  datatype Value = Num(x: real) | Str(s: string) | Undefined

  /** The characters `eval` keeps: the class [0-9.+-]. */
  predicate IsNumericChar(c: char)
  {
    IsDigit(c) || c == '.' || c == '+' || c == '-'
  }

  predicate AllNumeric(s: string)
  {
    forall i :: 0 <= i < |s| ==> IsNumericChar(s[i])
  }

  /** `(v + '')` for the non-numeric values: a string is itself and an absent
      value prints as "undefined". */
  function Text(v: Value): string
    requires !v.Num?
  {
    if v.Str? then v.s else "undefined"
  }

  /** `s.split(/[^0-9.+-]/)[0]`: the characters before the first one outside
      the class, or all of `s` when there is none. */
  function NumericPrefix(s: string): (p: string)
    ensures p <= s
    ensures AllNumeric(p)
    ensures |p| < |s| ==> !IsNumericChar(s[|p|])
  {
    if s == [] || !IsNumericChar(s[0]) then [] else [s[0]] + NumericPrefix(s[1..])
  }

  /** The length of the run of decimal digits at the front of `s`. */
  function DigitRun(s: string): (n: nat)
    ensures n <= |s| && AllDigits(s[..n])
    ensures n < |s| ==> !IsDigit(s[n])
  {
    if s == [] || !IsDigit(s[0]) then 0
    else
      var n := 1 + DigitRun(s[1..]);
      assert s[..n] == [s[0]] + s[1..][..n - 1];
      n
  }

  function Pow10(k: nat): (p: nat)
    ensures p >= 1
  {
    if k == 0 then 1 else 10 * Pow10(k - 1)
  }

  /** JavaScript's unsigned decimal literal: digits with an optional fraction
      (`12`, `12.`, `12.5`, `.5`), with at least one digit; anything else is NaN. */
  function UnsignedDecimal(b: string): Number
  {
    var i := DigitRun(b);
    var whole := DigitsValue(b[..i]) as real;
    var rest := b[i..];
    if rest == [] then
      if i > 0 then Real(whole) else NaN
    else if rest[0] == '.' && AllDigits(rest[1..]) && (i > 0 || |rest| > 1) then
      Real(whole + DigitsValue(rest[1..]) as real / Pow10(|rest| - 1) as real)
    else
      NaN
  }

  /** `1 * p` (JavaScript `Number(p)`) for a string over [0-9.+-]: the empty
      string is 0, one optional sign may precede an unsigned decimal, and any
      other arrangement of the characters is NaN. */
  function ToNumber(p: string): (n: Number)
    requires AllNumeric(p)
    ensures p == [] ==> n == Real(0.0)
    ensures p != [] && IsDigit(p[0]) ==> n == UnsignedDecimal(p)
  {
    if p == [] then Real(0.0)
    else if p[0] == '+' || p[0] == '-' then
      match UnsignedDecimal(p[1..])
      case NaN => NaN
      case Real(v) => Real(if p[0] == '-' then -v else v)
    else
      UnsignedDecimal(p)
  }

  /** `eval(v)`: the number written at the front of the value. A number is
      itself; a string gives the number formed by its leading [0-9.+-]
      characters, 0 when it starts with any other character, NaN when those
      characters do not form a number. */
  function Eval(v: Value): (n: Number)
    ensures v.Num? ==> n == Real(v.x)
    ensures v.Undefined? ==> n == Real(0.0)
    ensures v.Str? && (v.s == [] || !IsNumericChar(v.s[0])) ==> n == Real(0.0)
  {
    match v
    case Num(x) => Real(x)
    case _ => ToNumber(NumericPrefix(Text(v)))
  }

  /** `pat` occurs in `s` at index `k`. */
  predicate OccursAt(s: string, pat: string, k: nat)
  {
    k + |pat| <= |s| && s[k..k + |pat|] == pat
  }

  /** `s.indexOf(pat, from)`: the first occurrence at or after `from`, or -1. */
  function IndexOf(s: string, pat: string, from: nat): (r: int)
    ensures r == -1 || (from <= r && OccursAt(s, pat, r))
    ensures r == -1 <==> forall k: nat :: from <= k ==> !OccursAt(s, pat, k)
    ensures r != -1 ==> forall k: nat :: from <= k < r ==> !OccursAt(s, pat, k)
    decreases |s| - from
  {
    if from + |pat| > |s| then -1
    else if s[from..from + |pat|] == pat then from
    else IndexOf(s, pat, from + 1)
  }

  /** `isMin(v)`: the text of the value contains "min". A number's text never does. */
  function IsMin(v: Value): (b: bool)
    ensures b <==> !v.Num? && exists k: nat :: OccursAt(Text(v), "min", k)
  {
    !v.Num? && IndexOf(Text(v), "min", 0) != -1
  }

  /** `asrFactor`: "Standard" is 1, "Hanafi" is 2, anything else is read by `eval`. */
  function AsrFactor(v: Value): (n: Number)
    ensures v == Str("Standard") ==> n == Real(1.0)
    ensures v == Str("Hanafi") ==> n == Real(2.0)
    ensures v != Str("Standard") && v != Str("Hanafi") ==> n == Eval(v)
  {
    if v == Str("Standard") then Real(1.0)
    else if v == Str("Hanafi") then Real(2.0)
    else Eval(v)
  }

  /** `eval` looks only at the leading [0-9.+-] run: whatever follows the first
      other character is ignored. */
  lemma {:induction false} EvalReadsPrefix(p: string, rest: string)
    requires AllNumeric(p)
    requires rest == [] || !IsNumericChar(rest[0])
    ensures NumericPrefix(p + rest) == p
    ensures Eval(Str(p + rest)) == ToNumber(p)
  {
    if p != [] {
      assert (p + rest)[1..] == p[1..] + rest;
      EvalReadsPrefix(p[1..], rest);
    } else {
      assert p + rest == rest;
    }
  }

  /** The decimal text of a whole number reads back as that number. */
  lemma ShowNatToNumber(n: nat)
    ensures AllNumeric(ShowNat(n)) && ToNumber(ShowNat(n)) == Real(n as real)
  {
    var s := ShowNat(n);
    assert AllNumeric(s);
    assert DigitRun(s) == |s|;
    assert s[..|s|] == s;
    ShowNatRoundTrip(n);
  }

  /** An integer's decimal text, sign included, reads back as that integer. */
  lemma ShowIntToNumber(i: int)
    ensures AllNumeric(ShowInt(i)) && ToNumber(ShowInt(i)) == Real(i as real)
  {
    var s := ShowInt(i);
    if i < 0 {
      ShowNatToNumber(-i);
      assert ToNumber(s) == Real(-((-i) as real));
    } else {
      ShowNatToNumber(i);
    }
  }

  /** Any text followed by " min" is a minute rule. */
  lemma MinSuffix(digits: string)
    ensures IsMin(Str(digits + " min"))
  {
    var s := digits + " min";
    assert s[|digits| + 1..|digits| + 4] == "min" by {
      assert s[|digits| + 1] == 'm' && s[|digits| + 2] == 'i' && s[|digits| + 3] == 'n';
    }
    assert OccursAt(s, "min", |digits| + 1);
  }

  /** A "<n> min" rule is a minute offset of exactly `n`: `isMin` holds and
      `eval` gives `n`. */
  lemma MinuteRule(n: nat)
    ensures IsMin(Str(ShowNat(n) + " min"))
    ensures Eval(Str(ShowNat(n) + " min")) == Real(n as real)
  {
    MinSuffix(ShowNat(n));
    ShowNatToNumber(n);
    EvalReadsPrefix(ShowNat(n), " min");
  }

  /** The two school names are looked up before `eval`: `eval` would read
      both as 0. Any other factor is read as a number, so a numeric factor
      and the text of a whole number give that number. */
  lemma AsrFactorLookup(x: real, n: nat)
    ensures Eval(Str("Standard")) == Real(0.0) && AsrFactor(Str("Standard")) == Real(1.0)
    ensures Eval(Str("Hanafi")) == Real(0.0) && AsrFactor(Str("Hanafi")) == Real(2.0)
    ensures AsrFactor(Num(x)) == Real(x)
    ensures AsrFactor(Str(ShowNat(n))) == Real(n as real)
  {
    var s := ShowNat(n);
    assert s != "Standard" && s != "Hanafi" by {
      assert IsDigit(s[0]);
    }
    ShowNatToNumber(n);
    EvalReadsPrefix(s, []);
    assert s + [] == s;
  }

  /** `setting[key]`, `undefined` when the key was never set. */
  function Get(setting: map<string, Value>, key: string): Value
  {
    if key in setting then setting[key] else Undefined
  }
}
