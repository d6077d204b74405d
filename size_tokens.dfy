/**
 * Size tokens. The order keeps each tier's size as a string ('24', '60x40',
 * 'Jiné'); the tier logic only ever compares them with `parseInt` and looks
 * them up with `indexOf`. Here a token is a small datatype, `Render` gives the
 * string the form shows, and `Value` is `parseInt` of that string.
 */
module SizeTokens {
  import opened Wrappers
  import opened Decimal

  /** A diameter or edge in cm ("24"), a rectangle "WxH" in cm ("60x40"), or the free-form sentinel "Jiné". */
  datatype SizeToken = Cm(cm: nat) | Dims(width: nat, height: nat) | Jine

  const JineText: string := "Jiné"

  /** The option string the size dropdown shows and the order stores. */
  function Render(t: SizeToken): string {
    match t
    case Cm(n) => NatToString(n)
    case Dims(w, h) => NatToString(w) + "x" + NatToString(h)
    case Jine => JineText
  }

  /** `parseInt` of the token's string: the leading number, `None` (NaN) for "Jiné". */
  function Value(t: SizeToken): Option<nat> {
    match t
    case Cm(n) => Some(n)
    case Dims(w, _) => Some(w)
    case Jine => None
  }

  /** `Value` is exactly what `parseInt` reads from the token's string. */
  lemma ValueIsParseInt(t: SizeToken)
    ensures Value(t) == ParseInt(Render(t))
  {
    match t
    case Cm(n) =>
      ParseIntOfString(n, []);
      assert NatToString(n) + [] == NatToString(n);
    case Dims(w, h) =>
      ParseIntOfString(w, "x" + NatToString(h));
      assert NatToString(w) + "x" + NatToString(h) == NatToString(w) + ("x" + NatToString(h));
    case Jine =>
  }

  /** `parseInt(a) < parseInt(b)`, which is false as soon as either side is NaN. */
  predicate Less(a: SizeToken, b: SizeToken) {
    Value(a).Some? && Value(b).Some? && Value(a).value < Value(b).value
  }

  /** Reads a token back from its string: a plain numeral, "WxH", or "Jiné". */
  function ParseToken(s: string): Option<SizeToken> {
    if s == JineText then Some(Jine)
    else
      var k := DigitPrefixLength(s);
      if k == 0 then None
      else if k == |s| then Some(Cm(DigitsValue(s)))
      else if s[k] != 'x' then None
      else
        var rest := s[k + 1..];
        var k2 := DigitPrefixLength(rest);
        if k2 == 0 || k2 != |rest| then None
        else Some(Dims(DigitsValue(s[..k]), DigitsValue(rest)))
  }

  lemma RenderRoundTrip(t: SizeToken)
    ensures ParseToken(Render(t)) == Some(t)
  {
    match t
    case Cm(n) =>
      var s := NatToString(n);
      DigitPrefixOfDigits(s, []);
      assert s + [] == s;
      assert s != JineText by { assert IsDigit(s[0]) && !IsDigit(JineText[0]); }
    case Dims(w, h) =>
      var a, b := NatToString(w), NatToString(h);
      var s := a + "x" + b;
      assert s == a + ("x" + b);
      DigitPrefixOfDigits(a, "x" + b);
      DigitPrefixOfDigits(b, []);
      assert b + [] == b;
      assert s[..|a|] == a && s[|a|] == 'x' && s[|a| + 1..] == b;
      assert s != JineText by { assert IsDigit(s[0]) && !IsDigit(JineText[0]); }
    case Jine =>
  }

  /** Distinct tokens have distinct strings, so `indexOf` on the strings agrees with token equality. */
  lemma RenderInjective(a: SizeToken, b: SizeToken)
    requires Render(a) == Render(b)
    ensures a == b
  {
    RenderRoundTrip(a);
    RenderRoundTrip(b);
  }
}
