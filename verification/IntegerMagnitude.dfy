/** Decoding of non-negative PTX integer spellings into 64-bit magnitudes. */
module IntegerMagnitude {
  import opened Common

  const LIMIT: nat := 0x1_0000_0000_0000_0000

  /** The value of a digit character in any radix up to sixteen. */
  function DigitValue(c: char): Option<nat> {
    if '0' <= c <= '9' then Some(c as nat - '0' as nat)
    else if 'a' <= c <= 'f' then Some(10 + (c as nat - 'a' as nat))
    else if 'A' <= c <= 'F' then Some(10 + (c as nat - 'A' as nat))
    else None
  }

  predicate IsDigitOf(c: char, radix: nat) {
    DigitValue(c).Some? && DigitValue(c).value < radix
  }

  predicate AllDigitsOf(digits: string, radix: nat) {
    forall i :: 0 <= i < |digits| ==> IsDigitOf(digits[i], radix)
  }

  predicate IsNumeral(digits: string, radix: nat) {
    digits != [] && AllDigitsOf(digits, radix)
  }

  /** The value of a numeral, most significant digit first. */
  function NumeralValue(digits: string, radix: nat): nat
    requires AllDigitsOf(digits, radix)
  {
    if digits == [] then 0
    else
      assert IsDigitOf(digits[|digits| - 1], radix);
      NumeralValue(digits[..|digits| - 1], radix) * radix + DigitValue(digits[|digits| - 1]).value
  }

  /** Without a trailing u or U. */
  function Unsuffixed(text: string): string {
    if text != [] && (text[|text| - 1] == 'u' || text[|text| - 1] == 'U') then text[..|text| - 1] else text
  }

  predicate IsPrefixed(text: string, lower: char, upper: char) {
    |text| >= 2 && text[0] == '0' && (text[1] == lower || text[1] == upper)
  }

  function Radix(text: string): nat
    requires text != []
  {
    if IsPrefixed(text, 'x', 'X') then 16
    else if IsPrefixed(text, 'b', 'B') then 2
    else if text[0] == '0' then 8
    else 10
  }

  /** The digits that the selected radix applies to. */
  function Digits(text: string): string
    requires text != []
  {
    if Radix(text) == 16 || Radix(text) == 2 then text[2..] else text
  }

  /** The library's digit scan: digits up to the first non-digit, or nothing on overflow or no digit. */
  method FromChars(text: string, radix: nat) returns (magnitude: nat, end: nat, ok: bool)
    requires 2 <= radix <= 16
    ensures end <= |text| && AllDigitsOf(text[..end], radix)
    ensures end < |text| ==> !IsDigitOf(text[end], radix)
    ensures ok <==> end > 0 && NumeralValue(text[..end], radix) < LIMIT
    ensures ok ==> magnitude == NumeralValue(text[..end], radix)
  {
    magnitude, end := 0, 0;
    var overflow := false;
    while end < |text| && IsDigitOf(text[end], radix)
      invariant end <= |text| && AllDigitsOf(text[..end], radix)
      invariant overflow <==> NumeralValue(text[..end], radix) >= LIMIT
      invariant !overflow ==> magnitude == NumeralValue(text[..end], radix)
    {
      assert text[..end + 1][..end] == text[..end];
      var digit := DigitValue(text[end]).value;
      ValueGrows(text[..end], text[..end + 1], radix);
      if !overflow {
        magnitude := magnitude * radix + digit;
        overflow := magnitude >= LIMIT;
      }
      end := end + 1;
    }
    ok := end > 0 && !overflow;
  }

  lemma ValueGrows(digits: string, more: string, radix: nat)
    requires radix >= 2 && |more| == |digits| + 1 && digits == more[..|digits|]
    requires AllDigitsOf(more, radix)
    ensures DigitValue(more[|digits|]).Some?
    ensures NumeralValue(more, radix) == NumeralValue(digits, radix) * radix + DigitValue(more[|digits|]).value
    ensures NumeralValue(more, radix) >= NumeralValue(digits, radix)
  {
    assert IsDigitOf(more[|digits|], radix);
    Scaled(NumeralValue(digits, radix), radix);
  }

  lemma Scaled(x: nat, radix: nat)
    requires radix >= 2
    ensures x * radix >= 2 * x
  {
  }

  /** What the decoder accepts: a nonempty numeral of the selected radix whose value fits in 64 bits. */
  function Magnitude(text: string): (r: Option<nat>)
  {
    var body := Unsuffixed(text);
    if body == [] then None
    else if !IsNumeral(Digits(body), Radix(body)) then None
    else if NumeralValue(Digits(body), Radix(body)) >= LIMIT then None
    else Some(NumeralValue(Digits(body), Radix(body)))
  }

  /** Decode a magnitude by trimming the spelling step by step, then scanning its digits. */
  method ParseIntegerMagnitude(text: string) returns (r: Option<nat>)
    ensures r == Magnitude(text)
  {
    var view := text;
    if view != [] && (view[|view| - 1] == 'u' || view[|view| - 1] == 'U') {
      view := view[..|view| - 1];
    }
    if view == [] {
      return None;
    }
    var radix := Radix(view);
    if radix == 16 || radix == 2 {
      view := view[2..];
    }
    if view == [] {
      return None;
    }
    var magnitude, end, ok := FromChars(view, radix);
    if !ok || end != |view| {
      if end == |view| { assert view[..end] == view; }
      return None;
    }
    assert view[..end] == view;
    return Some(magnitude);
  }

  // ---- printing ---------------------------------------------------------------------------------

  function DigitOf(d: nat): (c: char)
    requires d < 16
    ensures DigitValue(c) == Some(d) && c != 'u' && c != 'U' && c != 'x' && c != 'X'
    ensures d < 10 ==> c != 'b' && c != 'B'
    ensures d > 0 ==> c != '0'
  {
    if d < 10 then ('0' as nat + d) as char else ('a' as nat + (d - 10)) as char
  }

  /** The numeral of `v` without leading zeros. */
  function Print(v: nat, radix: nat): string
    requires 2 <= radix <= 16
    decreases v
  {
    if v < radix then [DigitOf(v)] else PrintQuotient(v, radix); Print(v / radix, radix) + [DigitOf(v % radix)]
  }

  lemma PrintQuotient(v: nat, radix: nat)
    requires 2 <= radix <= v
    ensures v / radix < v
    ensures v / radix * radix + v % radix == v
  {
    Scaled(v / radix, radix);
  }

  /** A printed numeral has the radix's digits and nothing that reads as a prefix or suffix. */
  ghost predicate Plain(s: string, radix: nat) {
    && IsNumeral(s, radix)
    && (forall i :: 0 <= i < |s| ==> s[i] != 'u' && s[i] != 'U' && s[i] != 'x' && s[i] != 'X')
    && (radix <= 10 ==> forall i :: 0 <= i < |s| ==> s[i] != 'b' && s[i] != 'B')
  }

  lemma {:induction false} PrintIsNumeral(v: nat, radix: nat)
    requires 2 <= radix <= 16
    ensures Plain(Print(v, radix), radix) && NumeralValue(Print(v, radix), radix) == v
    ensures v > 0 ==> Print(v, radix)[0] != '0'
    decreases v
  {
    if v < radix {
      assert Print(v, radix)[..0] == [];
    } else {
      PrintQuotient(v, radix);
      PrintIsNumeral(v / radix, radix);
      AppendDigit(Print(v / radix, radix), v % radix, radix);
      QuotientPositive(v, radix);
    }
  }

  lemma QuotientPositive(v: nat, radix: nat)
    requires 2 <= radix <= v
    ensures v / radix > 0
  {
    if v / radix == 0 {
      PrintQuotient(v, radix);
    }
  }

  lemma AppendDigit(s: string, d: nat, radix: nat)
    requires 2 <= radix <= 16 && d < radix && Plain(s, radix)
    ensures Plain(s + [DigitOf(d)], radix)
    ensures NumeralValue(s + [DigitOf(d)], radix) == NumeralValue(s, radix) * radix + d
  {
    var more := s + [DigitOf(d)];
    assert more[..|s|] == s;
    assert forall i :: 0 <= i < |s| ==> IsDigitOf(s[i], radix) && more[i] == s[i];
    ValueGrows(s, more, radix);
  }

  /** The spelling of `v` in one of the four source radices. */
  function Spelling(v: nat, radix: nat): string
    requires radix in {2, 8, 10, 16}
  {
    if radix == 16 then "0x" + Print(v, 16)
    else if radix == 2 then "0b" + Print(v, 2)
    else if radix == 8 then "0" + Print(v, 8)
    else Print(v, 10)
  }

  /** A printed spelling selects its own radix and digits. */
  lemma SpellingReads(v: nat, radix: nat)
    requires radix in {2, 8, 10, 16}
    ensures var s := Spelling(v, radix);
      && s != [] && s[|s| - 1] != 'u' && s[|s| - 1] != 'U'
      && ((radix == 10 && v == 0) || Radix(s) == radix)
      && IsNumeral(Digits(s), Radix(s)) && NumeralValue(Digits(s), Radix(s)) == v
  {
    hide Print, NumeralValue;
    PrintIsNumeral(v, radix);
    var s, p := Spelling(v, radix), Print(v, radix);
    if radix == 16 || radix == 2 {
      assert s[2..] == p;
    } else if radix == 8 {
      assert s == ['0'] + p && s[1] == p[0];
      LeadingZero(p, 8);
    } else if v == 0 {
      PrintZero();
    }
  }

  lemma PrintZero()
    ensures Print(0, 10) == "0" && NumeralValue("0", 8) == 0 && NumeralValue("0", 10) == 0
  {
    assert "0"[..0] == [];
  }

  /** Decoding a printed magnitude gives it back, in every radix and with or without the suffix. */
  lemma PrintParseRoundTrip(v: nat, radix: nat, suffix: string)
    requires v < LIMIT && radix in {2, 8, 10, 16} && suffix in {"", "u", "U"}
    ensures Magnitude(Spelling(v, radix) + suffix) == Some(v)
  {
    hide Print, NumeralValue, Spelling, Radix, Digits;
    SpellingReads(v, radix);
    var s := Spelling(v, radix);
    assert Unsuffixed(s + suffix) == s;
  }

  lemma {:induction false} LeadingZero(p: string, radix: nat)
    requires AllDigitsOf(p, radix)
    requires radix > 0
    ensures AllDigitsOf(['0'] + p, radix)
    ensures NumeralValue(['0'] + p, radix) == NumeralValue(p, radix)
  {
    var z := ['0'] + p;
    if p == [] {
      assert z[..0] == [];
    } else {
      LeadingZero(p[..|p| - 1], radix);
      assert z[..|z| - 1] == ['0'] + p[..|p| - 1];
    }
  }
}
