/** How integers are spelled, and that the decoder reads every spelling and nothing else. */
module IntegerSpellings {
  import opened Common
  import opened IntegerMagnitude

  /** A character that stands for the digit `d`, in either case. */
  predicate StandsFor(c: char, d: nat) {
    d < 16 && (c == "0123456789abcdef"[d] || c == "0123456789ABCDEF"[d])
  }

  /** The characters stand for these digits, all of them below the radix. */
  ghost predicate SpellsDigits(s: string, ds: seq<nat>, radix: nat) {
    |s| == |ds| && forall i :: 0 <= i < |ds| ==> ds[i] < radix && StandsFor(s[i], ds[i])
  }

  /** The number that digits come to, the most significant one first. */
  function ValueOf(ds: seq<nat>, radix: nat): nat {
    if ds == [] then 0 else ds[|ds| - 1] + radix * ValueOf(ds[..|ds| - 1], radix)
  }

  /** Which prefix goes with which radix; a leading zero makes an octal spelling. */
  predicate Prefixes(prefix: string, radix: nat, first: nat) {
    match radix
    case 2 => prefix == "0b" || prefix == "0B"
    case 8 => prefix == "" && first == 0
    case 10 => prefix == "" && first != 0
    case 16 => prefix == "0x" || prefix == "0X"
    case _ => false
  }

  /** The text is a prefix, one or more digits of its radix and perhaps a `u`. */
  ghost predicate SpelledAs(text: string, prefix: string, digits: string, ds: seq<nat>, radix: nat, suffix: string) {
    && text == prefix + digits + suffix && (suffix == "" || suffix == "u" || suffix == "U")
    && ds != [] && Prefixes(prefix, radix, ds[0]) && SpellsDigits(digits, ds, radix)
  }

  /** The text spells `v` in some way. */
  ghost predicate Denotes(text: string, v: nat) {
    exists prefix: string, digits: string, ds: seq<nat>, radix: nat, suffix: string ::
      SpelledAs(text, prefix, digits, ds, radix, suffix) && ValueOf(ds, radix) == v
  }

  // ---- digits -----------------------------------------------------------------------------------

  lemma DigitIsSpelled(c: char, d: nat)
    ensures DigitValue(c) == Some(d) <==> StandsFor(c, d)
  {
    if d < 16 {
      assert d == 0 || d == 1 || d == 2 || d == 3 || d == 4 || d == 5 || d == 6 || d == 7 || d == 8 || d == 9 || d == 10
        || d == 11 || d == 12 || d == 13 || d == 14 || d == 15;
    }
  }

  /** The digits of a numeral. */
  function DigitsOf(s: string, radix: nat): (ds: seq<nat>)
    requires AllDigitsOf(s, radix)
    ensures |ds| == |s|
  {
    seq(|s|, i requires 0 <= i < |s| && IsDigitOf(s[i], radix) => DigitValue(s[i]).value)
  }

  lemma {:induction false} NumeralIs(s: string, ds: seq<nat>, radix: nat)
    requires SpellsDigits(s, ds, radix)
    ensures AllDigitsOf(s, radix) && NumeralValue(s, radix) == ValueOf(ds, radix)
    decreases |s|
  {
    hide StandsFor;
    forall i | 0 <= i < |s| ensures IsDigitOf(s[i], radix) && DigitValue(s[i]) == Some(ds[i]) {
      DigitIsSpelled(s[i], ds[i]);
    }
    if s != [] {
      NumeralIs(s[..|s| - 1], ds[..|ds| - 1], radix);
    }
  }

  lemma DigitsSpell(s: string, radix: nat)
    requires AllDigitsOf(s, radix)
    ensures SpellsDigits(s, DigitsOf(s, radix), radix)
  {
    hide StandsFor;
    forall i | 0 <= i < |s| ensures DigitsOf(s, radix)[i] < radix && StandsFor(s[i], DigitsOf(s, radix)[i]) {
      assert IsDigitOf(s[i], radix);
      DigitIsSpelled(s[i], DigitValue(s[i]).value);
    }
  }

  lemma DigitCharacters(c: char, d: nat)
    requires StandsFor(c, d)
    ensures c != 'u' && c != 'U' && c != 'x' && c != 'X'
    ensures d < 10 ==> c != 'b' && c != 'B'
    ensures c == '0' <==> d == 0
  {
    DigitIsSpelled(c, d);
  }

  /** What a spelling is made of is what the decoder takes it apart into. */
  lemma SpellingTaken(text: string, prefix: string, digits: string, ds: seq<nat>, radix: nat, suffix: string)
    requires SpelledAs(text, prefix, digits, ds, radix, suffix)
    ensures var body := Unsuffixed(text); body == prefix + digits && body != [] && Radix(body) == radix && Digits(body) == digits
  {
    hide StandsFor;
    var body, n := prefix + digits, |digits|;
    DigitCharacters(digits[n - 1], ds[n - 1]);
    DigitCharacters(digits[0], ds[0]);
    if n > 1 {
      DigitCharacters(digits[1], ds[1]);
    }
    assert body[|body| - 1] == digits[n - 1];
    assert Unsuffixed(text) == body by {
      if suffix == "" {
        assert text == body;
      } else {
        assert text[..|text| - 1] == body;
      }
    }
    assert |prefix| == 2 ==> body[2..] == digits && body[0] == prefix[0] && body[1] == prefix[1];
    assert prefix == [] ==> body == digits;
  }

  /** The decoder accepts exactly the spellings of 64-bit magnitudes, in either case and with any leading zeros. */
  lemma MagnitudeIsSpelled(text: string, v: nat)
    ensures Magnitude(text) == Some(v) <==> Denotes(text, v) && v < 0x1_0000_0000_0000_0000
  {
    hide StandsFor, NumeralValue, ValueOf, SpellsDigits, Radix, Digits, Unsuffixed;
    if prefix: string, digits: string, ds: seq<nat>, radix: nat, suffix: string
       :| SpelledAs(text, prefix, digits, ds, radix, suffix) && ValueOf(ds, radix) == v
    {
      SpellingTaken(text, prefix, digits, ds, radix, suffix);
      NumeralIs(digits, ds, radix);
      assert digits != [] by { SameLength(digits, ds, radix); }
    }
    if Magnitude(text) == Some(v) {
      DecodedIsSpelled(text, v);
    }
  }

  lemma SameLength(s: string, ds: seq<nat>, radix: nat)
    requires SpellsDigits(s, ds, radix)
    ensures |s| == |ds|
  {
  }

  lemma DecodedIsSpelled(text: string, v: nat)
    requires Magnitude(text) == Some(v)
    ensures Denotes(text, v)
  {
    hide StandsFor, NumeralValue, ValueOf;
    var body := Unsuffixed(text);
    var radix, digits := Radix(body), Digits(body);
    var ds := DigitsOf(digits, radix);
    DigitsSpell(digits, radix);
    NumeralIs(digits, ds, radix);
    DigitCharacters(digits[0], ds[0]);
    var prefix := if radix == 16 || radix == 2 then body[..2] else [];
    var suffix := text[|body|..];
    assert body == prefix + digits;
    assert text == body + suffix;
    assert prefix == [] || prefix == [body[0], body[1]];
    assert SpelledAs(text, prefix, digits, ds, radix, suffix);
  }

  /** No text spells two numbers. */
  lemma DenotesOne(text: string, v: nat, w: nat)
    requires Denotes(text, v) && Denotes(text, w)
    ensures v == w
  {
    hide StandsFor, NumeralValue, ValueOf, SpellsDigits, Radix, Digits, Unsuffixed;
    var p1: string, s1: string, d1: seq<nat>, r1: nat, x1: string :| SpelledAs(text, p1, s1, d1, r1, x1) && ValueOf(d1, r1) == v;
    var p2: string, s2: string, d2: seq<nat>, r2: nat, x2: string :| SpelledAs(text, p2, s2, d2, r2, x2) && ValueOf(d2, r2) == w;
    SpellingTaken(text, p1, s1, d1, r1, x1);
    SpellingTaken(text, p2, s2, d2, r2, x2);
    NumeralIs(s1, d1, r1);
    NumeralIs(s2, d2, r2);
  }
}
