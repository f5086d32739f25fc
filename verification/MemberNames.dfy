/** Spellings of compact groups: a declaration `base<count>` stands for `base0`, `base1`, ... */
module MemberNames {
  import opened Common

  predicate IsDigit(c: char) {
    '0' <= c <= '9'
  }

  predicate AllDigits(s: string) {
    forall i :: 0 <= i < |s| ==> IsDigit(s[i])
  }

  function DecimalValue(s: string): nat
    requires AllDigits(s)
  {
    if s == [] then 0 else 10 * DecimalValue(s[..|s| - 1]) + (s[|s| - 1] as int - '0' as int)
  }

  function DigitChar(d: nat): (c: char)
    requires d < 10
    ensures IsDigit(c) && c as int - '0' as int == d
  {
    ('0' as int + d) as char
  }

  /** The canonical decimal spelling of a member number. */
  function Decimal(n: nat): string {
    if n < 10 then [DigitChar(n)] else Decimal(n / 10) + [DigitChar(n % 10)]
  }

  /** No leading zero, except in "0" itself. */
  predicate CanonicalDigits(s: string) {
    s != [] && AllDigits(s) && (|s| > 1 ==> s[0] != '0')
  }

  /** The table's parse of one member number: `base` followed by at most ten canonical digits below 2^32. */
  function ParseParameterizedIndex(base: string, name: string): Option<u32> {
    if |base| >= |name| || |name| - |base| > 10 || !(base <= name) then
      None
    else
      var suffix := name[|base|..];
      if |suffix| > 1 && suffix[0] == '0' then None
      else if !AllDigits(suffix) then None
      else if DecimalValue(suffix) >= 0x1_0000_0000 then None
      else Some(DecimalValue(suffix))
  }

  predicate ParameterizedNameContains(base: string, count: u32, name: string) {
    var index := ParseParameterizedIndex(base, name);
    index.Some? && index.value < count
  }

  /** What one declaration contributes to a scope: a spelling, or a base with a member count. */
  datatype DeclaredName = DeclaredName(name: string, count: Option<u32>)

  /** The table's overlap test between a stored declaration and a candidate. */
  predicate SymbolNameSetsOverlap(existing: DeclaredName, candidate: DeclaredName) {
    if existing.count.None? then
      if candidate.count.None? then existing.name == candidate.name
      else ParameterizedNameContains(candidate.name, candidate.count.value, existing.name)
    else if candidate.count.None? then
      ParameterizedNameContains(existing.name, existing.count.value, candidate.name)
    else if existing.count.value == 0 || candidate.count.value == 0 then
      false
    else
      || ParameterizedNameContains(existing.name, existing.count.value, candidate.name + "0")
      || ParameterizedNameContains(candidate.name, candidate.count.value, existing.name + "0")
  }

  /** The meaning of a declared name: the set of spellings it stands for, group members written out. */
  ghost predicate Spells(d: DeclaredName, spelling: string) {
    match d.count
    case None => spelling == d.name
    case Some(c) => exists i: nat :: i < c && spelling == d.name + Decimal(i)
  }

  ghost predicate ShareSpelling(x: DeclaredName, y: DeclaredName) {
    exists s :: Spells(x, s) && Spells(y, s)
  }

  // ---- decimal numerals -------------------------------------------------------------------------

  lemma {:induction false} DecimalCanonical(n: nat)
    ensures CanonicalDigits(Decimal(n)) && DecimalValue(Decimal(n)) == n
    ensures n > 0 ==> Decimal(n)[0] != '0'
  {
    if n >= 10 {
      DecimalCanonical(n / 10);
      assert Decimal(n)[..|Decimal(n)| - 1] == Decimal(n / 10);
    } else {
      assert Decimal(n)[..0] == [];
    }
  }

  lemma {:induction false} CanonicalIsDecimal(s: string)
    requires CanonicalDigits(s)
    ensures s == Decimal(DecimalValue(s))
    ensures s[0] != '0' ==> DecimalValue(s) > 0
  {
    var init := s[..|s| - 1];
    if init != [] {
      CanonicalIsDecimal(init);
      assert s == init + [s[|s| - 1]];
    } else {
      assert DecimalValue(init) == 0;
    }
  }

  function Pow10(k: nat): nat {
    if k == 0 then 1 else 10 * Pow10(k - 1)
  }

  lemma {:induction false} DecimalLength(n: nat, k: nat)
    requires k > 0 && n < Pow10(k)
    ensures |Decimal(n)| <= k
  {
    if n >= 10 {
      DecimalLength(n / 10, k - 1);
    }
  }

  /** The index parse accepts exactly the canonical spellings of 32-bit member numbers. */
  lemma ParseParameterizedIndexExact(base: string, name: string, i: u32)
    ensures ParseParameterizedIndex(base, name) == Some(i) <==> name == base + Decimal(i)
  {
    DecimalCanonical(i);
    if name == base + Decimal(i) {
      assert Pow10(10) == 10_000_000_000 by {
        assert Pow10(5) == 100_000;
      }
      DecimalLength(i, 10);
      assert name[|base|..] == Decimal(i);
    }
    if ParseParameterizedIndex(base, name) == Some(i) {
      CanonicalIsDecimal(name[|base|..]);
      assert name == base + name[|base|..];
    }
  }

  /** Membership in a group, as the index parse decides it, is membership in the written-out group. */
  lemma ContainsExact(base: string, count: u32, name: string)
    ensures ParameterizedNameContains(base, count, name) <==> Spells(DeclaredName(base, Some(count)), name)
  {
    if ParameterizedNameContains(base, count, name) {
      ParseParameterizedIndexExact(base, name, ParseParameterizedIndex(base, name).value);
    }
    if i: nat :| i < count && name == base + Decimal(i) {
      ParseParameterizedIndexExact(base, name, i);
    }
  }

  // ---- the first-member theorem -----------------------------------------------------------------

  /** Cutting digits off the end of a numeral never makes it larger. */
  lemma {:induction false} PrefixValue(s: string, k: nat)
    requires AllDigits(s) && k < |s|
    ensures 10 * DecimalValue(s[..k]) <= DecimalValue(s)
  {
    var init := s[..|s| - 1];
    if k < |init| {
      PrefixValue(init, k);
      assert init[..k] == s[..k];
    } else {
      assert init == s[..k];
    }
  }

  /** Replacing the last digits of a numeral by a single zero gives a numeral that is no larger. */
  lemma ZeroedNumeral(s: string, k: nat) returns (f: nat)
    requires CanonicalDigits(s) && 0 < k < |s|
    ensures f <= DecimalValue(s) && Decimal(f) == s[..k] + "0"
  {
    var z := s[..k] + "0";
    assert CanonicalDigits(z);
    CanonicalIsDecimal(z);
    f := DecimalValue(z);
    assert z[..|z| - 1] == s[..k];
    PrefixValue(s, k);
  }

  /** Two bases that spell the same member differ by a prefix of the shorter base's digits. */
  lemma BasesDifferByDigits(a: string, digits: string, b: string, tail: string)
    requires |a| <= |b| && tail != [] && a + digits == b + tail
    ensures |b| - |a| < |digits| && b == a + digits[..|b| - |a|]
  {
    var spelling := a + digits;
    assert b == spelling[..|b|];
    assert |spelling| == |b| + |tail|;
  }

  /** If the longer base's group shares a spelling with the shorter base's, its first member already does. */
  lemma LongerBaseFirstMember(a: string, i: u32, b: string, j: u32) returns (f: nat)
    requires |a| <= |b| && a + Decimal(i) == b + Decimal(j)
    ensures f <= i && b + "0" == a + Decimal(f)
  {
    DecimalCanonical(i);
    DecimalCanonical(j);
    var digits, k := Decimal(i), |b| - |a|;
    BasesDifferByDigits(a, digits, b, Decimal(j));
    if k == 0 {
      f := 0;
    } else {
      f := ZeroedNumeral(digits, k);
      assert b + "0" == a + (digits[..k] + "0");
    }
  }

  /** One group's first member spelled inside the other is a shared spelling, and conversely. */
  lemma FirstMemberTheorem(a: string, n: u32, b: string, m: u32)
    requires n > 0 && m > 0
    ensures ShareSpelling(DeclaredName(a, Some(n)), DeclaredName(b, Some(m)))
       <==> || Spells(DeclaredName(a, Some(n)), b + "0")
            || Spells(DeclaredName(b, Some(m)), a + "0")
  {
    var x, y := DeclaredName(a, Some(n)), DeclaredName(b, Some(m));
    assert Decimal(0) == "0";
    assert Spells(x, a + "0") && Spells(y, b + "0");
    if ShareSpelling(x, y) {
      var s :| Spells(x, s) && Spells(y, s);
      var i: nat :| i < n && s == a + Decimal(i);
      var j: nat :| j < m && s == b + Decimal(j);
      if |a| <= |b| {
        var f := LongerBaseFirstMember(a, i, b, j);
      } else {
        var f := LongerBaseFirstMember(b, j, a, i);
      }
    }
  }

  /** The table's overlap test decides whether two declarations really share a spelling. */
  lemma OverlapIsSharedSpelling(x: DeclaredName, y: DeclaredName)
    ensures SymbolNameSetsOverlap(x, y) <==> ShareSpelling(x, y)
  {
    match (x.count, y.count) {
      case (None, None) =>
        assert Spells(x, x.name);
      case (None, Some(m)) =>
        assert Spells(x, x.name);
        ContainsExact(y.name, m, x.name);
      case (Some(n), None) =>
        assert Spells(y, y.name);
        ContainsExact(x.name, n, y.name);
      case (Some(n), Some(m)) =>
        ContainsExact(x.name, n, y.name + "0");
        ContainsExact(y.name, m, x.name + "0");
        if n > 0 && m > 0 {
          FirstMemberTheorem(x.name, n, y.name, m);
        }
    }
  }
}
