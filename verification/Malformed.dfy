/** Arcs that do not parse: where the comparison of internal/snmp/oid.go stops being an order. */
module Malformed {
  import opened Order
  import opened Oid

  function Nines(k: nat): (s: string)
    ensures |s| == k
  {
    if k == 0 then "" else Nines(k - 1) + "9"
  }

  function OneAndZeros(k: nat): (s: string)
    ensures |s| == k + 1 && s[0] == '1'
  {
    if k == 0 then "1" else OneAndZeros(k - 1) + "0"
  }

  function Pow10(k: nat): nat {
    if k == 0 then 1 else 10 * Pow10(k - 1)
  }

  lemma Pow10Of19()
    ensures Pow10(19) == 10_000_000_000_000_000_000
  {
    assert Pow10(4) == 10_000;
    assert Pow10(8) == 10_000 * Pow10(4);
    assert Pow10(12) == 10_000 * Pow10(8);
    assert Pow10(16) == 10_000 * Pow10(12);
    assert Pow10(19) == 1_000 * Pow10(16);
  }

  lemma {:induction false} NinesStart(k: nat)
    requires k > 0
    ensures Nines(k)[0] == '9' && Nines(k)[1..] == Nines(k - 1)
  {
    if k > 1 {
      NinesStart(k - 1);
    }
  }

  lemma {:induction false} NinesAreDigits(k: nat)
    ensures AllDigits(Nines(k)) && DecimalValue(Nines(k)) == Pow10(k) - 1
  {
    if k > 0 {
      NinesAreDigits(k - 1);
      assert Nines(k)[..k - 1] == Nines(k - 1);
    }
  }

  lemma {:induction false} OneAndZerosAreDigits(k: nat)
    ensures AllDigits(OneAndZeros(k)) && DecimalValue(OneAndZeros(k)) == Pow10(k)
  {
    if k > 0 {
      OneAndZerosAreDigits(k - 1);
      assert OneAndZeros(k)[..k] == OneAndZeros(k - 1);
    }
  }

  /** The OID whose second of three arcs is `x`. */
  function Around(x: string): string {
    "1" + "." + (x + "." + "1")
  }

  lemma AroundCompares(x: string, y: string)
    requires '.' !in x && '.' !in y && x != y
    ensures CompareOIDs(Around(x), Around(y)) == CompareFrom(["1", x, "1"], ["1", y, "1"], 1)
  {
    AroundSplits(x);
    AroundSplits(y);
  }

  lemma AroundSplits(x: string)
    requires '.' !in x
    ensures Split(CanonicalOID(Around(x))) == ["1", x, "1"]
  {
    hide Split;
    SplitSingle("1");
    SplitSingle(x);
    SplitConcat(x, "1");
    SplitConcat("1", x + "." + "1");
    var text := Around(x);
    assert text[0] == '1' && text[|text| - 1] == '1';
    assert TrimLeft(text) == text && TrimRight(text) == text;
  }

  /** The arc sorts after some number and before a smaller one. */
  ghost predicate ClosesCycle(m: string) {
    exists a, b :: CanonicalArc(a) && CanonicalArc(b)
      && OIDLess(Around(a), Around(b)) && OIDLess(Around(b), Around(m)) && OIDLess(Around(m), Around(a))
  }

  const LARGEST: string := Nines(19)

  lemma DigitsHaveNoDot(s: string)
    requires AllDigits(s)
    ensures '.' !in s
  {
    assert !IsDigit('.');
  }

  // ----- the bounds -----

  /** Digits that sort after k nines start with them. */
  lemma {:induction false} AfterNines(s: string, k: nat)
    requires AllDigits(s) && CompareText(s, Nines(k)) > 0
    ensures Nines(k) <= s && |s| > k
  {
    if k > 0 {
      NinesStart(k);
      assert Codes(s)[1..] == Codes(s[1..]) && Codes(Nines(k))[1..] == Codes(Nines(k - 1));
      assert s[0] == '9';
      AfterNines(s[1..], k - 1);
      assert s == [s[0]] + s[1..] && Nines(k) == ['9'] + Nines(k - 1);
    }
  }

  lemma {:induction false} PrefixIsSmaller(s: string, n: nat)
    requires AllDigits(s) && n < |s|
    ensures AllDigits(s[..n]) && 10 * DecimalValue(s[..n]) <= DecimalValue(s)
    decreases |s|
  {
    var init := s[..|s| - 1];
    if n < |s| - 1 {
      PrefixIsSmaller(init, n);
      assert init[..n] == s[..n];
    }
  }

  /** No arc below 2^64 sorts after nineteen nines: twenty are too large. */
  lemma LargestText(a: string)
    requires ParseUint(a).Some?
    ensures CompareText(a, LARGEST) <= 0
  {
    if CompareText(a, LARGEST) > 0 {
      AfterNines(a, 19);
      PrefixIsSmaller(a, 19);
      assert a[..19] == Nines(19);
      NinesAreDigits(19);
      Pow10Of19();
      hide Nines, DecimalValue, Pow10, CompareText;
    }
  }

  lemma TwoDigitsAreTen(b: string)
    requires AllDigits(b) && |b| >= 2 && b[0] != '0'
    ensures DecimalValue(b) >= 10
  {
    PrefixIsSmaller(b, 1);
    assert DecimalValue(b[..1]) == (b[0] - '0') as nat + 10 * DecimalValue(b[..1][..0]);
  }

  /** Two texts whose first characters differ are ordered by them. */
  lemma ByFirstChar(x: string, y: string)
    requires x != "" && y != "" && x[0] < y[0]
    ensures CompareText(x, y) < 0
  {
  }

  /** A number that sorts in text before a smaller one has two digits, so it is "10" or sorts after it. */
  lemma SmallestText(a: string, b: string)
    requires CanonicalArc(a) && CanonicalArc(b) && ParseUint(a).value < ParseUint(b).value && CompareText(b, a) < 0
    ensures CompareText("10", b) <= 0
  {
    if |b| == 1 {
      assert b[..0] == "" && DecimalValue(b) == (b[0] - '0') as nat;
      if |a| > 1 {
        TwoDigitsAreTen(a);
      } else {
        assert a[..0] == "" && DecimalValue(a) == (a[0] - '0') as nat;
        ByFirstChar(a, b);
        CompareAntisymmetric(Codes(a), Codes(b));
      }
      assert false;
    }
    assert IsDigit(b[0]) && IsDigit(b[1]);
    assert Codes("10") == [49, 48];
    FromTen(Codes(b));
  }

  lemma FromTen(c: seq<int>)
    requires |c| >= 2 && c[0] >= 49 && c[1] >= 48
    ensures Compare([49, 48], c) <= 0
  {
    assert [49, 48][1..] == [48] && [48][1..] == [];
    assert Compare([48], c[1..]) <= 0;
  }

  // ----- the theorem -----

  /**
   * An arc that does not parse breaks the order exactly when it sorts, as text, after "10" and before nineteen nines: then
   * some number sorts before it and a smaller one after it. No other malformed arc closes a cycle with two numbers.
   */
  lemma MalformedArcClosesCycle(m: string)
    requires ParseUint(m).None? && '.' !in m
    ensures ClosesCycle(m) <==> CompareText("10", m) < 0 && CompareText(m, LARGEST) < 0
  {
    if ClosesCycle(m) {
      CycleIsBounded(m);
    }
    if CompareText("10", m) < 0 && CompareText(m, LARGEST) < 0 {
      BoundedCloses(m);
    }
  }

  lemma CycleIsBounded(m: string)
    requires ParseUint(m).None? && '.' !in m && ClosesCycle(m)
    ensures CompareText("10", m) < 0 && CompareText(m, LARGEST) < 0
  {
    var a, b :| CanonicalArc(a) && CanonicalArc(b)
      && OIDLess(Around(a), Around(b)) && OIDLess(Around(b), Around(m)) && OIDLess(Around(m), Around(a));
    ComparesTo(a, b, m);
    SmallestBefore(a, b, m);
    LargestText(a);
    CompareTransitive(Codes(m), Codes(a), Codes(LARGEST));
  }

  lemma {:induction false} SameIsZero(a: seq<string>, i: nat)
    requires i <= |a|
    ensures CompareFrom(a, a, i) == 0
    decreases |a| - i
  {
    if i < |a| {
      SameIsZero(a, i + 1);
    }
  }

  lemma NumbersCompare(a: string, b: string)
    requires CanonicalArc(a) && CanonicalArc(b)
    ensures OIDLess(Around(a), Around(b)) <==> ParseUint(a).value < ParseUint(b).value
  {
    DigitsHaveNoDot(a);
    DigitsHaveNoDot(b);
    if a == b {
      AroundSplits(a);
      SameIsZero(["1", a, "1"], 0);
    } else {
      AroundCompares(a, b);
      if ParseUint(a) == ParseUint(b) {
        CanonicalArcInjective(a, b);
      }
    }
    hide Around, CanonicalOID, Split, ParseUint;
  }

  lemma TextCompares(a: string, m: string)
    requires CanonicalArc(a) && ParseUint(m).None? && '.' !in m
    ensures OIDLess(Around(a), Around(m)) <==> CompareText(a, m) < 0
    ensures OIDLess(Around(m), Around(a)) <==> CompareText(m, a) < 0
  {
    DigitsHaveNoDot(a);
    AroundCompares(a, m);
    AroundCompares(m, a);
    hide Around, CanonicalOID, Split, CompareText, ParseUint;
  }

  /** The three comparisons, arc by arc. */
  lemma ComparesTo(a: string, b: string, m: string)
    requires CanonicalArc(a) && CanonicalArc(b) && ParseUint(m).None? && '.' !in m
    ensures OIDLess(Around(a), Around(b)) <==> ParseUint(a).value < ParseUint(b).value
    ensures OIDLess(Around(b), Around(m)) <==> CompareText(b, m) < 0
    ensures OIDLess(Around(m), Around(a)) <==> CompareText(m, a) < 0
  {
    NumbersCompare(a, b);
    TextCompares(b, m);
    TextCompares(a, m);
    hide OIDLess, Around, CompareText, ParseUint;
  }

  lemma SmallestBefore(a: string, b: string, m: string)
    requires CanonicalArc(a) && CanonicalArc(b) && ParseUint(a).value < ParseUint(b).value
    requires CompareText(b, m) < 0 && CompareText(m, a) < 0
    ensures CompareText("10", m) < 0
  {
    CompareTransitive(Codes(b), Codes(m), Codes(a));
    SmallestText(a, b);
    CompareTransitive(Codes("10"), Codes(b), Codes(m));
  }

  /** A one-digit number that sorts after `m`, and ten. */
  lemma ClosesByOneDigit(m: string)
    requires ParseUint(m).None? && '.' !in m && CompareText("10", m) < 0 && m != "" && '1' <= m[0] < '9'
    ensures ClosesCycle(m)
  {
    var a: string, b := [m[0] + (1 as char)], OneAndZeros(1);
    OneAndZerosAreDigits(1);
    assert a[..0] == "" && DecimalValue(a) <= 9;
    assert b == "10" && Pow10(1) == 10;
    ByFirstChar(m, a);
    hide CompareText, DecimalValue, OIDLess, Around;
    ComparesTo(a, b, m);
    assert CanonicalArc(a) && CanonicalArc(b);
  }

  /** Nineteen nines, and the number after them. */
  lemma ClosesByNines(m: string)
    requires ParseUint(m).None? && '.' !in m && CompareText(m, LARGEST) < 0 && m != "" && m[0] == '9'
    ensures ClosesCycle(m)
  {
    var b := OneAndZeros(19);
    NinesStart(19);
    NinesAreDigits(19);
    OneAndZerosAreDigits(19);
    Pow10Of19();
    ByFirstChar(b, m);
    hide CompareText, DecimalValue, Nines, OneAndZeros, Pow10, OIDLess, Around;
    ComparesTo(LARGEST, b, m);
    assert CanonicalArc(LARGEST) && CanonicalArc(b);
  }

  lemma BoundedCloses(m: string)
    requires ParseUint(m).None? && '.' !in m && CompareText("10", m) < 0 && CompareText(m, LARGEST) < 0
    ensures ClosesCycle(m)
  {
    FirstDigit(m);
    if m[0] < '9' {
      ClosesByOneDigit(m);
    } else {
      ClosesByNines(m);
    }
  }

  lemma FirstDigit(m: string)
    requires CompareText("10", m) < 0 && CompareText(m, LARGEST) < 0
    ensures m != "" && '1' <= m[0] <= '9'
  {
    NinesStart(19);
    hide Nines;
    assert Codes("10")[0] == 49 && Codes(LARGEST)[0] == 57;
  }
}
