/** The specificity order of sysObjectID patterns: comparePatterns of internal/profile/match.go. */
module Patterns {
  import opened Collections
  import opened Order
  import opened Oid

  predicate Wild(part: string) {
    '*' in part
  }

  function FirstDifference(a: seq<string>, b: seq<string>, i: nat): (d: nat)
    requires i <= |a| == |b|
    ensures i <= d <= |a|
    decreases |a| - i
  {
    if i < |a| && a[i] == b[i] then FirstDifference(a, b, i + 1) else i
  }

  /** Above zero when `a` wins: by its number of parts, else by being literal where the two first differ, else as text. */
  function ComparePatterns(a: string, b: string): int {
    if a == b then 0
    else
      var pa, pb := Split(a), Split(b);
      if |pa| != |pb| then |pa| - |pb|
      else
        var d := FirstDifference(pa, pb, 0);
        if d < |pa| && Wild(pa[d]) != Wild(pb[d]) then (if Wild(pb[d]) then 1 else -1)
        else CompareText(a, b)
  }

  // ----- it is a lexicographic order on keys -----

  const DOT: int := 46

  /** A part as it sorts: wildcard or literal, then its text, then the dot that ends it unless it is the last. */
  function PartKey(part: string, last: bool): seq<int> {
    [if Wild(part) then 0 else 1] + Codes(part) + (if last then [] else [DOT])
  }

  function PartsKey(parts: seq<string>): seq<int>
    requires parts != []
  {
    if |parts| == 1 then PartKey(parts[0], true) else PartKey(parts[0], false) + PartsKey(parts[1..])
  }

  function Key(pattern: string): seq<int> {
    [|Split(pattern)|] + PartsKey(Split(pattern))
  }

  lemma CodesConcat(a: string, b: string)
    ensures Codes(a + b) == Codes(a) + Codes(b)
  {
  }

  lemma CompareSameHead(h: int, a: seq<int>, b: seq<int>)
    ensures Compare([h] + a, [h] + b) == Compare(a, b)
  {
    CompareCommonPrefix([h], a, b);
  }

  /** Dot-free texts are told apart before anything that follows their closing dots. */
  lemma {:induction false} PartsDecide(u: seq<int>, v: seq<int>, x: seq<int>, y: seq<int>, x': seq<int>, y': seq<int>)
    requires u != v && DOT !in u && DOT !in v
    ensures Compare(u + ([DOT] + x), v + ([DOT] + y)) == Compare(u + ([DOT] + x'), v + ([DOT] + y'))
  {
    if u != [] && v != [] && u[0] == v[0] {
      var h, a, b := u[0], u[1..], v[1..];
      assert u == [h] + a && v == [h] + b;
      PartsDecide(a, b, x, y, x', y');
      SeqAssociative([h], a, [DOT] + x);
      SeqAssociative([h], b, [DOT] + y);
      SeqAssociative([h], a, [DOT] + x');
      SeqAssociative([h], b, [DOT] + y');
      CompareSameHead(h, a + ([DOT] + x), b + ([DOT] + y));
      CompareSameHead(h, a + ([DOT] + x'), b + ([DOT] + y'));
    } else {
      HeadsDecide(u + ([DOT] + x), v + ([DOT] + y));
      HeadsDecide(u + ([DOT] + x'), v + ([DOT] + y'));
    }
  }

  lemma HeadsDecide(a: seq<int>, b: seq<int>)
    requires a != [] && b != [] && a[0] != b[0]
    ensures Compare(a, b) == if a[0] < b[0] then -1 else 1
  {
  }

  lemma CodesDistinct(u: string, v: string)
    requires '.' !in u
    ensures DOT !in Codes(u)
    ensures u != v ==> Codes(u) != Codes(v)
  {
    if Codes(u) == Codes(v) {
      CodesInjective(u, v);
    }
  }

  // ----- the comparison, part by part -----

  function CompareParts(a: seq<string>, b: seq<string>): int
    requires |a| == |b| >= 1
  {
    if a[0] == b[0] then (if |a| == 1 then 0 else CompareParts(a[1..], b[1..]))
    else if Wild(a[0]) != Wild(b[0]) then (if Wild(b[0]) then 1 else -1)
    else CompareText(Join(a), Join(b))
  }

  /** Equal leading parts do not matter, neither to the search for the first difference nor to the text comparison. */
  lemma {:induction false} JoinSameHead(h: string, a: seq<string>, b: seq<string>)
    requires a != [] && b != []
    ensures CompareText(Join([h] + a), Join([h] + b)) == CompareText(Join(a), Join(b))
  {
    assert ([h] + a)[1..] == a && ([h] + b)[1..] == b;
    CodesConcat(h + ".", Join(a));
    CodesConcat(h + ".", Join(b));
    CompareCommonPrefix(Codes(h + "."), Codes(Join(a)), Codes(Join(b)));
  }

  lemma {:induction false} FirstDifferenceShifts(a: seq<string>, b: seq<string>, i: nat)
    requires 1 <= i <= |a| == |b|
    ensures FirstDifference(a, b, i) == FirstDifference(a[1..], b[1..], i - 1) + 1
    decreases |a| - i
  {
    if i < |a| && a[i] == b[i] {
      FirstDifferenceShifts(a, b, i + 1);
    }
  }

  lemma {:induction false} ComparePartsIsCompare(a: seq<string>, b: seq<string>)
    requires |a| == |b| >= 1 && a != b
    ensures var d := FirstDifference(a, b, 0);
      && d < |a| && a[d] != b[d]
      && CompareParts(a, b) == if Wild(a[d]) != Wild(b[d]) then (if Wild(b[d]) then 1 else -1) else CompareText(Join(a), Join(b))
  {
    if a[0] == b[0] {
      assert a == [a[0]] + a[1..] && b == [b[0]] + b[1..];
      FirstDifferenceShifts(a, b, 1);
      ComparePartsIsCompare(a[1..], b[1..]);
      JoinSameHead(a[0], a[1..], b[1..]);
    }
  }

  ghost predicate DotFree(parts: seq<string>) {
    forall p :: p in parts ==> '.' !in p
  }

  function Flag(part: string): int {
    if Wild(part) then 0 else 1
  }

  lemma PartsKeyUnfolds(a: seq<string>)
    requires |a| >= 1
    ensures PartsKey(a) == [Flag(a[0])] + (if |a| == 1 then Codes(a[0]) else Codes(a[0]) + ([DOT] + PartsKey(a[1..])))
  {
    if |a| > 1 {
      SeqAssociative([Flag(a[0])] + Codes(a[0]), [DOT], PartsKey(a[1..]));
      SeqAssociative([Flag(a[0])], Codes(a[0]), [DOT] + PartsKey(a[1..]));
    }
  }

  /** Two literals or two wildcards that differ: the text order of the rest is the key order. */
  lemma HeadsDiffer(a: seq<string>, b: seq<string>)
    requires |a| == |b| >= 1 && DotFree(a) && DotFree(b) && a[0] != b[0] && Wild(a[0]) == Wild(b[0])
    ensures Compare(PartsKey(a), PartsKey(b)) == CompareText(Join(a), Join(b))
  {
    var u, v := Codes(a[0]), Codes(b[0]);
    CodesDistinct(a[0], b[0]);
    CodesDistinct(b[0], a[0]);
    PartsKeyUnfolds(a);
    PartsKeyUnfolds(b);
    hide PartsKey, Wild, Codes, Compare;
    if |a| == 1 {
      CompareSameHead(Flag(a[0]), u, v);
    } else {
      var x, y := PartsKey(a[1..]), PartsKey(b[1..]);
      CompareSameHead(Flag(a[0]), u + ([DOT] + x), v + ([DOT] + y));
      JoinCodes(a);
      JoinCodes(b);
      PartsDecide(u, v, x, y, Codes(Join(a[1..])), Codes(Join(b[1..])));
    }
  }

  lemma JoinCodes(a: seq<string>)
    requires |a| > 1
    ensures Codes(Join(a)) == Codes(a[0]) + ([DOT] + Codes(Join(a[1..])))
  {
    CodesConcat(a[0], ".");
    CodesConcat(a[0] + ".", Join(a[1..]));
    SeqAssociative(Codes(a[0]), Codes("."), Codes(Join(a[1..])));
    assert Codes(".") == [DOT];
  }

  lemma {:induction false} ComparePartsIsKeyOrder(a: seq<string>, b: seq<string>)
    requires |a| == |b| >= 1 && DotFree(a) && DotFree(b)
    ensures Sign(CompareParts(a, b)) == Compare(PartsKey(a), PartsKey(b))
  {
    if a[0] == b[0] {
      if |a| == 1 {
        CompareZero(PartsKey(a), PartsKey(b));
        assert a == b;
      } else {
        ComparePartsIsKeyOrder(a[1..], b[1..]);
        CompareCommonPrefix(PartKey(a[0], false), PartsKey(a[1..]), PartsKey(b[1..]));
      }
    } else if Wild(a[0]) != Wild(b[0]) {
      HeadsDecide(PartsKey(a), PartsKey(b));
    } else {
      HeadsDiffer(a, b);
    }
  }

  /** The specificity comparison is the lexicographic order of keys. */
  lemma ComparePatternsIsKeyOrder(a: string, b: string)
    ensures Sign(ComparePatterns(a, b)) == Compare(Key(a), Key(b))
  {
    hide PartsKey, CompareText, Wild;
    var pa, pb := Split(a), Split(b);
    SplitHasNoDots(a);
    SplitHasNoDots(b);
    JoinSplit(a);
    JoinSplit(b);
    hide Split, Join;
    if |pa| != |pb| {
      HeadsDecide(Key(a), Key(b));
    } else {
      CompareSameHead(|pa|, PartsKey(pa), PartsKey(pb));
      ComparePartsIsKeyOrder(pa, pb);
      if a == b {
        CompareZero(PartsKey(pa), PartsKey(pb));
      } else {
        ComparePartsIsCompare(pa, pb);
      }
    }
  }

  // ----- so it is a total order -----

  lemma PatternOrderIsTotal(a: string, b: string)
    ensures ComparePatterns(a, b) == 0 <==> a == b
    ensures ComparePatterns(a, b) > 0 <==> ComparePatterns(b, a) < 0
  {
    hide Key, Split, CompareText;
    ComparePatternsIsKeyOrder(a, b);
    ComparePatternsIsKeyOrder(b, a);
    CompareAntisymmetric(Key(a), Key(b));
    if a != b {
      OnlyEqualPatternsTie(a, b);
    }
  }

  lemma OnlyEqualPatternsTie(a: string, b: string)
    requires a != b
    ensures ComparePatterns(a, b) != 0
  {
    hide Split;
    CompareZero(Codes(a), Codes(b));
    if Codes(a) == Codes(b) {
      CodesInjective(a, b);
    }
  }

  lemma PatternOrderIsTransitive(a: string, b: string, c: string)
    requires ComparePatterns(a, b) >= 0 && ComparePatterns(b, c) >= 0
    ensures ComparePatterns(a, c) >= 0
    ensures ComparePatterns(a, b) > 0 || ComparePatterns(b, c) > 0 ==> ComparePatterns(a, c) > 0
  {
    hide Key, ComparePatterns;
    ComparePatternsIsKeyOrder(a, b);
    ComparePatternsIsKeyOrder(b, c);
    ComparePatternsIsKeyOrder(a, c);
    CompareAntisymmetric(Key(a), Key(b));
    CompareAntisymmetric(Key(b), Key(c));
    CompareAntisymmetric(Key(a), Key(c));
    CompareTransitive(Key(c), Key(b), Key(a));
  }
}
