/** Object identifiers as text: internal/snmp/oid.go and the OID helpers of internal/snmp/valuestore.go. */
module Oid {
  import opened Wrappers
  import opened Order

  // ----- splitting text at dots -----

  /** Go's strings.Split(s, "."): never empty, and "" yields one empty part. */
  function Split(s: string): (parts: seq<string>)
    ensures |parts| >= 1
  {
    if s == "" then [""] else Push(s[0], Split(s[1..]))
  }

  function Push(c: char, parts: seq<string>): (r: seq<string>)
    requires |parts| >= 1
    ensures |r| >= 1
  {
    if c == '.' then [""] + parts else [[c] + parts[0]] + parts[1..]
  }

  function Join(parts: seq<string>): string
    requires |parts| >= 1
  {
    if |parts| == 1 then parts[0] else parts[0] + "." + Join(parts[1..])
  }

  lemma SplitCons(c: char, s: string)
    ensures Split([c] + s) == Push(c, Split(s))
  {
    assert ([c] + s)[1..] == s;
  }

  lemma Associative(a: string, b: string, c: string)
    ensures (a + b) + c == a + (b + c)
  {
  }

  lemma JoinPush(c: char, parts: seq<string>)
    requires |parts| >= 1
    ensures Join(Push(c, parts)) == [c] + Join(parts)
  {
    var r := Push(c, parts);
    if c == '.' {
      assert r[1..] == parts && "" + "." == [c];
    } else if |parts| > 1 {
      assert r[1..] == parts[1..];
      var dot, rest := parts[0] + ".", Join(parts[1..]);
      Associative([c], parts[0], ".");
      Associative([c], dot, rest);
    }
  }

  lemma {:induction false} JoinSplit(s: string)
    ensures Join(Split(s)) == s
  {
    if s != "" {
      JoinSplit(s[1..]);
      JoinPush(s[0], Split(s[1..]));
    }
  }

  lemma {:induction false} SplitConcat(a: string, b: string)
    ensures Split(a + "." + b) == Split(a) + Split(b)
  {
    hide Split;
    if a == "" {
      assert a + "." + b == ['.'] + b;
      SplitCons('.', b);
      SplitEmpty();
    } else {
      var t := a[1..];
      assert a == [a[0]] + t && a + "." + b == [a[0]] + (t + "." + b);
      SplitConcat(t, b);
      SplitCons(a[0], t);
      SplitCons(a[0], t + "." + b);
      assert Push(a[0], Split(t) + Split(b)) == Push(a[0], Split(t)) + Split(b);
    }
  }

  lemma SplitEmpty()
    ensures Split("") == [""]
  {
  }

  lemma {:induction false} SplitSingle(s: string)
    requires '.' !in s
    ensures Split(s) == [s]
  {
    if s != "" {
      SplitSingle(s[1..]);
      assert s == [s[0]] + s[1..];
    }
  }

  lemma {:induction false} SplitHasNoDots(s: string)
    ensures forall p :: p in Split(s) ==> '.' !in p
    ensures forall p, c :: p in Split(s) && c in p ==> c in s
  {
    if s != "" {
      SplitHasNoDots(s[1..]);
      assert s == [s[0]] + s[1..];
      var rest := Split(s[1..]);
      assert forall p :: p in rest[1..] ==> p in rest;
    }
  }

  // ----- arcs -----

  predicate IsDigit(c: char) {
    '0' <= c <= '9'
  }

  predicate AllDigits(s: string) {
    forall i :: 0 <= i < |s| ==> IsDigit(s[i])
  }

  function DecimalValue(s: string): nat
    requires AllDigits(s)
  {
    if s == "" then 0 else 10 * DecimalValue(s[..|s| - 1]) + (s[|s| - 1] - '0') as nat
  }

  const ARC_LIMIT: nat := 0x1_0000_0000_0000_0000

  /** Go's strconv.ParseUint(s, 10, 64). */
  function ParseUint(s: string): Option<nat> {
    if s != "" && AllDigits(s) && DecimalValue(s) < ARC_LIMIT then Some(DecimalValue(s)) else None
  }

  /** An arc written the one canonical way: decimal, below 2^64, no leading zero. */
  predicate CanonicalArc(s: string) {
    ParseUint(s).Some? && (|s| > 1 ==> s[0] != '0')
  }

  lemma {:induction false} DecimalPositive(s: string)
    requires AllDigits(s) && s != "" && s[0] != '0'
    ensures DecimalValue(s) > 0
  {
    if |s| > 1 {
      DecimalPositive(s[..|s| - 1]);
    }
  }

  lemma {:induction false} CanonicalArcInjective(s: string, t: string)
    requires AllDigits(s) && AllDigits(t) && s != "" && t != ""
    requires (|s| > 1 ==> s[0] != '0') && (|t| > 1 ==> t[0] != '0')
    requires DecimalValue(s) == DecimalValue(t)
    ensures s == t
  {
    var s', t' := s[..|s| - 1], t[..|t| - 1];
    assert s == s' + [s[|s| - 1]] && t == t' + [t[|t| - 1]];
    if s' != "" {
      DecimalPositive(s');
    }
    if t' != "" {
      DecimalPositive(t');
    }
    if s' != "" && t' != "" {
      CanonicalArcInjective(s', t');
    }
  }

  // ----- OIDs -----

  predicate IsSpace(c: char) {
    c == ' ' || '\t' <= c <= '\r' || c == '\U{0085}' || c == '\U{00a0}'
  }

  function TrimLeft(s: string): string {
    if s != "" && IsSpace(s[0]) then TrimLeft(s[1..]) else s
  }

  function TrimRight(s: string): string {
    if s != "" && IsSpace(s[|s| - 1]) then TrimRight(s[..|s| - 1]) else s
  }

  predicate Spaces(s: string) {
    forall c :: c in s ==> IsSpace(c)
  }

  predicate Trimmed(s: string) {
    s == "" || (!IsSpace(s[0]) && !IsSpace(s[|s| - 1]))
  }

  /** Leaving out all surrounding space leaves this. */
  ghost predicate TrimsTo(t: string, s: string) {
    Trimmed(s) && exists a, b :: Spaces(a) && Spaces(b) && t == a + s + b
  }

  function TrimSpace(s: string): string {
    TrimRight(TrimLeft(s))
  }

  lemma {:induction false} TrimLeftIs(a: string, s: string)
    requires Spaces(a) && (s == "" || !IsSpace(s[0]))
    ensures TrimLeft(a + s) == s
  {
    hide IsSpace;
    if a == "" {
      assert a + s == s;
    } else {
      assert a[0] in a && (a + s)[1..] == a[1..] + s;
      TrimLeftIs(a[1..], s);
    }
  }

  lemma {:induction false} TrimRightIs(s: string, b: string)
    requires Spaces(b) && (s == "" || !IsSpace(s[|s| - 1]))
    ensures TrimRight(s + b) == s
  {
    hide IsSpace;
    if b == "" {
      assert s + b == s;
    } else {
      var n := |b| - 1;
      assert b[n] in b && (s + b)[..|s| + n] == s + b[..n];
      TrimRightIs(s, b[..n]);
    }
  }

  lemma {:induction false} TrimLeftSplits(t: string) returns (a: string)
    ensures Spaces(a) && t == a + TrimLeft(t) && (TrimLeft(t) == "" || !IsSpace(TrimLeft(t)[0]))
  {
    hide IsSpace;
    a := "";
    if t != "" && IsSpace(t[0]) {
      var rest := TrimLeftSplits(t[1..]);
      a := [t[0]] + rest;
    }
  }

  lemma {:induction false} TrimRightSplits(t: string) returns (b: string)
    ensures Spaces(b) && t == TrimRight(t) + b && (TrimRight(t) == "" || !IsSpace(TrimRight(t)[|TrimRight(t)| - 1]))
  {
    hide IsSpace;
    b := "";
    if t != "" && IsSpace(t[|t| - 1]) {
      var rest := TrimRightSplits(t[..|t| - 1]);
      b := rest + [t[|t| - 1]];
      assert t == TrimRight(t) + b;
    }
  }

  /** strings.TrimSpace, by what it leaves out. */
  lemma TrimSpaceIff(t: string, s: string)
    ensures TrimSpace(t) == s <==> TrimsTo(t, s)
  {
    hide IsSpace;
    var a := TrimLeftSplits(t);
    var b := TrimRightSplits(TrimLeft(t));
    assert t == a + TrimSpace(t) + b;
    assert Trimmed(TrimSpace(t)) by {
      if TrimSpace(t) != "" {
        assert TrimSpace(t)[0] == TrimLeft(t)[0];
      }
    }
    if TrimsTo(t, s) {
      var c, d :| Spaces(c) && Spaces(d) && t == c + s + d;
      TrimsUniquely(c, s, d);
    }
  }

  lemma TrimsUniquely(a: string, s: string, b: string)
    requires Spaces(a) && Spaces(b) && Trimmed(s)
    ensures TrimSpace(a + s + b) == s
  {
    hide IsSpace;
    if s == "" {
      TrimLeftIs(a + s + b, "");
      assert (a + s + b) + "" == a + s + b;
    } else {
      assert a + s + b == a + (s + b);
      TrimLeftIs(a, s + b);
      TrimRightIs(s, b);
    }
  }

  function TrimPrefix(s: string, prefix: string): string {
    if prefix <= s then s[|prefix|..] else s
  }

  /** One internal spelling: no surrounding space, no leading dot. */
  function CanonicalOID(oid: string): string {
    TrimPrefix(TrimSpace(oid), ".")
  }

  /** Every arc parses, so the comparison never falls back to text. */
  predicate WellFormed(oid: string) {
    forall p :: p in Split(oid) ==> ParseUint(p).Some?
  }

  /** The spelling used internally and by agents: well formed and without leading zeros. */
  predicate Canonical(oid: string) {
    forall p :: p in Split(oid) ==> CanonicalArc(p)
  }

  function Arcs(oid: string): (r: seq<int>)
    requires WellFormed(oid)
    ensures |r| == |Split(oid)|
  {
    var parts := Split(oid);
    seq(|parts|, i requires 0 <= i < |parts| => ParseUint(parts[i]).value)
  }

  lemma LastOfPush(c: char, parts: seq<string>)
    requires |parts| >= 1
    ensures var r, last := Push(c, parts), parts[|parts| - 1];
      r[|r| - 1] == if c != '.' && |parts| == 1 then [c] + last else last
  {
  }

  lemma {:induction false} SplitLast(s: string)
    requires s != ""
    ensures var last := Split(s)[|Split(s)| - 1];
      if last == "" then s[|s| - 1] == '.' else last[|last| - 1] == s[|s| - 1]
  {
    var rest := s[1..];
    LastOfPush(s[0], Split(rest));
    hide Push;
    if rest != "" {
      SplitLast(rest);
      assert rest[|rest| - 1] == s[|s| - 1];
    } else {
      assert Split(rest) == [""];
    }
  }

  lemma SplitEnds(s: string)
    requires s != ""
    ensures var first := Split(s)[0]; if first == "" then s[0] == '.' else first[0] == s[0]
    ensures var last := Split(s)[|Split(s)| - 1];
      if last == "" then s[|s| - 1] == '.' else last[|last| - 1] == s[|s| - 1]
  {
    SplitLast(s);
    var first := Push(s[0], Split(s[1..]))[0];
  }

  /** A canonical OID starts and ends with a digit, so trimming leaves it alone. */
  lemma CanonicalOIDFixes(oid: string)
    requires Canonical(oid)
    ensures oid != "" && oid[0] != '.'
    ensures CanonicalOID(oid) == oid
    ensures CanonicalOID("." + oid) == oid
  {
    var parts := Split(oid);
    assert parts[0] in parts && parts[|parts| - 1] in parts;
    assert ParseUint(parts[0]).Some? && ParseUint(parts[|parts| - 1]).Some?;
    SplitEnds(oid);
    assert !IsSpace(oid[0]) && !IsSpace(oid[|oid| - 1]) && oid[0] != '.';
    assert ("." + oid)[1..] == oid;
    assert TrimLeft("." + oid) == "." + oid;
    assert TrimRight("." + oid) == "." + oid;
  }

  /** Whatever space surrounds it, and with a leading dot or without. */
  lemma TrimmedIsCanonical(t: string, oid: string)
    requires Canonical(oid) && (TrimsTo(t, oid) || TrimsTo(t, "." + oid))
    ensures CanonicalOID(t) == oid
  {
    hide IsSpace, TrimsTo, TrimSpace;
    TrimSpaceIff(t, oid);
    TrimSpaceIff(t, "." + oid);
    CanonicalOIDFixes(oid);
    assert ("." + oid)[1..] == oid && oid[0] != '.';
  }

  // ----- comparison (internal/snmp/oid.go) -----

  function CompareFrom(a: seq<string>, b: seq<string>, i: nat): int
    requires i <= |a| && i <= |b|
    decreases |a| - i
  {
    if i == |a| || i == |b| then |a| - |b|   // all common arcs agree: the shorter one first
    else if a[i] == b[i] then CompareFrom(a, b, i + 1)
    else
      var an, bn := ParseUint(a[i]), ParseUint(b[i]);
      if an.None? || bn.None? then CompareText(a[i], b[i])
      else if an.value < bn.value then -1
      else if an.value > bn.value then 1
      else CompareFrom(a, b, i + 1)
  }

  function CompareOIDs(a: string, b: string): int {
    CompareFrom(Split(CanonicalOID(a)), Split(CanonicalOID(b)), 0)
  }

  predicate OIDLess(a: string, b: string) {
    CompareOIDs(a, b) < 0
  }

  function Sign(x: int): int {
    if x < 0 then -1 else if x > 0 then 1 else 0
  }

  lemma {:induction false} CompareFromIsNumeric(a: seq<string>, b: seq<string>, x: seq<int>, y: seq<int>, i: nat)
    requires i <= |a| == |x| && i <= |b| == |y|
    requires forall k :: 0 <= k < |a| ==> ParseUint(a[k]) == Some(x[k])
    requires forall k :: 0 <= k < |b| ==> ParseUint(b[k]) == Some(y[k])
    ensures Sign(CompareFrom(a, b, i)) == Compare(x[i..], y[i..])
    decreases |a| - i
  {
    if i < |a| && i < |b| {
      assert x[i..][1..] == x[i + 1..] && y[i..][1..] == y[i + 1..];
      CompareFromIsNumeric(a, b, x, y, i + 1);
    }
  }

  /** On well-formed OIDs the comparison is the lexicographic order of the parsed arcs. */
  lemma CompareOIDsIsArcOrder(a: string, b: string)
    requires WellFormed(CanonicalOID(a)) && WellFormed(CanonicalOID(b))
    ensures Sign(CompareOIDs(a, b)) == Compare(Arcs(CanonicalOID(a)), Arcs(CanonicalOID(b)))
  {
    var x, y := Arcs(CanonicalOID(a)), Arcs(CanonicalOID(b));
    CompareFromIsNumeric(Split(CanonicalOID(a)), Split(CanonicalOID(b)), x, y, 0);
    assert x[0..] == x && y[0..] == y;
  }

  lemma ArcsInjective(a: string, b: string)
    requires Canonical(a) && Canonical(b) && Arcs(a) == Arcs(b)
    ensures a == b
  {
    var p, q := Split(a), Split(b);
    forall i | 0 <= i < |p|
      ensures p[i] == q[i]
    {
      assert Arcs(a)[i] == Arcs(b)[i] && p[i] in p && q[i] in q;
      CanonicalArcInjective(p[i], q[i]);
    }
    assert p == q;
    JoinSplit(a);
    JoinSplit(b);
  }

  /** The order is total on canonical OIDs, and 0 means the very same OID. */
  lemma OrderIsTotal(a: string, b: string)
    requires Canonical(a) && Canonical(b)
    ensures CompareOIDs(a, b) == 0 <==> a == b
    ensures OIDLess(a, b) <==> CompareOIDs(b, a) > 0
  {
    hide Split, CanonicalOID, ParseUint;
    CanonicalOIDFixes(a);
    CanonicalOIDFixes(b);
    CompareOIDsIsArcOrder(a, b);
    CompareOIDsIsArcOrder(b, a);
    CompareAntisymmetric(Arcs(a), Arcs(b));
    CompareZero(Arcs(a), Arcs(b));
    if Arcs(a) == Arcs(b) {
      ArcsInjective(a, b);
    }
  }

  /** Among OIDs whose arcs all parse the order is transitive, whatever their spelling. */
  lemma WellFormedOrderIsTransitive(a: string, b: string, c: string)
    requires WellFormed(CanonicalOID(a)) && WellFormed(CanonicalOID(b)) && WellFormed(CanonicalOID(c))
    requires CompareOIDs(a, b) <= 0 && CompareOIDs(b, c) <= 0
    ensures CompareOIDs(a, c) <= 0
    ensures CompareOIDs(a, b) < 0 || CompareOIDs(b, c) < 0 ==> CompareOIDs(a, c) < 0
  {
    hide WellFormed, CanonicalOID;
    CompareOIDsIsArcOrder(a, b);
    CompareOIDsIsArcOrder(b, c);
    CompareOIDsIsArcOrder(a, c);
    CompareTransitive(Arcs(CanonicalOID(a)), Arcs(CanonicalOID(b)), Arcs(CanonicalOID(c)));
  }

  lemma OrderIsTransitive(a: string, b: string, c: string)
    requires Canonical(a) && Canonical(b) && Canonical(c)
    requires CompareOIDs(a, b) <= 0 && CompareOIDs(b, c) <= 0
    ensures CompareOIDs(a, c) <= 0
    ensures CompareOIDs(a, b) < 0 || CompareOIDs(b, c) < 0 ==> CompareOIDs(a, c) < 0
  {
    hide Split, CanonicalOID, ParseUint, CompareOIDs;
    CanonicalOIDFixes(a);
    CanonicalOIDFixes(b);
    CanonicalOIDFixes(c);
    WellFormedOrderIsTransitive(a, b, c);
  }

  /** With an arc that does not parse the fallback to text makes a cycle: 9 < 10 < 1x < 9. */
  lemma MalformedArcsCycle()
    ensures OIDLess("9", "10") && OIDLess("10", "1x") && OIDLess("1x", "9")
    ensures !WellFormed("1x")
  {
    CanonicalOIDOfOneArc();
    SplitSingle("9");
    SplitSingle("10");
    SplitSingle("1x");
    hide Split, CanonicalOID;
    assert ParseUint("9") == Some(9);
    assert ParseUint("10") == Some(10) by {
      assert "10"[..1] == "1" && DecimalValue("1") == 1;
    }
    assert ParseUint("1x") == None by {
      assert !IsDigit("1x"[1]);
    }
    assert CompareText("10", "1x") == -1 by {
      assert Codes("10") == [49, 48] && Codes("1x") == [49, 120];
      assert Codes("10")[1..] == [48] && Codes("1x")[1..] == [120];
    }
    assert CompareText("1x", "9") == -1 by {
      assert Codes("1x") == [49, 120] && Codes("9") == [57];
    }
    assert "1x" in Split("1x");
  }

  lemma CanonicalOIDOfOneArc()
    ensures CanonicalOID("9") == "9" && CanonicalOID("10") == "10" && CanonicalOID("1x") == "1x"
  {
  }

  // ----- subtrees (rowIndex) -----

  function RowIndex(column: string, oid: string): Option<string> {
    var c, o := CanonicalOID(column), CanonicalOID(oid);
    if c + "." <= o then Some(o[|c| + 1..]) else None
  }

  /** `oid` lies strictly below `column`. */
  predicate Under(column: string, oid: string) {
    RowIndex(column, oid).Some?
  }

  lemma ArcsConcat(c: string, rest: string)
    requires WellFormed(c + "." + rest)
    ensures WellFormed(c) && WellFormed(rest)
    ensures Arcs(c + "." + rest) == Arcs(c) + Arcs(rest)
  {
    SplitConcat(c, rest);
  }

  /** The string test holds exactly on proper arc prefixes, and the index completes the column. */
  lemma RowIndexIsArcPrefix(c: string, o: string)
    requires Canonical(c) && Canonical(o)
    ensures Under(c, o) <==> Arcs(c) < Arcs(o)
    ensures Under(c, o) ==> c + "." + RowIndex(c, o).value == o && Canonical(RowIndex(c, o).value)
  {
    CanonicalOIDFixes(c);
    CanonicalOIDFixes(o);
    if Under(c, o) {
      RowIndexSplits(c, o, RowIndex(c, o).value);
    }
    if Arcs(c) < Arcs(o) {
      ArcPrefixIsTextPrefix(c, o);
    }
  }

  lemma RowIndexSplits(c: string, o: string, index: string)
    requires Canonical(c) && Canonical(o) && o == c + "." + index
    ensures Arcs(c) < Arcs(o) && Canonical(index)
  {
    SplitConcat(c, index);
    ArcsConcat(c, index);
  }

  lemma ArcPrefixIsTextPrefix(c: string, o: string)
    requires Canonical(c) && Canonical(o) && Arcs(c) < Arcs(o)
    ensures c + "." <= o
  {
    var p, q := Split(c), Split(o);
    forall i | 0 <= i < |p|
      ensures p[i] == q[i]
    {
      assert Arcs(c)[i] == Arcs(o)[i] && p[i] in p && q[i] in q;
      CanonicalArcInjective(p[i], q[i]);
    }
    assert q == p + q[|p|..];
    JoinSplit(c);
    JoinSplit(o);
    JoinConcat(p, q[|p|..]);
  }

  lemma {:induction false} JoinConcat(p: seq<string>, q: seq<string>)
    requires |p| >= 1 && |q| >= 1
    ensures Join(p + q) == Join(p) + "." + Join(q)
  {
    if |p| == 1 {
      assert (p + q)[1..] == q;
    } else {
      assert (p + q)[1..] == p[1..] + q;
      JoinConcat(p[1..], q);
      calc {
        Join(p + q);
        p[0] + "." + (Join(p[1..]) + "." + Join(q));
        (p[0] + "." + Join(p[1..])) + "." + Join(q);
      }
    }
  }

  /** Within a column the index names the row: two rows with one index are one OID. */
  lemma RowIndexInjective(c: string, a: string, b: string)
    requires Canonical(c) && Canonical(a) && Canonical(b)
    requires Under(c, a) && Under(c, b) && RowIndex(c, a) == RowIndex(c, b)
    ensures a == b
  {
    RowIndexIsArcPrefix(c, a);
    RowIndexIsArcPrefix(c, b);
  }

  lemma RootBeforeRows(c: string, o: string)
    requires Canonical(c) && Canonical(o) && Under(c, o)
    ensures OIDLess(c, o)
  {
    hide Split, CanonicalOID, ParseUint;
    RowIndexIsArcPrefix(c, o);
    CanonicalOIDFixes(c);
    CanonicalOIDFixes(o);
    PrefixFirst(Arcs(c), Arcs(o));
    CompareOIDsIsArcOrder(c, o);
  }

  /** A subtree is an interval: what lies between its root or a row and another row is a row. */
  lemma SubtreeIsInterval(c: string, a: string, m: string, b: string)
    requires Canonical(c) && Canonical(a) && Canonical(m) && Canonical(b)
    requires (a == c || Under(c, a)) && Under(c, b)
    requires OIDLess(a, m) && CompareOIDs(m, b) <= 0
    ensures Under(c, m)
  {
    hide Split, CanonicalOID, ParseUint;
    RowIndexIsArcPrefix(c, a);
    RowIndexIsArcPrefix(c, b);
    RowIndexIsArcPrefix(c, m);
    CanonicalOIDFixes(a);
    CanonicalOIDFixes(m);
    CanonicalOIDFixes(b);
    CompareOIDsIsArcOrder(a, m);
    CompareOIDsIsArcOrder(m, b);
    PrefixConvex(Arcs(c), Arcs(a), Arcs(m), Arcs(b));
    if Arcs(c) == Arcs(m) {
      ArcsInjective(c, m);
      if a == c {
        OrderIsTotal(a, m);
      } else {
        RootBeforeRows(c, a);
        OrderIsTotal(c, a);
      }
    }
  }

  /** Two columns that share a row are the same column, or one is nested in the other. */
  lemma SharedRowMeansNested(c: string, d: string, o: string)
    requires Canonical(c) && Canonical(d) && Canonical(o)
    requires Under(c, o) && Under(d, o)
    ensures c == d || Under(c, d) || Under(d, c)
  {
    hide Split, CanonicalOID, ParseUint;
    RowIndexIsArcPrefix(c, o);
    RowIndexIsArcPrefix(d, o);
    RowIndexIsArcPrefix(c, d);
    RowIndexIsArcPrefix(d, c);
    if |Arcs(c)| == |Arcs(d)| {
      assert Arcs(c) == Arcs(o)[..|Arcs(c)|] == Arcs(d);
      ArcsInjective(c, d);
    } else if |Arcs(c)| < |Arcs(d)| {
      assert Arcs(c) == Arcs(d)[..|Arcs(c)|];
    } else {
      assert Arcs(d) == Arcs(c)[..|Arcs(d)|];
    }
  }

  lemma {:induction false} LeastOid(oids: set<string>) returns (least: string)
    requires oids != {} && forall o :: o in oids ==> Canonical(o)
    ensures least in oids && forall o :: o in oids ==> CompareOIDs(least, o) <= 0
  {
    hide Canonical, CompareOIDs;
    var o :| o in oids;
    least := o;
    OrderIsTotal(o, o);
    var rest := oids - {o};
    if rest != {} {
      var m := LeastOid(rest);
      OrderIsTotal(o, m);
      OrderIsTotal(m, o);
      if CompareOIDs(o, m) > 0 {
        least := m;
      } else {
        forall x | x in rest
          ensures CompareOIDs(o, x) <= 0
        {
          OrderIsTransitive(o, m, x);
        }
      }
    }
  }
}
