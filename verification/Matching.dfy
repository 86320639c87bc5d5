/** Choosing a profile for a device: the sysObjectID index and Match of internal/profile/match.go. */
module Matching {
  import opened Wrappers
  import opened Collections
  import opened Order
  import opened Sorting
  import opened Oid
  import opened Patterns
  import opened Inheritance

  /** One profile claiming one pattern. */
  datatype Claim = Claim(pattern: string, profile: string, user: bool)

  predicate IsAbstract(name: string) {
    "_" <= name
  }

  function ClaimsOfProfile(patterns: seq<string>, name: string, user: bool): seq<Claim> {
    if patterns == [] then []
    else
      var p := TrimSpace(patterns[0]);
      (if p == "" then [] else [Claim(p, name, user)]) + ClaimsOfProfile(patterns[1..], name, user)
  }

  function ClaimsOfName(lib: Library, fromUser: set<string>, name: string): seq<Claim> {
    if name !in lib || IsAbstract(name) then [] else ClaimsOfProfile(lib[name].sysObjectIDs, name, name in fromUser)
  }

  /** All claims, with the profiles visited in some order. */
  function ClaimsOf(lib: Library, fromUser: set<string>, names: seq<string>): seq<Claim> {
    if names == [] then [] else ClaimsOfName(lib, fromUser, names[0]) + ClaimsOf(lib, fromUser, names[1..])
  }

  function ForPattern(claims: seq<Claim>, pattern: string): (r: seq<Claim>)
    ensures forall c :: c in r <==> c in claims && c.pattern == pattern
  {
    if claims == [] then []
    else (if claims[0].pattern == pattern then [claims[0]] else []) + ForPattern(claims[1..], pattern)
  }

  function PatternsOf(claims: seq<Claim>): set<string> {
    set c | c in claims :: c.pattern
  }

  // ----- pickForPattern -----

  /** User profiles first, then by name. */
  predicate ClaimLe(a: Claim, b: Claim) {
    if a.user != b.user then a.user else TextLe(a.profile, b.profile)
  }

  lemma ClaimLeTotal(a: Claim, b: Claim)
    ensures ClaimLe(a, b) || ClaimLe(b, a)
    ensures a.pattern == b.pattern && ClaimLe(a, b) && ClaimLe(b, a) ==> a == b
  {
    hide CompareText;
    TextLeTotal(a.profile, b.profile);
  }

  lemma ClaimLeTransitive(a: Claim, b: Claim, c: Claim)
    requires ClaimLe(a, b) && ClaimLe(b, c)
    ensures ClaimLe(a, c)
  {
    hide CompareText;
    if a.user == b.user == c.user {
      TextLeTransitive(a.profile, b.profile, c.profile);
    }
  }

  lemma ClaimsAreOrdered()
    ensures TotalOrder(ClaimLe)
  {
    hide ClaimLe;
    forall a, b
      ensures ClaimLe(a, b) || ClaimLe(b, a)
    {
      ClaimLeTotal(a, b);
    }
    forall a, b, c | ClaimLe(a, b) && ClaimLe(b, c)
      ensures ClaimLe(a, c)
    {
      ClaimLeTransitive(a, b, c);
    }
  }

  function ProfileNames(claims: seq<Claim>): (r: seq<string>)
    ensures |r| == |claims|
  {
    seq(|claims|, i requires 0 <= i < |claims| => claims[i].profile)
  }

  /** The claim that wins a pattern, and the contenders when the win is ambiguous. */
  datatype Choice = Choice(winner: Claim, conflicting: seq<string>)

  function PickForPattern(candidates: seq<Claim>): Choice
    requires candidates != []
  {
    var sorted := Sort(candidates, ClaimLe);
    if |sorted| == 1 || (sorted[0].user && !sorted[1].user) then Choice(sorted[0], [])
    else Choice(sorted[0], ProfileNames(sorted))
  }

  function CountUsers(claims: seq<Claim>): nat {
    if claims == [] then 0 else (if claims[0].user then 1 else 0) + CountUsers(claims[1..])
  }

  /** In sorted order the user claims come first. */
  lemma {:induction false} UsersLead(s: seq<Claim>)
    requires Sorted(s, ClaimLe)
    ensures CountUsers(s) <= |s|
    ensures forall i :: 0 <= i < |s| ==> (s[i].user <==> i < CountUsers(s))
  {
    if s != [] {
      UsersLead(s[1..]);
      if !s[0].user {
        assert forall i :: 1 <= i < |s| ==> !s[i].user;
        assert |s| > 1 ==> !s[1..][0].user;
      }
      forall i | 0 <= i < |s|
        ensures s[i].user <==> i < CountUsers(s)
      {
        assert i > 0 ==> s[i] == s[1..][i - 1];
      }
    }
  }

  lemma {:induction false} CountUsersOfInsert(c: Claim, s: seq<Claim>)
    ensures CountUsers(Insert(c, s, ClaimLe)) == (if c.user then 1 else 0) + CountUsers(s)
  {
    if s != [] && !ClaimLe(c, s[0]) {
      CountUsersOfInsert(c, s[1..]);
      assert ([s[0]] + Insert(c, s[1..], ClaimLe))[1..] == Insert(c, s[1..], ClaimLe);
    } else {
      assert ([c] + s)[1..] == s;
    }
  }

  lemma {:induction false} CountUsersOfSort(s: seq<Claim>)
    ensures CountUsers(Sort(s, ClaimLe)) == CountUsers(s)
  {
    if s != [] {
      CountUsersOfSort(s[1..]);
      CountUsersOfInsert(s[0], Sort(s[1..], ClaimLe));
    }
  }

  /**
   * A pattern is ambiguous exactly when two user claims compete, or there is no user claim and two others do. (A
   * profile that lists a pattern twice competes with itself.) Otherwise the only user claim wins, or the only claim.
   */
  lemma AmbiguousIff(candidates: seq<Claim>)
    requires candidates != []
    ensures var choice := PickForPattern(candidates);
      && choice.winner in candidates
      && (choice.conflicting != [] <==>
            CountUsers(candidates) > 1 || (CountUsers(candidates) == 0 && |candidates| > 1))
      && (CountUsers(candidates) > 0 ==> choice.winner.user)
  {
    hide ClaimLe;
    var sorted := Sort(candidates, ClaimLe);
    ClaimsAreOrdered();
    SortSorts(candidates, ClaimLe);
    CountUsersOfSort(candidates);
    UsersLead(sorted);
    assert sorted[0] in multiset(sorted);
    assert sorted[0] in multiset(candidates);
  }

  lemma PickIgnoresOrder(a: seq<Claim>, b: seq<Claim>, pattern: string)
    requires a != [] && b != [] && multiset(a) == multiset(b) && forall c :: c in a ==> c.pattern == pattern
    ensures PickForPattern(a) == PickForPattern(b)
  {
    ClaimsAreOrdered();
    hide ClaimLe;
    forall x, y | x in a && y in a && ClaimLe(x, y) && ClaimLe(y, x)
      ensures x == y
    {
      ClaimLeTotal(x, y);
    }
    SortForgetsOrder(a, b, ClaimLe);
  }

  // ----- matching -----

  /** filepath.Match for patterns of literals and '*', which matches any run of characters other than '/'. */
  predicate Glob(pattern: string, s: string)
    decreases |pattern| + |s|
  {
    if pattern == "" then s == ""
    else if pattern[0] == '*' then Glob(pattern[1..], s) || (s != "" && s[0] != '/' && Glob(pattern, s[1..]))
    else s != "" && s[0] == pattern[0] && Glob(pattern[1..], s[1..])
  }

  function Candidates(claims: seq<Claim>, s: string): set<string> {
    set p | p in PatternsOf(claims) && Glob(p, s)
  }

  ghost predicate MostSpecific(patterns: set<string>, best: string) {
    best in patterns && forall p :: p in patterns ==> ComparePatterns(best, p) >= 0
  }

  lemma {:induction false} MostSpecificExists(patterns: set<string>)
    requires patterns != {}
    ensures exists best :: MostSpecific(patterns, best)
  {
    hide ComparePatterns;
    var p :| p in patterns;
    PatternOrderIsTotal(p, p);
    var rest := patterns - {p};
    if rest == {} {
      assert patterns == {p};
      assert MostSpecific(patterns, p);
    } else {
      MostSpecificExists(rest);
      var m :| MostSpecific(rest, m);
      PatternOrderIsTotal(p, m);
      PatternOrderIsTotal(m, p);
      if ComparePatterns(p, m) >= 0 {
        forall q | q in patterns
          ensures ComparePatterns(p, q) >= 0
        {
          if q != p {
            PatternOrderIsTransitive(p, m, q);
          }
        }
        assert MostSpecific(patterns, p);
      } else {
        assert MostSpecific(patterns, m);
      }
    }
  }

  lemma MostSpecificIsUnique(patterns: set<string>, a: string, b: string)
    requires MostSpecific(patterns, a) && MostSpecific(patterns, b)
    ensures a == b
  {
    hide ComparePatterns;
    PatternOrderIsTotal(a, b);
    PatternOrderIsTotal(b, a);
  }

  ghost function Best(patterns: set<string>): (best: string)
    requires patterns != {}
    ensures MostSpecific(patterns, best)
  {
    MostSpecificExists(patterns);
    var best :| MostSpecific(patterns, best);
    best
  }

  datatype Outcome = Matched(profile: string) | EmptyID | NoMatch | Ambiguous(pattern: string, names: seq<string>)

  function CleanID(sysObjectID: string): string {
    TrimSpace(TrimPrefix(sysObjectID, "."))
  }

  lemma CandidatesClaimed(claims: seq<Claim>, s: string)
    ensures forall p :: p in Candidates(claims, s) ==> ForPattern(claims, p) != []
  {
    hide Glob;
    forall p | p in Candidates(claims, s)
      ensures ForPattern(claims, p) != []
    {
      var c :| c in claims && c.pattern == p;
      assert c in ForPattern(claims, p);
    }
  }

  /** What Match answers, as a function of the claims. */
  ghost function MatchOf(claims: seq<Claim>, sysObjectID: string): Outcome {
    var s := CleanID(sysObjectID);
    var candidates := Candidates(claims, s);
    if s == "" then EmptyID
    else if candidates == {} then NoMatch
    else
      CandidatesClaimed(claims, s);
      var best := Best(candidates);
      var choice := PickForPattern(ForPattern(claims, best));
      if choice.conflicting != [] then Ambiguous(best, choice.conflicting) else Matched(choice.winner.profile)
  }

  // ----- who may be matched -----

  /** A pattern declared by a profile that may be matched. */
  ghost predicate Declares(lib: Library, name: string, pattern: string) {
    && name in lib && (name == "" || name[0] != '_')
    && pattern != "" && exists p :: p in lib[name].sysObjectIDs && TrimsTo(p, pattern)
  }

  lemma {:induction false} ClaimsOfProfileAre(patterns: seq<string>, name: string, user: bool, c: Claim)
    ensures c in ClaimsOfProfile(patterns, name, user) <==>
            c.profile == name && c.user == user && c.pattern != "" && exists p :: p in patterns && TrimsTo(p, c.pattern)
  {
    hide TrimSpace, TrimsTo;
    if patterns != [] {
      TrimSpaceIff(patterns[0], c.pattern);
      ClaimsOfProfileAre(patterns[1..], name, user, c);
      assert forall p :: p in patterns <==> p == patterns[0] || p in patterns[1..];
    }
  }

  /** The claims are exactly the declared patterns of the profiles that are not abstract. */
  lemma {:induction false} ClaimsAreDeclared(lib: Library, fromUser: set<string>, names: seq<string>, c: Claim)
    ensures c in ClaimsOf(lib, fromUser, names) <==>
            c.profile in names && Declares(lib, c.profile, c.pattern) && c.user == (c.profile in fromUser)
  {
    hide ClaimsOfProfile, TrimsTo;
    if names != [] {
      ClaimsAreDeclared(lib, fromUser, names[1..], c);
      if names[0] in lib {
        ClaimsOfProfileAre(lib[names[0]].sysObjectIDs, names[0], names[0] in fromUser, c);
      }
    }
  }

  /**
   * A matched profile is one that is not abstract and declares a pattern covering the device; and there is no match
   * exactly when no such profile does.
   */
  lemma MatchedProfileDeclaresIt(lib: Library, fromUser: set<string>, names: seq<string>, sysObjectID: string)
    requires CleanID(sysObjectID) != ""
    ensures
      var outcome, s := MatchOf(ClaimsOf(lib, fromUser, names), sysObjectID), CleanID(sysObjectID);
      && (outcome.Matched? ==> outcome.profile in names && exists p :: Declares(lib, outcome.profile, p) && Glob(p, s))
      && (outcome.NoMatch? <==> forall n, p :: n in names && Declares(lib, n, p) ==> !Glob(p, s))
  {
    hide Glob, CleanID, PickForPattern, Declares, ClaimsOf;
    var claims, s := ClaimsOf(lib, fromUser, names), CleanID(sysObjectID);
    forall n, p | n in names && Declares(lib, n, p) && Glob(p, s)
      ensures p in Candidates(claims, s)
    {
      ClaimsAreDeclared(lib, fromUser, names, Claim(p, n, n in fromUser));
    }
    if Candidates(claims, s) != {} {
      CandidatesClaimed(claims, s);
      var best := Best(Candidates(claims, s));
      AmbiguousIff(ForPattern(claims, best));
      var winner := PickForPattern(ForPattern(claims, best)).winner;
      ClaimsAreDeclared(lib, fromUser, names, winner);
      assert Declares(lib, winner.profile, best) && Glob(best, s);
    }
  }

  // ----- the answer does not depend on the order profiles were visited in -----

  lemma {:induction false} MultisetOfForPattern(claims: seq<Claim>, pattern: string)
    ensures forall c :: multiset(ForPattern(claims, pattern))[c] == if c.pattern == pattern then multiset(claims)[c] else 0
  {
    if claims != [] {
      MultisetOfForPattern(claims[1..], pattern);
      assert claims == [claims[0]] + claims[1..];
    }
  }

  lemma SameClaimsSamePatterns(a: seq<Claim>, b: seq<Claim>)
    requires multiset(a) == multiset(b)
    ensures PatternsOf(a) == PatternsOf(b)
  {
    forall c
      ensures c in a <==> c in b
    {
      assert c in a <==> c in multiset(a);
      assert c in b <==> c in multiset(b);
    }
  }

  lemma SameClaimsForPattern(a: seq<Claim>, b: seq<Claim>, pattern: string)
    requires multiset(a) == multiset(b)
    ensures multiset(ForPattern(a, pattern)) == multiset(ForPattern(b, pattern))
  {
    MultisetOfForPattern(a, pattern);
    MultisetOfForPattern(b, pattern);
  }

  lemma MatchIgnoresClaimOrder(a: seq<Claim>, b: seq<Claim>, sysObjectID: string)
    requires multiset(a) == multiset(b)
    ensures MatchOf(a, sysObjectID) == MatchOf(b, sysObjectID)
  {
    hide Glob, ComparePatterns, PickForPattern, CleanID, ForPattern;
    var s := CleanID(sysObjectID);
    SameClaimsSamePatterns(a, b);
    assert Candidates(a, s) == Candidates(b, s);
    hide Candidates, PatternsOf;
    if Candidates(a, s) != {} {
      CandidatesClaimed(a, s);
      CandidatesClaimed(b, s);
      var best := Best(Candidates(a, s));
      MostSpecificIsUnique(Candidates(a, s), best, Best(Candidates(b, s)));
      SameClaimsForPattern(a, b, best);
      PickIgnoresOrder(ForPattern(a, best), ForPattern(b, best), best);
    }
  }

  lemma {:induction false} ClaimsOfConcat(lib: Library, fromUser: set<string>, a: seq<string>, b: seq<string>)
    ensures ClaimsOf(lib, fromUser, a + b) == ClaimsOf(lib, fromUser, a) + ClaimsOf(lib, fromUser, b)
  {
    hide ClaimsOfName;
    if a == [] {
      assert a + b == b;
    } else {
      assert (a + b)[1..] == a[1..] + b;
      ClaimsOfConcat(lib, fromUser, a[1..], b);
    }
  }

  lemma ClaimsWithFirst(lib: Library, fromUser: set<string>, x: seq<string>, name: string, y: seq<string>)
    ensures multiset(ClaimsOf(lib, fromUser, x + ([name] + y))) ==
            multiset(ClaimsOfName(lib, fromUser, name)) + multiset(ClaimsOf(lib, fromUser, x + y))
  {
    hide ClaimsOfName;
    ClaimsOfConcat(lib, fromUser, x, [name] + y);
    ClaimsOfConcat(lib, fromUser, x, y);
    assert ([name] + y)[1..] == y;
  }

  lemma {:induction false} ClaimsIgnoreVisitingOrder(lib: Library, fromUser: set<string>, a: seq<string>, b: seq<string>)
    requires multiset(a) == multiset(b)
    ensures multiset(ClaimsOf(lib, fromUser, a)) == multiset(ClaimsOf(lib, fromUser, b))
  {
    hide ClaimsOf, ClaimsOfName;
    if a == [] {
      assert |multiset(b)| == 0;
      assert b == a;
    } else {
      var x, y := HeadElsewhere(a, b);
      ClaimsIgnoreVisitingOrder(lib, fromUser, a[1..], x + y);
      ClaimsWithFirst(lib, fromUser, x, a[0], y);
      ClaimsWithFirst(lib, fromUser, [], a[0], a[1..]);
      assert [] + ([a[0]] + a[1..]) == a && [] + a[1..] == a[1..];
    }
  }

  /** Go visits the profiles in random map order; the answer is the same for every order. */
  lemma MatchIgnoresMapOrder(lib: Library, fromUser: set<string>, a: seq<string>, b: seq<string>, sysObjectID: string)
    requires multiset(a) == multiset(b)
    ensures MatchOf(ClaimsOf(lib, fromUser, a), sysObjectID) == MatchOf(ClaimsOf(lib, fromUser, b), sysObjectID)
  {
    hide MatchOf, ClaimsOf;
    ClaimsIgnoreVisitingOrder(lib, fromUser, a, b);
    MatchIgnoresClaimOrder(ClaimsOf(lib, fromUser, a), ClaimsOf(lib, fromUser, b), sysObjectID);
  }

  // ----- for the shipped kinds of pattern it is longest-prefix match -----

  predicate Plain(s: string) {
    forall c :: c in s ==> c != '*' && c != '/'
  }

  /** A pattern that ends in ".*" covers everything below its prefix. */
  function Below(prefix: string): string {
    prefix + ".*"
  }

  lemma PlainSuffix(s: string, n: nat)
    requires Plain(s) && n <= |s|
    ensures Plain(s[n..])
  {
    forall c | c in s[n..]
      ensures c in s
    {
    }
  }

  ghost predicate Simple(pattern: string) {
    Plain(pattern) || exists q :: Plain(q) && pattern == Below(q)
  }

  lemma {:induction false} GlobLiteral(p: string, tail: string, s: string)
    requires Plain(p)
    ensures Glob(p + tail, s) <==> p <= s && Glob(tail, s[|p|..])
  {
    if p == "" {
      assert p + tail == tail && s[0..] == s;
    } else {
      assert p[0] in p && (p + tail)[1..] == p[1..] + tail;
      forall c | c in p[1..]
        ensures c in p
      {
      }
      if s != "" && s[0] == p[0] {
        GlobLiteral(p[1..], tail, s[1..]);
        assert p == [p[0]] + p[1..] && s == [s[0]] + s[1..];
        if p <= s {
          assert s[1..][|p| - 1..] == s[|p|..];
        }
      }
    }
  }

  lemma {:induction false} GlobStar(s: string)
    requires Plain(s)
    ensures Glob("*", s)
  {
    if s == "" {
      assert "*"[1..] == "";
    } else {
      assert s[0] in s;
      forall c | c in s[1..]
        ensures c in s
      {
      }
      GlobStar(s[1..]);
    }
  }

  /** A star stands for any run of characters but '/'. */
  lemma {:induction false} GlobStarIff(q: string, s: string)
    ensures Glob("*" + q, s) <==> exists n: nat :: GlobAfter(q, s, n)
  {
    assert ("*" + q)[1..] == q && s[0..] == s && s[..0] == "";
    assert GlobAfter(q, s, 0) <==> Glob(q, s);
    UnfoldStar(q, s);
    if s != "" {
      GlobStarIff(q, s[1..]);
      hide GlobAfter, Glob;
      if n: nat :| GlobAfter(q, s[1..], n) {
        OneMoreCharacter(q, s, n);
      }
      if n: nat :| n > 0 && GlobAfter(q, s, n) {
        OneMoreCharacter(q, s, n - 1);
      }
    }
  }

  /** The star takes the first `n` characters. */
  predicate GlobAfter(q: string, s: string, n: nat) {
    n <= |s| && '/' !in s[..n] && Glob(q, s[n..])
  }

  lemma OneMoreCharacter(q: string, s: string, n: nat)
    requires s != ""
    ensures GlobAfter(q, s, n + 1) <==> s[0] != '/' && GlobAfter(q, s[1..], n)
  {
    hide Glob;
    if n < |s| {
      assert s[..n + 1] == [s[0]] + s[1..][..n] && s[n + 1..] == s[1..][n..];
    }
  }

  lemma UnfoldStar(q: string, s: string)
    ensures Glob("*" + q, s) <==> Glob(q, s) || (s != "" && s[0] != '/' && Glob("*" + q, s[1..]))
  {
    assert ("*" + q)[1..] == q;
  }

  /** A plain pattern matches itself only; a covering pattern matches what extends its prefix by a dot. */
  lemma GlobOfSimple(q: string, s: string)
    requires Plain(q) && Plain(s)
    ensures Glob(q, s) <==> q == s
    ensures Glob(Below(q), s) <==> q + "." <= s
  {
    GlobLiteral(q, "", s);
    assert q + "" == q;
    GlobLiteral(q + ".", "*", s);
    assert (q + ".") + "*" == Below(q);
    if q + "." <= s {
      var rest := s[|q| + 1..];
      PlainSuffix(s, |q| + 1);
      GlobStar(rest);
    }
  }

  /** The exact pattern is more specific than any covering one, and a longer prefix than a shorter. */
  lemma SpecificityOfPrefixes(q: string, s: string)
    requires Plain(q) && Plain(s) && q + "." <= s
    ensures ComparePatterns(s, Below(q)) > 0
    ensures forall r :: Plain(r) && r + "." <= s && |r| < |q| ==> ComparePatterns(Below(q), Below(r)) > 0
  {
    var rest := s[|q| + 1..];
    assert s == q + "." + rest;
    PlainSuffix(s, |q| + 1);
    ExactBeatsCover(q, rest);
    forall r | Plain(r) && r + "." <= s && |r| < |q|
      ensures ComparePatterns(Below(q), Below(r)) > 0
    {
      var mid := q[|r| + 1..];
      assert q[|r|] == s[|r|] == '.' && q[..|r|] == s[..|r|] == r;
      assert q == r + "." + mid;
      LongerCoverWins(r, mid);
    }
  }

  lemma SplitOfCover(q: string)
    ensures Split(Below(q)) == Split(q) + ["*"]
  {
    SplitConcat(q, "*");
    SplitSingle("*");
    assert q + "." + "*" == Below(q);
  }

  lemma LongerCoverWins(r: string, mid: string)
    ensures ComparePatterns(Below(r + "." + mid), Below(r)) > 0
  {
    hide Split;
    SplitOfCover(r);
    SplitOfCover(r + "." + mid);
    SplitConcat(r, mid);
  }

  lemma ExactBeatsCover(q: string, rest: string)
    requires Plain(rest)
    ensures ComparePatterns(q + "." + rest, Below(q)) > 0
  {
    hide Split;
    SplitOfCover(q);
    SplitConcat(q, rest);
    var s, pa, pb := q + "." + rest, Split(q + "." + rest), Split(Below(q));
    if |Split(rest)| == 1 {
      JoinSplit(rest);
      assert Split(rest)[0] == rest;
      assert '*' !in rest && "*"[0] in "*";
      FirstDifferenceIsLast(Split(q), rest, "*", 0);
      assert pa == Split(q) + [rest] && pb == Split(q) + ["*"];
      assert pa[|Split(q)|] == rest && pb[|Split(q)|] == "*";
      assert FirstDifference(pa, pb, 0) == |Split(q)|;
      assert Wild("*") && !Wild(rest);
    }
  }

  lemma {:induction false} FirstDifferenceIsLast(common: seq<string>, a: string, b: string, i: nat)
    requires i <= |common| && a != b
    ensures FirstDifference(common + [a], common + [b], i) == |common|
    decreases |common| - i
  {
    if i < |common| {
      FirstDifferenceIsLast(common, a, b, i + 1);
    }
  }

  /**
   * With plain and covering patterns only, the winning pattern is the device's own OID if some profile claims it,
   * and otherwise the covering pattern with the longest prefix; there is none exactly when nothing covers the OID.
   */
  lemma MatchIsLongestPrefix(claims: seq<Claim>, s: string)
    requires Plain(s) && forall p :: p in PatternsOf(claims) ==> Simple(p)
    ensures s in PatternsOf(claims) ==> Candidates(claims, s) != {} && Best(Candidates(claims, s)) == s
    ensures s !in PatternsOf(claims) && Candidates(claims, s) != {} ==>
      exists q :: Plain(q) && Best(Candidates(claims, s)) == Below(q) && q + "." <= s
        && forall r :: Plain(r) && Below(r) in PatternsOf(claims) && r + "." <= s ==> |r| <= |q|
    ensures Candidates(claims, s) == {} <==>
      s !in PatternsOf(claims) && forall r :: Plain(r) && Below(r) in PatternsOf(claims) ==> !(r + "." <= s)
  {
    hide Glob, ComparePatterns, PatternsOf, Plain;
    var candidates := Candidates(claims, s);
    GlobOfSimple(s, s);
    assert s in PatternsOf(claims) ==> s in candidates;
    forall r | Plain(r) && r + "." <= s
      ensures Below(r) in PatternsOf(claims) ==> Below(r) in candidates
    {
      GlobOfSimple(r, s);
    }
    forall p | p in candidates
      ensures p == s || exists q :: Plain(q) && p == Below(q) && q + "." <= s
    {
      CandidateIsPrefix(p, s);
    }
    if candidates != {} {
      var best := Best(candidates);
      if s in PatternsOf(claims) {
        if best != s {
          var q :| Plain(q) && best == Below(q) && q + "." <= s;
          SpecificityOfPrefixes(q, s);
          PatternOrderIsTotal(s, best);
        }
      } else {
        var q :| Plain(q) && best == Below(q) && q + "." <= s;
        forall r | Plain(r) && Below(r) in PatternsOf(claims) && r + "." <= s
          ensures |r| <= |q|
        {
          if |r| > |q| {
            SpecificityOfPrefixes(r, s);
            PatternOrderIsTotal(Below(r), best);
          }
        }
      }
    }
  }

  lemma CandidateIsPrefix(p: string, s: string)
    requires Plain(s) && Simple(p) && Glob(p, s)
    ensures p == s || exists q :: Plain(q) && p == Below(q) && q + "." <= s
  {
    hide Glob, Plain;
    if Plain(p) {
      GlobOfSimple(p, s);
    } else {
      var q :| Plain(q) && p == Below(q);
      GlobOfSimple(q, s);
    }
  }

  // ----- the answer itself -----

  /** One leading dot and surrounding space do not count; but space before the dot keeps the dot. */
  lemma CleanIDOf(a: string, s: string, b: string)
    requires Spaces(a) && Spaces(b) && Trimmed(s)
    ensures CleanID("." + a + s + b) == s
    ensures a != "" || !("." <= s + b) ==> CleanID(a + s + b) == s
  {
    TrimsUniquely(a, s, b);
    assert ("." + a + s + b)[1..] == a + s + b;
    if a != "" {
      assert a[0] in a && (a + s + b)[0] == a[0];
    } else {
      assert a + s + b == s + b;
    }
  }

  ghost predicate Covers(p: string, s: string) {
    p == s || exists q :: Plain(q) && p == Below(q) && q + "." <= s
  }

  /** The pattern that is the OID itself or, if none is, the longest of those that cover it. */
  ghost predicate Decisive(claims: seq<Claim>, s: string, w: string) {
    && w in PatternsOf(claims) && Covers(w, s)
    && forall p :: p in PatternsOf(claims) && Covers(p, s) && p != w ==> w == s || (p != s && |p| < |w|)
  }

  /** User claims first, then by name. */
  ghost predicate InReportOrder(claims: seq<Claim>) {
    forall i, j :: 0 <= i < j < |claims| ==>
      if claims[i].user == claims[j].user then TextLe(claims[i].profile, claims[j].profile) else claims[i].user
  }

  /** Two user claims on the pattern, or several and no user claim, are a conflict; else the user claim or the only one wins. */
  ghost predicate Settles(contenders: seq<Claim>, w: string, outcome: Outcome) {
    var users := CountUsers(contenders);
    if users > 1 || (users == 0 && |contenders| > 1) then
      exists order :: multiset(order) == multiset(contenders) && InReportOrder(order) && outcome == Ambiguous(w, ProfileNames(order))
    else
      exists c :: c in contenders && (c.user || users == 0) && outcome == Matched(c.profile)
  }

  lemma PickSettles(contenders: seq<Claim>, w: string)
    requires contenders != []
    ensures var choice := PickForPattern(contenders);
      Settles(contenders, w, if choice.conflicting != [] then Ambiguous(w, choice.conflicting) else Matched(choice.winner.profile))
  {
    AmbiguousIff(contenders);
    ClaimsAreOrdered();
    SortSorts(contenders, ClaimLe);
    var order := Sort(contenders, ClaimLe);
    hide TextLe, Sort;
    assert InReportOrder(order);
  }

  /**
   * What Match answers to a device's own text, with or without the leading dot, when every pattern is plain or covering:
   * empty, unmatched when nothing claimed is or covers the OID, and else what the decisive pattern's claims settle.
   */
  lemma MatchDecides(claims: seq<Claim>, text: string, s: string)
    requires Plain(s) && Trimmed(s) && ((text == s && !("." <= s)) || text == "." + s)
    requires forall p :: p in PatternsOf(claims) ==> Simple(p)
    ensures MatchOf(claims, text).EmptyID? <==> s == ""
    ensures s != "" ==> (MatchOf(claims, text).NoMatch? <==> forall p :: p in PatternsOf(claims) ==> !Covers(p, s))
    ensures s != "" && !MatchOf(claims, text).NoMatch? ==>
      exists w :: Decisive(claims, s, w) && Settles(ForPattern(claims, w), w, MatchOf(claims, text))
  {
    hide Glob, ComparePatterns, PatternsOf, Plain, PickForPattern, Settles, CleanID, Trimmed;
    CleanIDOf("", s, "");
    assert "" + s + "" == s && "." + "" + s + "" == "." + s && s + "" == s;
    CandidatesCover(claims, s);
    var candidates := Candidates(claims, s);
    if candidates != {} && s != "" {
      CandidatesClaimed(claims, s);
      var best := Best(candidates);
      BestIsDecisive(claims, s);
      PickSettles(ForPattern(claims, best), best);
    }
  }

  lemma CandidatesCover(claims: seq<Claim>, s: string)
    requires Plain(s) && forall p :: p in PatternsOf(claims) ==> Simple(p)
    ensures forall p :: p in Candidates(claims, s) <==> p in PatternsOf(claims) && Covers(p, s)
  {
    hide Glob, PatternsOf, Plain;
    forall p | p in PatternsOf(claims)
      ensures Glob(p, s) <==> Covers(p, s)
    {
      if Glob(p, s) {
        CandidateIsPrefix(p, s);
      }
      GlobOfSimple(s, s);
      if q :| Plain(q) && p == Below(q) && q + "." <= s {
        GlobOfSimple(q, s);
      }
    }
  }

  lemma BestIsDecisive(claims: seq<Claim>, s: string)
    requires Plain(s) && (forall p :: p in PatternsOf(claims) ==> Simple(p)) && Candidates(claims, s) != {}
    ensures Decisive(claims, s, Best(Candidates(claims, s)))
  {
    hide Glob, ComparePatterns, PatternsOf, Plain, Simple;
    CandidatesCover(claims, s);
    MatchIsLongestPrefix(claims, s);
    var best := Best(Candidates(claims, s));
    forall p | p in PatternsOf(claims) && Covers(p, s) && p != best && best != s
      ensures p != s && |p| < |best|
    {
      var q :| Plain(q) && best == Below(q) && q + "." <= s
        && forall r :: Plain(r) && Below(r) in PatternsOf(claims) && r + "." <= s ==> |r| <= |q|;
      var r :| Plain(r) && p == Below(r) && r + "." <= s;
      ShorterPrefix(q, r, s);
    }
  }

  lemma ShorterPrefix(q: string, r: string, s: string)
    requires q + "." <= s && r + "." <= s && |r| <= |q| && r != q
    ensures |Below(r)| < |Below(q)|
  {
    assert r == s[..|r|] && q == s[..|q|];
  }

  // ----- the index -----

  function Recorded(conflicts: map<string, seq<string>>, pattern: string): seq<string> {
    if pattern in conflicts then conflicts[pattern] else []
  }

  /** The pattern's winner is an entry, and its contenders are on record. */
  ghost predicate Indexed(claims: seq<Claim>, entries: seq<Claim>, conflicts: map<string, seq<string>>, p: string) {
    ForPattern(claims, p) != [] &&
    var choice := PickForPattern(ForPattern(claims, p));
    choice.winner in entries && Recorded(conflicts, p) == choice.conflicting
  }

  ghost predicate IsWinner(claims: seq<Claim>, e: Claim) {
    ForPattern(claims, e.pattern) != [] && e == PickForPattern(ForPattern(claims, e.pattern)).winner
  }

  function WithConflicts(conflicts: map<string, seq<string>>, p: string, names: seq<string>): map<string, seq<string>> {
    if |names| > 0 then conflicts[p := names] else conflicts
  }

  /** Recording one more pattern disturbs none recorded before. */
  lemma IndexedGrows(claims: seq<Claim>, entries: seq<Claim>, conflicts: map<string, seq<string>>, p: string, q: string)
    requires ForPattern(claims, p) != [] && p !in conflicts && (q == p || Indexed(claims, entries, conflicts, q))
    ensures var choice := PickForPattern(ForPattern(claims, p));
      Indexed(claims, entries + [choice.winner], WithConflicts(conflicts, p, choice.conflicting), q)
  {
    hide PickForPattern;
  }

  lemma WinnerOfPattern(claims: seq<Claim>, p: string)
    requires p in PatternsOf(claims)
    ensures ForPattern(claims, p) != []
    ensures var w := PickForPattern(ForPattern(claims, p)).winner; w.pattern == p && IsWinner(claims, w)
  {
    PatternIsClaimed(claims, p);
    AmbiguousIff(ForPattern(claims, p));
  }

  /** The index of the first `n` patterns. */
  ghost predicate Building(claims: seq<Claim>, patterns: seq<string>, n: nat, entries: seq<Claim>, conflicts: map<string, seq<string>>) {
    && n <= |patterns| && |entries| == n
    && (forall e :: e in entries ==> e.pattern in PatternsOf(claims) && IsWinner(claims, e))
    && (forall p :: p in patterns[..n] ==> Indexed(claims, entries, conflicts, p))
    && (forall p :: p in conflicts ==> p in patterns[..n] && conflicts[p] != [])
    && (forall j :: 0 <= j < n ==> entries[j].pattern == patterns[j])
  }

  lemma BuildingStarts(claims: seq<Claim>, patterns: seq<string>)
    ensures Building(claims, patterns, 0, [], map[])
  {
  }

  lemma BuildingGoesOn(claims: seq<Claim>, patterns: seq<string>, n: nat, entries: seq<Claim>, conflicts: map<string, seq<string>>)
    requires Building(claims, patterns, n, entries, conflicts) && n < |patterns| && Distinct(patterns) && patterns[n] in PatternsOf(claims)
    ensures ForPattern(claims, patterns[n]) != []
    ensures var choice := PickForPattern(ForPattern(claims, patterns[n]));
      Building(claims, patterns, n + 1, entries + [choice.winner], WithConflicts(conflicts, patterns[n], choice.conflicting))
  {
    hide PickForPattern, PatternsOf, Indexed, IsWinner, ForPattern;
    var p := patterns[n];
    assert patterns[..n + 1] == patterns[..n] + [p];
    WinnerOfPattern(claims, p);
    var choice := PickForPattern(ForPattern(claims, p));
    assert p !in conflicts;
    forall q | q in patterns[..n + 1]
      ensures Indexed(claims, entries + [choice.winner], WithConflicts(conflicts, p, choice.conflicting), q)
    {
      IndexedGrows(claims, entries, conflicts, p, q);
    }
  }

  lemma BuildingEnds(claims: seq<Claim>, patterns: seq<string>, entries: seq<Claim>, conflicts: map<string, seq<string>>)
    requires Building(claims, patterns, |patterns|, entries, conflicts)
    ensures |entries| == |patterns| && forall j :: 0 <= j < |entries| ==> entries[j].pattern == patterns[j]
    ensures forall e :: e in entries ==> e.pattern in PatternsOf(claims) && IsWinner(claims, e)
    ensures forall p :: p in patterns ==> Indexed(claims, entries, conflicts, p)
    ensures forall p :: p in conflicts ==> p in patterns && conflicts[p] != []
  {
    hide PatternsOf, Indexed, IsWinner;
    assert patterns[..|patterns|] == patterns;
  }

  /** One entry per pattern in text order, and the contenders of the ambiguous patterns. */
  class SysObjectIDIndex {
    var entries: seq<Claim>
    var conflicts: map<string, seq<string>>

    /** The index answers for these claims: the winner of every pattern, and the contenders of the ambiguous ones. */
    ghost predicate Holds(claims: seq<Claim>)
      reads this
    {
      && (forall e :: e in entries ==> e.pattern in PatternsOf(claims) && IsWinner(claims, e))
      && (forall p :: p in PatternsOf(claims) ==> Indexed(claims, entries, conflicts, p))
    }

    /** Nothing else is in it: one entry per pattern, in text order, and contenders of ambiguous patterns only. */
    ghost predicate Tidy(claims: seq<Claim>)
      reads this
    {
      && |entries| == |SortedKeys(PatternsOf(claims))|
      && (forall i :: 0 <= i < |entries| ==> entries[i].pattern == SortedKeys(PatternsOf(claims))[i])
      && (forall p :: p in conflicts ==> p in PatternsOf(claims) && conflicts[p] != [])
    }

    /** buildSysObjectIDIndex, from the claims in whatever order they were collected. */
    constructor (claims: seq<Claim>)
      ensures Holds(claims) && Tidy(claims)
    {
      entries, conflicts := [], map[];
      new;
      var patterns := SortedKeys(PatternsOf(claims));
      hide PickForPattern, SortedKeys, PatternsOf, Building;
      BuildingStarts(claims, patterns);
      var i := 0;
      while i < |patterns|
        invariant 0 <= i <= |patterns|
        invariant Building(claims, patterns, i, entries, conflicts)
      {
        assert patterns[i] in patterns;
        BuildingGoesOn(claims, patterns, i, entries, conflicts);
        var choice := PickForPattern(ForPattern(claims, patterns[i]));
        entries := entries + [choice.winner];
        conflicts := WithConflicts(conflicts, patterns[i], choice.conflicting);
        i := i + 1;
      }
      BuildingEnds(claims, patterns, entries, conflicts);
    }

    /** Match: the most specific matching entry, unless its pattern is ambiguous. */
    method Match(sysObjectID: string, ghost claims: seq<Claim>) returns (outcome: Outcome)
      requires Holds(claims)
      ensures outcome == MatchOf(claims, sysObjectID)
    {
      hide Glob, ComparePatterns, PickForPattern, PatternsOf;
      var s := CleanID(sysObjectID);
      if s == "" {
        return EmptyID;
      }
      hide CleanID;
      var best: Option<Claim> := None;
      var i := 0;
      while i < |entries|
        invariant 0 <= i <= |entries|
        invariant best.Some? ==> best.value in entries && Glob(best.value.pattern, s)
        invariant forall e :: e in entries[..i] && Glob(e.pattern, s) ==>
          best.Some? && ComparePatterns(best.value.pattern, e.pattern) >= 0
      {
        var e := entries[i];
        assert entries[..i + 1] == entries[..i] + [e];
        if Glob(e.pattern, s) {
          PatternOrderIsTotal(e.pattern, e.pattern);
          if best.None? || ComparePatterns(e.pattern, best.value.pattern) > 0 {
            if best.Some? {
              StillBeats(entries[..i], s, best.value.pattern, e.pattern);
            }
            best := Some(e);
          } else {
            PatternOrderIsTotal(best.value.pattern, e.pattern);
            PatternOrderIsTotal(e.pattern, best.value.pattern);
          }
        }
        i := i + 1;
      }
      assert entries[..i] == entries;
      EntriesAreCandidates(claims, s);
      if best.None? {
        return NoMatch;
      }
      MostSpecificIsUnique(Candidates(claims, s), best.value.pattern, Best(Candidates(claims, s)));
      assert Indexed(claims, entries, conflicts, best.value.pattern) && IsWinner(claims, best.value);
      var conflicting := Recorded(conflicts, best.value.pattern);
      if |conflicting| > 0 {
        return Ambiguous(best.value.pattern, conflicting);
      }
      return Matched(best.value.profile);
    }

    /** The entries that match are the winners of the candidate patterns. */
    lemma EntriesAreCandidates(claims: seq<Claim>, s: string)
      requires Holds(claims)
      ensures forall e :: e in entries && Glob(e.pattern, s) ==> e.pattern in Candidates(claims, s)
      ensures forall p :: p in Candidates(claims, s) ==> exists e :: e in entries && e.pattern == p && Glob(e.pattern, s)
    {
      hide Glob, PickForPattern, PatternsOf;
      forall p | p in Candidates(claims, s)
        ensures exists e :: e in entries && e.pattern == p && Glob(e.pattern, s)
      {
        assert Indexed(claims, entries, conflicts, p);
        var e := PickForPattern(ForPattern(claims, p)).winner;
        AmbiguousIff(ForPattern(claims, p));
        assert e in entries && e.pattern == p;
      }
    }
  }

  lemma PatternIsClaimed(claims: seq<Claim>, p: string)
    requires p in PatternsOf(claims)
    ensures ForPattern(claims, p) != []
  {
    var c :| c in claims && c.pattern == p;
    assert c in ForPattern(claims, p);
  }

  lemma StillBeats(seen: seq<Claim>, s: string, previous: string, best: string)
    requires ComparePatterns(best, previous) > 0
    requires forall e :: e in seen && Glob(e.pattern, s) ==> ComparePatterns(previous, e.pattern) >= 0
    ensures forall e :: e in seen && Glob(e.pattern, s) ==> ComparePatterns(best, e.pattern) >= 0
  {
    hide ComparePatterns, Glob;
    forall e | e in seen && Glob(e.pattern, s)
      ensures ComparePatterns(best, e.pattern) >= 0
    {
      PatternOrderIsTransitive(best, previous, e.pattern);
    }
  }
}
