/** Lexicographic order on sequences of integers, and the text order built on it. */
module Order {

  /** -1, 0 or 1 as `a` sorts before, equals or sorts after `b`; a proper prefix sorts first. */
  function Compare(a: seq<int>, b: seq<int>): (r: int)
    ensures r == -1 || r == 0 || r == 1
  {
    if a == [] && b == [] then 0
    else if a == [] then -1
    else if b == [] then 1
    else if a[0] < b[0] then -1
    else if b[0] < a[0] then 1
    else Compare(a[1..], b[1..])
  }

  lemma {:induction false} CompareZero(a: seq<int>, b: seq<int>)
    ensures Compare(a, b) == 0 <==> a == b
  {
    if a != [] && b != [] && a[0] == b[0] {
      CompareZero(a[1..], b[1..]);
      assert a == [a[0]] + a[1..] && b == [b[0]] + b[1..];
    }
  }

  lemma {:induction false} CompareAntisymmetric(a: seq<int>, b: seq<int>)
    ensures Compare(a, b) == -Compare(b, a)
  {
    if a != [] && b != [] && a[0] == b[0] {
      CompareAntisymmetric(a[1..], b[1..]);
    }
  }

  lemma {:induction false} CompareTransitive(a: seq<int>, b: seq<int>, c: seq<int>)
    requires Compare(a, b) <= 0 && Compare(b, c) <= 0
    ensures Compare(a, c) <= 0
    ensures Compare(a, b) < 0 || Compare(b, c) < 0 ==> Compare(a, c) < 0
  {
    if a != [] && b != [] && c != [] && a[0] == b[0] == c[0] {
      CompareTransitive(a[1..], b[1..], c[1..]);
    }
  }

  /** Common prefixes do not influence the order. */
  lemma {:induction false} CompareCommonPrefix(p: seq<int>, a: seq<int>, b: seq<int>)
    ensures Compare(p + a, p + b) == Compare(a, b)
  {
    if p == [] {
      assert p + a == a && p + b == b;
    } else {
      assert (p + a)[1..] == p[1..] + a && (p + b)[1..] == p[1..] + b;
      CompareCommonPrefix(p[1..], a, b);
    }
  }

  lemma PrefixFirst(p: seq<int>, s: seq<int>)
    requires p <= s && p != s
    ensures Compare(p, s) < 0
  {
    assert s == p + s[|p|..] && p == p + [];
    CompareCommonPrefix(p, [], s[|p|..]);
  }

  /** Everything between two extensions of `p` extends `p`: a subtree is an interval. */
  lemma {:induction false} PrefixConvex(p: seq<int>, a: seq<int>, m: seq<int>, b: seq<int>)
    requires p <= a && p <= b
    requires Compare(a, m) <= 0 && Compare(m, b) <= 0
    ensures p <= m
  {
    if p != [] {
      assert a[0] == p[0] == b[0] == m[0];
      PrefixConvex(p[1..], a[1..], m[1..], b[1..]);
    }
  }

  // ----- text -----

  function Codes(s: string): (r: seq<int>)
    ensures |r| == |s|
    ensures forall i :: 0 <= i < |s| ==> r[i] == s[i] as int
  {
    seq(|s|, i requires 0 <= i < |s| => s[i] as int)
  }

  lemma CodesInjective(a: string, b: string)
    requires Codes(a) == Codes(b)
    ensures a == b
  {
    forall i | 0 <= i < |a|
      ensures a[i] == b[i]
    {
      assert Codes(a)[i] == Codes(b)[i];
    }
  }

  /** Go's strings.Compare, which orders by code unit. */
  function CompareText(a: string, b: string): (r: int)
    ensures r == -1 || r == 0 || r == 1
  {
    Compare(Codes(a), Codes(b))
  }

  predicate TextLe(a: string, b: string) {
    CompareText(a, b) <= 0
  }

  lemma TextLeTotal(a: string, b: string)
    ensures TextLe(a, b) || TextLe(b, a)
    ensures TextLe(a, b) && TextLe(b, a) ==> a == b
    ensures TextLe(a, a)
  {
    CompareAntisymmetric(Codes(a), Codes(b));
    CompareZero(Codes(a), Codes(b));
    CompareZero(Codes(a), Codes(a));
    if Codes(a) == Codes(b) {
      CodesInjective(a, b);
    }
  }

  lemma TextLeTransitive(a: string, b: string, c: string)
    requires TextLe(a, b) && TextLe(b, c)
    ensures TextLe(a, c)
  {
    CompareTransitive(Codes(a), Codes(b), Codes(c));
  }

  // ----- sorted keys -----

  ghost predicate SortedText(s: seq<string>) {
    forall i, j :: 0 <= i < j < |s| ==> TextLe(s[i], s[j])
  }

  ghost predicate Distinct<T>(s: seq<T>) {
    forall i, j :: 0 <= i < j < |s| ==> s[i] != s[j]
  }

  lemma DistinctConcat<T>(a: seq<T>, b: seq<T>)
    requires Distinct(a) && Distinct(b) && forall x :: x in a ==> x !in b
    ensures Distinct(a + b)
  {
    forall i, j | 0 <= i < j < |a + b|
      ensures (a + b)[i] != (a + b)[j]
    {
      if i < |a| <= j {
        assert a[i] in a && b[j - |a|] in b;
      }
    }
  }

  lemma LeastExists(keys: set<string>)
    requires keys != {}
    ensures exists k :: k in keys && forall x :: x in keys ==> TextLe(k, x)
  {
    var k :| k in keys;
    TextLeTotal(k, k);
    var rest := keys - {k};
    if rest == {} {
      assert keys == {k};
    } else {
      LeastExists(rest);
      var m :| m in rest && forall x :: x in rest ==> TextLe(m, x);
      TextLeTotal(k, m);
      var least := if TextLe(k, m) then k else m;
      forall x | x in keys
        ensures TextLe(least, x)
      {
        if x != k {
          if TextLe(k, m) {
            TextLeTransitive(k, m, x);
          }
        }
      }
    }
  }

  lemma LeastIsUnique(keys: set<string>, x: string, y: string)
    requires x in keys && y in keys
    requires (forall z :: z in keys ==> TextLe(x, z)) && (forall z :: z in keys ==> TextLe(y, z))
    ensures x == y
  {
    TextLeTotal(x, y);
  }

  /** The first key in text order. */
  function Least(keys: set<string>): (k: string)
    requires keys != {}
    ensures k in keys && forall x :: x in keys ==> TextLe(k, x)
  {
    hide TextLe;
    LeastExists(keys);
    assert forall x, y ::
      x in keys && y in keys && (forall z :: z in keys ==> TextLe(x, z)) && (forall z :: z in keys ==> TextLe(y, z)) ==> x == y by {
      forall x, y | x in keys && y in keys && (forall z :: z in keys ==> TextLe(x, z)) && (forall z :: z in keys ==> TextLe(y, z))
        ensures x == y
      {
        LeastIsUnique(keys, x, y);
      }
    }
    var k :| k in keys && forall x :: x in keys ==> TextLe(k, x);
    k
  }

  /** Go's slices.Sorted(maps.Keys(m)): every key once, in text order. */
  function SortedKeys(keys: set<string>): (r: seq<string>)
    ensures forall k :: k in r <==> k in keys
    ensures |r| == |keys|
    ensures Distinct(r)
    ensures SortedText(r)
  {
    if keys == {} then []
    else
      var k := Least(keys);
      var rest := SortedKeys(keys - {k});
      assert forall x :: x in [k] + rest <==> x == k || x in rest;
      [k] + rest
  }
}
