/** The identity of a metric stream as text: streamKeyFromMap in internal/report/builder.go. */
module Streams {
  import opened Collections
  import opened Order
  import opened Sorting

  type Attributes = map<string, string>

  // ----- sort.Strings -----

  lemma TextIsOrdered()
    ensures TotalOrder(TextLe)
  {
    hide TextLe;
    forall a, b
      ensures TextLe(a, b) || TextLe(b, a)
    {
      TextLeTotal(a, b);
    }
    forall a, b, c | TextLe(a, b) && TextLe(b, c)
      ensures TextLe(a, c)
    {
      TextLeTransitive(a, b, c);
    }
  }

  /** Sorting texts forgets the order it started from. */
  lemma SortingTextForgetsOrder(a: seq<string>, b: seq<string>)
    requires multiset(a) == multiset(b)
    ensures Sort(a, TextLe) == Sort(b, TextLe)
  {
    TextIsOrdered();
    hide TextLe;
    forall x, y | TextLe(x, y) && TextLe(y, x)
      ensures x == y
    {
      TextLeTotal(x, y);
    }
    SortForgetsOrder(a, b, TextLe);
  }

  // ----- the key -----

  function Pair(k: string, v: string): string {
    k + "=" + v
  }

  function Pairs(attrs: Attributes, keys: seq<string>): (r: seq<string>)
    requires forall k :: k in keys ==> k in attrs
    ensures |r| == |keys| && forall i :: 0 <= i < |keys| ==> r[i] == Pair(keys[i], attrs[keys[i]])
  {
    seq(|keys|, i requires 0 <= i < |keys| => Pair(keys[i], attrs[keys[i]]))
  }

  /** strings.Join(parts, ","). */
  function Commas(parts: seq<string>): string {
    if parts == [] then "" else parts[0] + Tail(parts[1..])
  }

  /** What follows the first part. */
  function Tail(parts: seq<string>): string {
    if parts == [] then "" else "," + (parts[0] + Tail(parts[1..]))
  }

  /** The sorted attribute texts. */
  function SortedPairs(attrs: Attributes): seq<string> {
    Sort(Pairs(attrs, SortedKeys(attrs.Keys)), TextLe)
  }

  function StreamKey(name: string, attrs: Attributes): string {
    name + ("|" + Commas(SortedPairs(attrs)))
  }

  lemma {:induction false} PairsPermute(attrs: Attributes, a: seq<string>, b: seq<string>)
    requires multiset(a) == multiset(b) && (forall k :: k in a ==> k in attrs) && (forall k :: k in b ==> k in attrs)
    ensures multiset(Pairs(attrs, a)) == multiset(Pairs(attrs, b))
    decreases |a|
  {
    if a == [] {
      assert |b| == |multiset(b)|;
    } else {
      var x, y := HeadElsewhere(a, b);
      assert forall k :: k in x + y ==> k in b;
      assert forall k :: k in a[1..] ==> k in a;
      PairsPermute(attrs, a[1..], x + y);
      PairsConcat(attrs, [a[0]], a[1..]);
      PairsConcat(attrs, x, [a[0]] + y);
      PairsConcat(attrs, [a[0]], y);
      PairsConcat(attrs, x, y);
      assert a == [a[0]] + a[1..];
      hide Pairs;
      var h := multiset(Pairs(attrs, [a[0]]));
      MultisetAround(multiset(Pairs(attrs, x)), h, multiset(Pairs(attrs, y)));
    }
  }

  lemma PairsConcat(attrs: Attributes, a: seq<string>, b: seq<string>)
    requires (forall k :: k in a ==> k in attrs) && (forall k :: k in b ==> k in attrs)
    ensures Pairs(attrs, a + b) == Pairs(attrs, a) + Pairs(attrs, b)
    ensures multiset(Pairs(attrs, a + b)) == multiset(Pairs(attrs, a)) + multiset(Pairs(attrs, b))
  {
    MultisetOfConcat(Pairs(attrs, a), Pairs(attrs, b));
  }

  lemma SameKeysSameBag(a: seq<string>, b: seq<string>)
    requires Distinct(a) && Distinct(b) && forall k :: k in a <==> k in b
    ensures multiset(a) == multiset(b)
  {
    forall k
      ensures multiset(a)[k] == multiset(b)[k]
    {
      CountOfDistinct(a, k);
      CountOfDistinct(b, k);
    }
  }

  lemma {:induction false} CountOfDistinct(s: seq<string>, k: string)
    requires Distinct(s)
    ensures multiset(s)[k] == if k in s then 1 else 0
  {
    if s != [] {
      CountOfDistinct(s[1..], k);
      assert s == [s[0]] + s[1..];
    }
  }

  /** The key does not depend on the order in which the attributes are visited. */
  method StreamKeyFromMap(name: string, attrs: Attributes) returns (key: string)
    ensures key == StreamKey(name, attrs)
  {
    hide SortedKeys, Sort;
    var pairs: seq<string> := [];
    var keys := attrs.Keys;
    ghost var visited: seq<string> := [];
    while keys != {}
      invariant forall k :: k in attrs <==> k in keys || k in visited
      invariant Distinct(visited) && forall k :: k in visited ==> k !in keys
      invariant pairs == Pairs(attrs, visited)
    {
      var k :| k in keys;
      pairs := pairs + [Pair(k, attrs[k])];
      visited := visited + [k];
      keys := keys - {k};
    }
    SameKeysSameBag(visited, SortedKeys(attrs.Keys));
    PairsPermute(attrs, visited, SortedKeys(attrs.Keys));
    SortingTextForgetsOrder(pairs, Pairs(attrs, SortedKeys(attrs.Keys)));
    key := name + ("|" + Commas(Sort(pairs, TextLe)));
  }

  // ----- injectivity -----

  /** In two readings of one text, the longer first part goes on with what follows the shorter. */
  lemma Overlap(a: string, x: string, b: string, y: string)
    requires a + x == b + y
    ensures |a| < |b| ==> x != "" && b[|a|] == x[0]
    ensures |a| == |b| ==> a == b && x == y
  {
    var text := a + x;
    assert |a| < |b| ==> text[|a|] == b[|a|];
    if |a| == |b| {
      assert a == text[..|a|] && b == text[..|a|];
      assert x == text[|a|..] && y == text[|a|..];
    }
  }

  lemma CutAtFirst(c: char, a: string, x: string, b: string, y: string)
    requires c !in a && c !in b && a + ([c] + x) == b + ([c] + y)
    ensures a == b && x == y
  {
    Overlap(a, [c] + x, b, [c] + y);
    Overlap(b, [c] + y, a, [c] + x);
    assert x == ([c] + x)[1..] && y == ([c] + y)[1..];
  }

  /** A tail is empty or starts with a comma, so it ends a value that has none. */
  lemma CutValue(a: string, ps: seq<string>, b: string, qs: seq<string>)
    requires ',' !in a && ',' !in b && a + Tail(ps) == b + Tail(qs)
    ensures a == b && Tail(ps) == Tail(qs)
  {
    Overlap(a, Tail(ps), b, Tail(qs));
    Overlap(b, Tail(qs), a, Tail(ps));
  }

  /** An attribute text that can be read back. */
  ghost predicate Readable(p: string) {
    exists k, v :: p == Pair(k, v) && '=' !in k && ',' !in v
  }

  lemma {:induction false} PartAndTail(p: string, ps: seq<string>, q: string, qs: seq<string>)
    requires Readable(p) && Readable(q) && p + Tail(ps) == q + Tail(qs)
    ensures p == q && Tail(ps) == Tail(qs)
  {
    hide Tail;
    var k, v :| p == Pair(k, v) && '=' !in k && ',' !in v;
    var l, w :| q == Pair(l, w) && '=' !in l && ',' !in w;
    assert p + Tail(ps) == k + (['='] + (v + Tail(ps)));
    assert q + Tail(qs) == l + (['='] + (w + Tail(qs)));
    CutAtFirst('=', k, v + Tail(ps), l, w + Tail(qs));
    CutValue(v, ps, w, qs);
  }

  lemma {:induction false} TailInjective(ps: seq<string>, qs: seq<string>)
    requires (forall p :: p in ps ==> Readable(p)) && (forall q :: q in qs ==> Readable(q))
    requires Tail(ps) == Tail(qs)
    ensures ps == qs
  {
    if ps != [] && qs != [] {
      var x, y := ps[0] + Tail(ps[1..]), qs[0] + Tail(qs[1..]);
      assert x == ("," + x)[1..] && y == ("," + y)[1..];
      assert ps[0] in ps && qs[0] in qs;
      PartAndTail(ps[0], ps[1..], qs[0], qs[1..]);
      TailInjective(ps[1..], qs[1..]);
      assert ps == [ps[0]] + ps[1..] && qs == [qs[0]] + qs[1..];
    }
  }

  lemma CommasInjective(ps: seq<string>, qs: seq<string>)
    requires (forall p :: p in ps ==> Readable(p)) && (forall q :: q in qs ==> Readable(q))
    requires Commas(ps) == Commas(qs)
    ensures ps == qs
  {
    assert Tail(ps) == if ps == [] then "" else "," + Commas(ps);
    assert Tail(qs) == if qs == [] then "" else "," + Commas(qs);
    if ps == [] && qs != [] {
      ReadableIsNotEmpty(qs[0]);
      assert false;
    } else if ps != [] && qs == [] {
      ReadableIsNotEmpty(ps[0]);
      assert false;
    }
    TailInjective(ps, qs);
  }

  lemma ReadableIsNotEmpty(p: string)
    requires Readable(p)
    ensures p != ""
  {
    var k, v :| p == Pair(k, v) && '=' !in k && ',' !in v;
    assert p[|k|] == '=';
  }

  /** What the separators need: no `|` in the name, no `=` in a key, no `,` in a value. */
  predicate Unambiguous(name: string, attrs: Attributes) {
    '|' !in name && forall k :: k in attrs ==> '=' !in k && ',' !in attrs[k]
  }

  lemma PairInSorted(attrs: Attributes, p: string)
    ensures p in SortedPairs(attrs) <==> exists k :: k in attrs && p == Pair(k, attrs[k])
  {
    hide Sort, Pair;
    var keys := SortedKeys(attrs.Keys);
    hide SortedKeys;
    var pairs := Pairs(attrs, keys);
    SameMembers(SortedPairs(attrs), pairs, p);
    if p in pairs {
      var i :| 0 <= i < |pairs| && pairs[i] == p;
      assert keys[i] in keys;
    }
    if k :| k in attrs && p == Pair(k, attrs[k]) {
      var i :| 0 <= i < |keys| && keys[i] == k;
      assert pairs[i] == p;
    }
  }

  lemma SameMembers(a: seq<string>, b: seq<string>, x: string)
    requires multiset(a) == multiset(b)
    ensures x in a <==> x in b
  {
    assert x in multiset(a) <==> x in a;
    assert x in multiset(b) <==> x in b;
  }

  lemma EntryCarriesOver(a: Attributes, b: Attributes, k: string)
    requires SortedPairs(a) == SortedPairs(b) && k in a
    requires (forall k :: k in a ==> '=' !in k) && (forall k :: k in b ==> '=' !in k)
    ensures k in b && b[k] == a[k]
  {
    hide SortedPairs;
    var p := Pair(k, a[k]);
    PairInSorted(a, p);
    PairInSorted(b, p);
    var l :| l in b && p == Pair(l, b[l]);
    assert p == k + (['='] + a[k]) && p == l + (['='] + b[l]);
    CutAtFirst('=', k, a[k], l, b[l]);
  }

  /** Streams that respect the separators have the same key only if they are the same stream. */
  lemma KeysAreInjective(name: string, attrs: Attributes, name': string, attrs': Attributes)
    requires Unambiguous(name, attrs) && Unambiguous(name', attrs')
    requires StreamKey(name, attrs) == StreamKey(name', attrs')
    ensures name == name' && attrs == attrs'
  {
    hide SortedPairs, Commas;
    CutAtFirst('|', name, Commas(SortedPairs(attrs)), name', Commas(SortedPairs(attrs')));
    AllReadable(attrs);
    AllReadable(attrs');
    CommasInjective(SortedPairs(attrs), SortedPairs(attrs'));
    forall k
      ensures k in attrs ==> k in attrs' && attrs'[k] == attrs[k]
      ensures k in attrs' ==> k in attrs && attrs[k] == attrs'[k]
    {
      if k in attrs {
        EntryCarriesOver(attrs, attrs', k);
      }
      if k in attrs' {
        EntryCarriesOver(attrs', attrs, k);
      }
    }
  }

  lemma AllReadable(attrs: Attributes)
    requires forall k :: k in attrs ==> '=' !in k && ',' !in attrs[k]
    ensures forall p :: p in SortedPairs(attrs) ==> Readable(p)
  {
    hide SortedPairs;
    forall p | p in SortedPairs(attrs)
      ensures Readable(p)
    {
      PairInSorted(attrs, p);
    }
  }

  // ----- the separators are needed -----

  lemma OneAttribute(name: string, k: string, v: string)
    ensures StreamKey(name, map[k := v]) == name + ("|" + Pair(k, v))
  {
    var attrs := map[k := v];
    var keys := SortedKeys(attrs.Keys);
    assert k in keys && |keys| == 1;
    assert keys == [k];
    assert Pairs(attrs, keys) == [Pair(k, v)];
    SortOne(Pair(k, v));
    assert Commas([Pair(k, v)]) == Pair(k, v) + "";
  }

  lemma SortOne(p: string)
    ensures Sort([p], TextLe) == [p]
  {
    assert [p][1..] == [];
  }

  /** Any `|` in a name can be moved into a key. */
  lemma BarInNameCollides(name: string, x: string, k: string, v: string)
    ensures StreamKey(name + ("|" + x), map[k := v]) == StreamKey(name, map[x + ("|" + k) := v])
    ensures name + ("|" + x) != name
  {
    hide StreamKey;
    OneAttribute(name + ("|" + x), k, v);
    OneAttribute(name, x + ("|" + k), v);
    assert name + ("|" + x) + ("|" + Pair(k, v)) == name + ("|" + Pair(x + ("|" + k), v));
    assert |name + ("|" + x)| > |name|;
  }

  /** Any `=` in a key can be moved into the value. */
  lemma EqualsInKeyCollides(name: string, k: string, x: string, v: string)
    ensures StreamKey(name, map[k + ("=" + x) := v]) == StreamKey(name, map[k := x + ("=" + v)])
    ensures map[k + ("=" + x) := v] != map[k := x + ("=" + v)]
  {
    hide StreamKey;
    OneAttribute(name, k + ("=" + x), v);
    OneAttribute(name, k, x + ("=" + v));
    assert Pair(k + ("=" + x), v) == Pair(k, x + ("=" + v));
    assert |k + ("=" + x)| > |k|;
    assert k in map[k := x + ("=" + v)];
  }

  lemma TwoSorted(k: string, v: string, l: string, w: string)
    requires k != l && TextLe(Pair(k, v), Pair(l, w))
    ensures SortedPairs(map[k := v, l := w]) == [Pair(k, v), Pair(l, w)]
  {
    hide Sort;
    var both := map[k := v, l := w];
    var keys := SortedKeys(both.Keys);
    hide SortedKeys;
    SameKeysSameBag([k, l], keys);
    PairsPermute(both, [k, l], keys);
    assert Pairs(both, [k, l]) == [Pair(k, v), Pair(l, w)];
    SortingTextForgetsOrder([Pair(k, v), Pair(l, w)], Pairs(both, keys));
    SortTwo(Pair(k, v), Pair(l, w));
  }

  lemma CommasOfTwo(p: string, q: string)
    ensures Commas([p, q]) == p + ("," + q)
  {
    var none: seq<string> := [];
    assert [p, q][1..] == [q] && [q][1..] == none;
    assert Tail(none) == "";
    assert Tail([q]) == "," + (q + Tail(none));
    assert q + "" == q;
  }

  /** A `,` in a value can look like a further attribute. */
  lemma CommaInValueCollides(name: string, k: string, v: string, l: string, w: string)
    requires k != l && TextLe(Pair(k, v), Pair(l, w))
    ensures StreamKey(name, map[k := v + ("," + Pair(l, w))]) == StreamKey(name, map[k := v, l := w])
    ensures map[k := v + ("," + Pair(l, w))] != map[k := v, l := w]
  {
    hide SortedPairs, Commas;
    OneAttribute(name, k, v + ("," + Pair(l, w)));
    TwoSorted(k, v, l, w);
    CommasOfTwo(Pair(k, v), Pair(l, w));
    assert Pair(k, v + ("," + Pair(l, w))) == Pair(k, v) + ("," + Pair(l, w)) by {
      SeqAssociative(k + "=", v, "," + Pair(l, w));
    }
    hide Pair;
    assert l in map[k := v, l := w];
  }

  lemma SortTwo(p: string, q: string)
    requires TextLe(p, q)
    ensures Sort([p, q], TextLe) == [p, q]
  {
    assert [p, q][1..] == [q] && [q][1..] == [];
    assert Insert(q, [], TextLe) == [q];
  }
}
