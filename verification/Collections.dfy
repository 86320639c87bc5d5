/** Facts about built-in collections that the verifier needs to be told once. */
module Collections {

  lemma SeqAssociative<T>(a: seq<T>, b: seq<T>, c: seq<T>)
    ensures (a + b) + c == a + (b + c)
  {
  }

  lemma MapAssociative<K, V>(a: map<K, V>, b: map<K, V>, c: map<K, V>)
    ensures (a + b) + c == a + (b + c)
  {
  }

  lemma SeqSplit<T>(s: seq<T>, n: nat)
    requires n <= |s|
    ensures s == s[..n] + s[n..]
  {
  }

  lemma MultisetOfConcat<T>(a: seq<T>, b: seq<T>)
    ensures multiset(a + b) == multiset(a) + multiset(b)
  {
  }

  lemma MultisetAssociative<T>(a: multiset<T>, b: multiset<T>, c: multiset<T>)
    ensures (a + b) + c == a + (b + c)
  {
  }

  lemma CountOfAppend<T>(s: seq<T>, x: T, a: T)
    ensures multiset(s + [x])[a] == multiset(s)[a] + if a == x then 1 else 0
  {
  }

  lemma MultisetCancel<T>(h: multiset<T>, a: multiset<T>, b: multiset<T>)
    requires h + a == h + b
    ensures a == b
  {
    assert a == (h + a) - h && b == (h + b) - h;
  }

  /** The head of one arrangement, found in another: what is left are again arrangements of the same elements. */
  lemma HeadElsewhere<T>(a: seq<T>, b: seq<T>) returns (x: seq<T>, y: seq<T>)
    requires a != [] && multiset(a) == multiset(b)
    ensures b == x + ([a[0]] + y) && multiset(a[1..]) == multiset(x + y)
  {
    assert a[0] in multiset(b);
    var j :| 0 <= j < |b| && b[j] == a[0];
    x, y := b[..j], b[j + 1..];
    SplitAt(b, j);
    assert a == [a[0]] + a[1..];
    MultisetOfConcat([a[0]], a[1..]);
    MultisetOfConcat(x, [a[0]] + y);
    MultisetOfConcat([a[0]], y);
    MultisetOfConcat(x, y);
    MultisetAround(multiset(x), multiset([a[0]]), multiset(y));
    MultisetCancel(multiset([a[0]]), multiset(a[1..]), multiset(x + y));
  }

  lemma SplitAt<T>(s: seq<T>, j: nat)
    requires j < |s|
    ensures s == s[..j] + ([s[j]] + s[j + 1..])
  {
  }

  lemma MultisetAround<T>(x: multiset<T>, h: multiset<T>, y: multiset<T>)
    ensures x + (h + y) == h + (x + y)
  {
  }
}
