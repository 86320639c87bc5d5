/** Which profiles a profile inherits from, and in which order: expand of internal/profile/store.go. */
module Inheritance {
  import opened Order
  import opened Profiles

  /** The raw documents by name. */
  type Library = map<string, Profile>

  predicate EndsIn(s: string, suffix: string) {
    |suffix| <= |s| && s[|s| - |suffix|..] == suffix
  }

  function TrimSuffix(s: string, suffix: string): string {
    if EndsIn(s, suffix) then s[..|s| - |suffix|] else s
  }

  /** A base is named by file name or bare name. */
  function ProfileName(ref: string): string {
    TrimSuffix(TrimSuffix(ref, ".yaml"), ".yml")
  }

  /** A name that is not itself a file name. */
  predicate Bare(name: string) {
    !EndsIn(name, ".yaml") && !EndsIn(name, ".yml")
  }

  /** What may stand in a document for a profile: its name, or a file of that name, with one ending or both. */
  predicate Refers(ref: string, name: string) {
    || (ref == name && Bare(name))
    || ref == name + ".yml"
    || (ref == name + ".yaml" && !EndsIn(name, ".yml"))
    || ref == name + ".yml" + ".yaml"
  }

  lemma EndsInConcat(s: string, suffix: string)
    ensures EndsIn(s + suffix, suffix) && TrimSuffix(s + suffix, suffix) == s
    ensures EndsIn(s, suffix) ==> s == TrimSuffix(s, suffix) + suffix
  {
  }

  lemma YmlIsNotYaml(s: string)
    ensures !EndsIn(s + ".yml", ".yaml")
  {
    var t := s + ".yml";
    assert |s| >= 1 ==> t[|t| - 5..][1] == t[|s|] == '.';
  }

  lemma RefersIff(ref: string, name: string)
    ensures ProfileName(ref) == name <==> Refers(ref, name)
  {
    hide EndsIn, TrimSuffix;
    var once := TrimSuffix(ref, ".yaml");
    EndsInConcat(ref, ".yaml");
    EndsInConcat(once, ".yml");
    EndsInConcat(name, ".yml");
    EndsInConcat(name, ".yaml");
    EndsInConcat(name + ".yml", ".yaml");
    YmlIsNotYaml(name);
    NotEnding(ref, ".yaml");
    NotEnding(once, ".yml");
    NotEnding(name + ".yml", ".yaml");
    NotEnding(name, ".yml");
  }

  lemma NotEnding(s: string, suffix: string)
    ensures !EndsIn(s, suffix) ==> TrimSuffix(s, suffix) == s
  {
  }

  /** The bases merged in order, the names seen, and the references to unknown profiles. */
  datatype Traversal = Traversal(order: seq<string>, seen: set<string>, unknown: seq<string>)

  /** The traversal as it happens: a base, then all that it leads to, then the next base; a name seen before is passed over. */
  function Expand(lib: Library, refs: seq<string>, seen: set<string>): (t: Traversal)
    ensures seen <= t.seen
    decreases lib.Keys - seen, |refs|
  {
    if refs == [] then Traversal([], seen, [])
    else
      var name := ProfileName(refs[0]);
      if name in seen then Expand(lib, refs[1..], seen)
      else if name !in lib then
        assert lib.Keys - (seen + {name}) == lib.Keys - seen;
        var rest := Expand(lib, refs[1..], seen + {name});
        rest.(unknown := [refs[0]] + rest.unknown)
      else
        assert name in lib.Keys - seen && name !in lib.Keys - (seen + {name});
        var inner := Expand(lib, lib[name].bases, seen + {name});
        var rest := Expand(lib, refs[1..], inner.seen);
        Traversal([name] + inner.order + rest.order, rest.seen, inner.unknown + rest.unknown)
  }

  datatype Resolution = Resolved(profile: Profile) | UnknownProfile | UnknownBases(refs: seq<string>)

  function ProfilesOf(lib: Library, order: seq<string>): (r: seq<Profile>)
    requires forall n :: n in order ==> n in lib
    ensures |r| == |order| && forall i :: 0 <= i < |order| ==> r[i] == lib[order[i]]
  {
    seq(|order|, i requires 0 <= i < |order| => lib[order[i]])
  }

  /** What resolution returns for a name. */
  function ResolutionOf(lib: Library, name: string): Resolution {
    if name !in lib then UnknownProfile
    else
      var t := Expand(lib, lib[name].bases, {name});
      ExpandAddsNew(lib, lib[name].bases, {name});
      if t.unknown != [] then UnknownBases(t.unknown)
      else Resolved(Normalize(MergeAll(lib[name], ProfilesOf(lib, t.order))))
  }

  // ----- the traversal -----

  /** The order lists exactly the known names newly seen, each once; unknown references are the unknown names newly seen. */
  lemma {:induction false} ExpandAddsNew(lib: Library, refs: seq<string>, seen: set<string>)
    ensures var t := Expand(lib, refs, seen);
      && (forall n :: n in t.order <==> n in t.seen && n !in seen && n in lib)
      && Distinct(t.order)
      && (t.unknown != [] <==> exists n :: n in t.seen && n !in seen && n !in lib)
    decreases lib.Keys - seen, |refs|
  {
    hide ProfileName;
    if refs != [] {
      var name := ProfileName(refs[0]);
      if name in seen {
        ExpandAddsNew(lib, refs[1..], seen);
      } else if name !in lib {
        assert lib.Keys - (seen + {name}) == lib.Keys - seen;
        ExpandAddsNew(lib, refs[1..], seen + {name});
      } else {
        assert name in lib.Keys - seen && name !in lib.Keys - (seen + {name});
        ExpandAddsNew(lib, lib[name].bases, seen + {name});
        var inner := Expand(lib, lib[name].bases, seen + {name});
        var rest := Expand(lib, refs[1..], inner.seen);
        ExpandAddsNew(lib, refs[1..], inner.seen);
        DistinctConcat([name], inner.order);
        DistinctConcat([name] + inner.order, rest.order);
      }
    }
  }

  ghost predicate Extends(lib: Library, child: string, base: string) {
    child in lib && exists ref :: ref in lib[child].bases && Refers(ref, base)
  }

  /** A bare name is extended by its name, by either file name of that name, or by the file name with both endings. */
  lemma ExtendsIff(lib: Library, child: string, base: string)
    requires child in lib && Bare(base)
    ensures var bases := lib[child].bases;
      Extends(lib, child, base) <==> base in bases || base + ".yaml" in bases || base + ".yml" in bases || base + ".yml.yaml" in bases
  {
    hide EndsIn;
    assert base + ".yml" + ".yaml" == base + ".yml.yaml";
  }

  lemma ExtendsByName(lib: Library, child: string, base: string)
    ensures Extends(lib, child, base) <==> child in lib && exists ref :: ref in lib[child].bases && ProfileName(ref) == base
  {
    hide Refers, ProfileName;
    forall ref
      ensures ProfileName(ref) == base <==> Refers(ref, base)
    {
      RefersIff(ref, base);
    }
  }

  /** All bases of the given names have been seen. */
  ghost predicate Closed(lib: Library, names: seq<string>, seen: set<string>) {
    forall n, base :: n in names && Extends(lib, n, base) ==> base in seen
  }

  lemma {:induction false} ExpandIsClosed(lib: Library, refs: seq<string>, seen: set<string>)
    ensures var t := Expand(lib, refs, seen);
      Closed(lib, t.order, t.seen) && forall ref :: ref in refs ==> ProfileName(ref) in t.seen
    decreases lib.Keys - seen, |refs|
  {
    hide ProfileName;
    if refs != [] {
      var name := ProfileName(refs[0]);
      assert refs == [refs[0]] + refs[1..];
      if name in seen {
        ExpandIsClosed(lib, refs[1..], seen);
      } else if name !in lib {
        assert lib.Keys - (seen + {name}) == lib.Keys - seen;
        ExpandIsClosed(lib, refs[1..], seen + {name});
      } else {
        assert name in lib.Keys - seen && name !in lib.Keys - (seen + {name});
        ExpandIsClosed(lib, lib[name].bases, seen + {name});
        var inner := Expand(lib, lib[name].bases, seen + {name});
        ExpandIsClosed(lib, refs[1..], inner.seen);
        hide Extends, Expand;
        forall base | Extends(lib, name, base)
          ensures base in inner.seen
        {
          ExtendsByName(lib, name, base);
        }
      }
    }
  }

  // ----- reachability -----

  /** A chain of extends from the first name to the last. */
  ghost predicate Chain(lib: Library, path: seq<string>) {
    path != [] && forall i :: 0 <= i < |path| - 1 ==> Extends(lib, path[i], path[i + 1])
  }

  ghost predicate Reaches(lib: Library, root: string, n: string) {
    exists path :: Chain(lib, path) && path[0] == root && path[|path| - 1] == n
  }

  lemma ReachesSelf(lib: Library, root: string)
    ensures Reaches(lib, root, root)
  {
    assert Chain(lib, [root]);
  }

  lemma ReachesFurther(lib: Library, root: string, n: string, base: string)
    requires Reaches(lib, root, n) && Extends(lib, n, base)
    ensures Reaches(lib, root, base)
  {
    var path :| Chain(lib, path) && path[0] == root && path[|path| - 1] == n;
    assert Chain(lib, path + [base]);
  }

  /** Only reachable names are seen. */
  lemma {:induction false} ExpandIsSound(lib: Library, root: string, refs: seq<string>, seen: set<string>)
    requires forall ref :: ref in refs ==> Reaches(lib, root, ProfileName(ref))
    ensures forall n :: n in Expand(lib, refs, seen).seen && n !in seen ==> Reaches(lib, root, n)
    decreases lib.Keys - seen, |refs|
  {
    hide ProfileName, Reaches;
    if refs != [] {
      var name := ProfileName(refs[0]);
      assert refs[0] in refs;
      if name in seen {
        ExpandIsSound(lib, root, refs[1..], seen);
      } else if name !in lib {
        assert lib.Keys - (seen + {name}) == lib.Keys - seen;
        ExpandIsSound(lib, root, refs[1..], seen + {name});
      } else {
        assert name in lib.Keys - seen && name !in lib.Keys - (seen + {name});
        forall ref | ref in lib[name].bases
          ensures Reaches(lib, root, ProfileName(ref))
        {
          ExtendsByName(lib, name, ProfileName(ref));
          ReachesFurther(lib, root, name, ProfileName(ref));
        }
        ExpandIsSound(lib, root, lib[name].bases, seen + {name});
        var inner := Expand(lib, lib[name].bases, seen + {name});
        ExpandIsSound(lib, root, refs[1..], inner.seen);
      }
    }
  }

  /** A set closed under extends holds every name a chain from one of its members arrives at. */
  lemma {:induction false} ClosedHoldsChains(lib: Library, seen: set<string>, path: seq<string>)
    requires Chain(lib, path) && path[0] in seen
    requires forall n, base :: n in seen && Extends(lib, n, base) ==> base in seen
    ensures path[|path| - 1] in seen
    decreases |path|
  {
    hide ProfileName;
    if |path| > 1 {
      assert Extends(lib, path[0], path[1]);
      forall i | 0 <= i < |path[1..]| - 1
        ensures Extends(lib, path[1..][i], path[1..][i + 1])
      {
        assert Extends(lib, path[i + 1], path[i + 2]);
      }
      ClosedHoldsChains(lib, seen, path[1..]);
    }
  }

  /**
   * For any graph, with cycles, self-references and diamonds: the bases merged into a profile are exactly the other
   * known profiles it reaches, each once; resolution reports unknown bases exactly when it reaches an unknown name.
   */
  lemma TraversalReachesExactly(lib: Library, root: string)
    requires root in lib
    ensures var t := Expand(lib, lib[root].bases, {root});
      && Distinct([root] + t.order)
      && (forall n :: n in [root] + t.order <==> n in lib && Reaches(lib, root, n))
      && (t.unknown != [] <==> exists n :: Reaches(lib, root, n) && n !in lib)
  {
    hide ProfileName;
    var refs := lib[root].bases;
    var t := Expand(lib, refs, {root});
    ExpandAddsNew(lib, refs, {root});
    ReachesSelf(lib, root);
    forall ref | ref in refs
      ensures Reaches(lib, root, ProfileName(ref))
    {
      ExtendsByName(lib, root, ProfileName(ref));
      ReachesFurther(lib, root, root, ProfileName(ref));
    }
    ExpandIsSound(lib, root, refs, {root});
    ReachedAreSeen(lib, root);
  }

  lemma ReachedAreSeen(lib: Library, root: string)
    requires root in lib
    ensures forall n :: Reaches(lib, root, n) ==> n in Expand(lib, lib[root].bases, {root}).seen
  {
    hide ProfileName;
    var refs := lib[root].bases;
    var t := Expand(lib, refs, {root});
    ExpandAddsNew(lib, refs, {root});
    ExpandIsClosed(lib, refs, {root});
    forall n, base | n in t.seen && Extends(lib, n, base)
      ensures base in t.seen
    {
      if n == root {
        ExtendsByName(lib, root, base);
      }
    }
    hide Extends, Expand;
    forall n | Reaches(lib, root, n)
      ensures n in t.seen
    {
      var path :| Chain(lib, path) && path[0] == root && path[|path| - 1] == n;
      ClosedHoldsChains(lib, t.seen, path);
    }
  }

  // ----- what is reported -----

  /** The reference stands in a document that the root reaches, or is the root's own. */
  ghost predicate Written(lib: Library, root: string, ref: string) {
    exists n :: n in lib && Reaches(lib, root, n) && ref in lib[n].bases
  }

  /** Of the unknown names newly seen, each is reported once, by a reference as it is written. */
  ghost predicate Reports(lib: Library, root: string, unknown: seq<string>, before: set<string>, after: set<string>) {
    && (forall ref :: ref in unknown ==> Written(lib, root, ref))
    && (forall ref :: ref in unknown ==> ProfileName(ref) !in lib && ProfileName(ref) in after && ProfileName(ref) !in before)
    && (forall n :: n in after && n !in before && n !in lib ==> exists ref :: ref in unknown && ProfileName(ref) == n)
    && (forall i, j :: 0 <= i < j < |unknown| ==> ProfileName(unknown[i]) != ProfileName(unknown[j]))
  }

  lemma ReportsConcat(lib: Library, root: string, a: seq<string>, b: seq<string>, before: set<string>, mid: set<string>, after: set<string>)
    requires before <= mid <= after && Reports(lib, root, a, before, mid) && Reports(lib, root, b, mid, after)
    ensures Reports(lib, root, a + b, before, after)
  {
    hide ProfileName, Written;
    var all := a + b;
    forall i, j | 0 <= i < j < |all|
      ensures ProfileName(all[i]) != ProfileName(all[j])
    {
      assert i < |a| ==> all[i] in a;
      assert j >= |a| ==> all[j] in b;
      assert i >= |a| ==> all[i] == b[i - |a|];
    }
    forall n | n in after && n !in before && n !in lib
      ensures exists ref :: ref in all && ProfileName(ref) == n
    {
      if n in mid {
        var ref :| ref in a && ProfileName(ref) == n;
        assert ref in all;
      } else {
        var ref :| ref in b && ProfileName(ref) == n;
        assert ref in all;
      }
    }
  }

  lemma {:induction false} ExpandReports(lib: Library, root: string, refs: seq<string>, seen: set<string>)
    requires forall ref :: ref in refs ==> Written(lib, root, ref)
    ensures Reports(lib, root, Expand(lib, refs, seen).unknown, seen, Expand(lib, refs, seen).seen)
    decreases lib.Keys - seen, |refs|
  {
    hide ProfileName, Written, Reports;
    if refs == [] {
      NothingReports(lib, root, seen);
    } else {
      var name := ProfileName(refs[0]);
      assert refs[0] in refs;
      if name in seen {
        ExpandReports(lib, root, refs[1..], seen);
      } else if name !in lib {
        assert lib.Keys - (seen + {name}) == lib.Keys - seen;
        ExpandReports(lib, root, refs[1..], seen + {name});
        assert Reports(lib, root, [refs[0]], seen, seen + {name}) by { OneReports(lib, root, refs[0], seen); }
        ReportsConcat(lib, root, [refs[0]], Expand(lib, refs[1..], seen + {name}).unknown, seen, seen + {name}, Expand(lib, refs, seen).seen);
      } else {
        assert name in lib.Keys - seen && name !in lib.Keys - (seen + {name});
        BasesAreWritten(lib, root, refs[0]);
        ExpandReports(lib, root, lib[name].bases, seen + {name});
        var inner := Expand(lib, lib[name].bases, seen + {name});
        ExpandReports(lib, root, refs[1..], inner.seen);
        assert Reports(lib, root, inner.unknown, seen, inner.seen) by { KnownReportsNothing(lib, root, inner.unknown, name, seen, inner.seen); }
        ReportsConcat(lib, root, inner.unknown, Expand(lib, refs[1..], inner.seen).unknown, seen, inner.seen, Expand(lib, refs, seen).seen);
      }
    }
  }

  lemma NothingReports(lib: Library, root: string, seen: set<string>)
    ensures Reports(lib, root, [], seen, seen)
  {
  }

  lemma OneReports(lib: Library, root: string, ref: string, seen: set<string>)
    requires Written(lib, root, ref) && ProfileName(ref) !in seen && ProfileName(ref) !in lib
    ensures Reports(lib, root, [ref], seen, seen + {ProfileName(ref)})
  {
    hide ProfileName, Written;
    assert ref in [ref];
  }

  lemma KnownReportsNothing(lib: Library, root: string, unknown: seq<string>, name: string, before: set<string>, after: set<string>)
    requires name in lib && Reports(lib, root, unknown, before + {name}, after)
    ensures Reports(lib, root, unknown, before, after)
  {
    hide ProfileName, Written;
  }

  lemma BasesAreWritten(lib: Library, root: string, ref: string)
    requires Written(lib, root, ref) && ProfileName(ref) in lib
    ensures forall base :: base in lib[ProfileName(ref)].bases ==> Written(lib, root, base)
  {
    hide ProfileName, Reaches;
    var n :| n in lib && Reaches(lib, root, n) && ref in lib[n].bases;
    ExtendsByName(lib, n, ProfileName(ref));
    ReachesFurther(lib, root, n, ProfileName(ref));
  }

  /**
   * A failed resolution names what is missing: references as they are written in the documents that the name reaches,
   * one for each unknown profile it reaches.
   */
  lemma UnknownBasesAreWritten(lib: Library, name: string, refs: seq<string>)
    requires ResolutionOf(lib, name) == UnknownBases(refs)
    ensures forall ref :: ref in refs ==> Written(lib, name, ref) && exists m :: Refers(ref, m) && m !in lib && Reaches(lib, name, m)
    ensures forall m :: m !in lib && Reaches(lib, name, m) ==> exists ref :: ref in refs && Refers(ref, m)
    ensures forall i, j, m :: 0 <= i < j < |refs| && Refers(refs[i], m) ==> !Refers(refs[j], m)
  {
    hide ProfileName, Reaches, Expand, Refers;
    ReachesSelf(lib, name);
    ExpandReports(lib, name, lib[name].bases, {name});
    var t := Expand(lib, lib[name].bases, {name});
    forall ref, m
      ensures ProfileName(ref) == m <==> Refers(ref, m)
    {
      RefersIff(ref, m);
    }
    forall ref | ref in lib[name].bases
      ensures Reaches(lib, name, ProfileName(ref))
    {
      ExtendsByName(lib, name, ProfileName(ref));
      ReachesFurther(lib, name, name, ProfileName(ref));
    }
    ExpandIsSound(lib, name, lib[name].bases, {name});
    ReachedAreSeen(lib, name);
  }

  // ----- the order -----

  /** Depth-first preorder by the textbook stack: take the top, and push its bases above the rest. */
  function Preorder(lib: Library, stack: seq<string>, seen: set<string>): seq<string>
    decreases lib.Keys - seen, |stack|
  {
    if stack == [] then []
    else
      var name := ProfileName(stack[0]);
      if name in seen then Preorder(lib, stack[1..], seen)
      else if name !in lib then
        assert lib.Keys - (seen + {name}) == lib.Keys - seen;
        Preorder(lib, stack[1..], seen + {name})
      else
        assert name in lib.Keys - seen && name !in lib.Keys - (seen + {name});
        [name] + Preorder(lib, lib[name].bases + stack[1..], seen + {name})
  }

  lemma {:induction false} ExpandThenRest(lib: Library, refs: seq<string>, rest: seq<string>, seen: set<string>)
    ensures var t := Expand(lib, refs, seen);
      Preorder(lib, refs + rest, seen) == t.order + Preorder(lib, rest, t.seen)
    decreases lib.Keys - seen, |refs|
  {
    hide ProfileName;
    if refs == [] {
      assert refs + rest == rest;
    } else {
      var name := ProfileName(refs[0]);
      assert (refs + rest)[0] == refs[0] && (refs + rest)[1..] == refs[1..] + rest;
      if name in seen {
        ExpandThenRest(lib, refs[1..], rest, seen);
      } else if name !in lib {
        assert lib.Keys - (seen + {name}) == lib.Keys - seen;
        ExpandThenRest(lib, refs[1..], rest, seen + {name});
      } else {
        assert name in lib.Keys - seen && name !in lib.Keys - (seen + {name});
        ExpandThenRest(lib, lib[name].bases, refs[1..] + rest, seen + {name});
        ExpandThenRest(lib, refs[1..], rest, Expand(lib, lib[name].bases, seen + {name}).seen);
      }
    }
  }

  /** The recursive traversal with its shared seen set visits in depth-first preorder. */
  lemma ExpandIsPreorder(lib: Library, refs: seq<string>, seen: set<string>)
    ensures Expand(lib, refs, seen).order == Preorder(lib, refs, seen)
  {
    ExpandThenRest(lib, refs, [], seen);
    assert refs + [] == refs;
  }

  // ----- resolution -----

  ghost predicate AllNormal(lib: Library) {
    forall n :: n in lib ==> Normal(lib[n])
  }

  /** The profiles a resolution merges, the profile's own first. */
  function Lineage(lib: Library, name: string): seq<Profile>
    requires name in lib
  {
    ExpandAddsNew(lib, lib[name].bases, {name});
    [lib[name]] + ProfilesOf(lib, Expand(lib, lib[name].bases, {name}).order)
  }

  /**
   * Resolution over a normalised library: it fails exactly when the name is unknown or an unknown base is reached;
   * otherwise its collections are the profile's own followed by its bases' in depth-first preorder, each metadata
   * field is its first definer's, and the final normalisation changes nothing.
   */
  lemma ResolveIsLineage(lib: Library, name: string, resource: string, field: string)
    requires AllNormal(lib)
    ensures ResolutionOf(lib, name).Resolved? <==> name in lib && forall n :: Reaches(lib, name, n) ==> n in lib
    ensures ResolutionOf(lib, name).Resolved? ==>
      var p, line := ResolutionOf(lib, name).profile, Lineage(lib, name);
      && Normal(p)
      && p.name == lib[name].name && p.sysObjectIDs == lib[name].sysObjectIDs && p.bases == lib[name].bases
      && p.metrics == Gather(line, (q: Profile) => q.metrics)
      && p.metricTags == Gather(line, (q: Profile) => q.metricTags)
      && p.staticTags == Gather(line, (q: Profile) => q.staticTags)
      && IDTagsOf(p, resource) == Gather(line, (q: Profile) => IDTagsOf(q, resource))
      && FieldOf(p, resource, field) == FirstDefiner(line, resource, field)
  {
    hide Expand, ProfileName, Normal, Merge, FieldOf, IDTagsOf, Distinct;
    ReachesSelf(lib, name);
    if name in lib {
      var t := Expand(lib, lib[name].bases, {name});
      TraversalReachesExactly(lib, name);
      ExpandAddsNew(lib, lib[name].bases, {name});
      var parents := ProfilesOf(lib, t.order);
      forall p | p in parents
        ensures Normal(p)
      {
        var i :| 0 <= i < |parents| && parents[i] == p;
        assert t.order[i] in lib;
      }
      MergeAllIsNormal(lib[name], parents);
      NormalUnchanged(MergeAll(lib[name], parents));
      MergedCollections(lib[name], parents, resource);
      MergedFieldIsFirstDefined(lib[name], parents, resource, field);
      MergeAllKeepsName(lib[name], parents);
    }
  }

  lemma NormalUnchanged(p: Profile)
    requires Normal(p)
    ensures Normalize(p) == p
  {
  }

  lemma {:induction false} MergeAllKeepsName(base: Profile, parents: seq<Profile>)
    ensures var p := MergeAll(base, parents); p.name == base.name && p.sysObjectIDs == base.sysObjectIDs && p.bases == base.bases
  {
    if parents != [] {
      MergeAllKeepsName(base, parents[..|parents| - 1]);
    }
  }
}
