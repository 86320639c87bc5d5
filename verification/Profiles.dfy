/** Profile documents as values: internal/profiledefinition/definition.go and normalize.go. */
module Profiles {
  import opened Collections

  datatype MetricType =
    | Unset | Gauge | MonotonicCount | MonotonicCountAndRate | Rate | FlagStream
    | LegacyCounter | LegacyPercent | OtherType(name: string)

  /** `transform` stands for the fields that normalisation and merging never look at. */
  datatype Symbol = Symbol(oid: string, name: string, metricType: MetricType, transform: string)

  const NO_SYMBOL: Symbol := Symbol("", "", Unset, "")

  datatype Tag = Tag(tag: string, symbol: Symbol, column: Symbol, oid: string, name: string, options: string)

  /** A metric entry without its two slices. */
  datatype Head = Head(symbol: Symbol, metricType: MetricType, forcedType: MetricType, oid: string, name: string,
                       table: Symbol, staticTags: seq<string>, options: string)

  datatype Metric = Metric(head: Head, symbols: seq<Symbol>, tags: seq<Tag>)

  datatype Field = Field(symbol: Symbol, symbols: seq<Symbol>, value: string)

  datatype Resource = Resource(fields: map<string, Field>, idTags: seq<Tag>)

  datatype Profile = Profile(name: string, sysObjectIDs: seq<string>, bases: seq<string>,
                             metrics: seq<Metric>, metricTags: seq<Tag>, staticTags: seq<string>,
                             metadata: map<string, Resource>, vendor: string)

  // ----- normalisation -----

  function NormalType(t: MetricType): MetricType {
    match t
    case LegacyCounter => Rate
    case LegacyPercent => Gauge
    case _ => t
  }

  function NormalSymbol(s: Symbol): Symbol {
    s.(metricType := NormalType(s.metricType))
  }

  function NormalTag(t: Tag): Tag {
    var u := if t.symbol.oid == "" && t.column.oid != "" then t.(symbol := t.column, column := NO_SYMBOL) else t;
    if u.symbol.oid == "" && u.oid != "" then u.(symbol := Symbol(u.oid, u.name, Unset, ""), oid := "") else u
  }

  function NormalHead(h: Head): Head {
    var typed := if h.metricType == Unset && h.forcedType != Unset then h.forcedType else h.metricType;
    var g := h.(metricType := NormalType(typed), forcedType := Unset);
    var inlined := g.symbol.oid == "" && g.oid != "";
    var k := if inlined then g.(symbol := Symbol(g.oid, g.name, Unset, ""), oid := "", name := "") else g;
    k.(symbol := NormalSymbol(k.symbol))
  }

  function NormalSymbols(s: seq<Symbol>): (r: seq<Symbol>)
    ensures |r| == |s| && forall i :: 0 <= i < |s| ==> r[i] == NormalSymbol(s[i])
  {
    seq(|s|, i requires 0 <= i < |s| => NormalSymbol(s[i]))
  }

  function NormalTags(s: seq<Tag>): (r: seq<Tag>)
    ensures |r| == |s| && forall i :: 0 <= i < |s| ==> r[i] == NormalTag(s[i])
  {
    seq(|s|, i requires 0 <= i < |s| => NormalTag(s[i]))
  }

  function NormalMetric(m: Metric): Metric {
    Metric(NormalHead(m.head), NormalSymbols(m.symbols), NormalTags(m.tags))
  }

  function NormalMetrics(s: seq<Metric>): (r: seq<Metric>)
    ensures |r| == |s| && forall i :: 0 <= i < |s| ==> r[i] == NormalMetric(s[i])
  {
    seq(|s|, i requires 0 <= i < |s| => NormalMetric(s[i]))
  }

  function NormalResource(r: Resource): Resource {
    r.(idTags := NormalTags(r.idTags))
  }

  function WithVendor(device: Resource, vendor: string): Resource {
    if "vendor" in device.fields then device
    else device.(fields := device.fields["vendor" := Field(NO_SYMBOL, [], vendor)])
  }

  /** A legacy vendor becomes the device's vendor field, unless that field exists. */
  function FoldVendor(metadata: map<string, Resource>, vendor: string): map<string, Resource> {
    if vendor == "" then metadata
    else metadata["device" := WithVendor(if "device" in metadata then metadata["device"] else Resource(map[], []), vendor)]
  }

  function NormalMetadata(metadata: map<string, Resource>): map<string, Resource> {
    map r | r in metadata :: NormalResource(metadata[r])
  }

  function Normalize(p: Profile): Profile {
    p.(metrics := NormalMetrics(p.metrics),
       metricTags := NormalTags(p.metricTags),
       metadata := FoldVendor(NormalMetadata(p.metadata), p.vendor),
       vendor := "")
  }

  ghost predicate Normal(p: Profile) {
    Normalize(p) == p
  }

  lemma TagsIdempotent(s: seq<Tag>)
    ensures NormalTags(NormalTags(s)) == NormalTags(s)
  {
  }

  lemma SymbolsIdempotent(s: seq<Symbol>)
    ensures NormalSymbols(NormalSymbols(s)) == NormalSymbols(s)
  {
  }

  lemma MetricsIdempotent(s: seq<Metric>)
    ensures NormalMetrics(NormalMetrics(s)) == NormalMetrics(s)
  {
    forall i | 0 <= i < |s|
      ensures NormalMetric(NormalMetric(s[i])) == NormalMetric(s[i])
    {
      TagsIdempotent(s[i].tags);
      SymbolsIdempotent(s[i].symbols);
    }
  }

  lemma MetadataIdempotent(metadata: map<string, Resource>, vendor: string)
    ensures NormalMetadata(FoldVendor(NormalMetadata(metadata), vendor)) == FoldVendor(NormalMetadata(metadata), vendor)
  {
    forall r | r in metadata
      ensures NormalResource(NormalResource(metadata[r])) == NormalResource(metadata[r])
    {
      TagsIdempotent(metadata[r].idTags);
    }
    assert NormalTags([]) == [];
  }

  /** Normalising twice changes nothing more, with all legacy spellings at once. */
  lemma NormalizeIdempotent(p: Profile)
    ensures Normal(Normalize(p))
  {
    MetricsIdempotent(p.metrics);
    TagsIdempotent(p.metricTags);
    MetadataIdempotent(p.metadata, p.vendor);
  }

  // ----- merging -----

  function MergeResource(child: Resource, parent: Resource): Resource {
    Resource(parent.fields + child.fields, child.idTags + parent.idTags)
  }

  function MergeMetadata(child: map<string, Resource>, parent: map<string, Resource>): map<string, Resource> {
    map r | r in child.Keys + parent.Keys ::
      MergeResource(if r in child then child[r] else Resource(map[], []), if r in parent then parent[r] else Resource(map[], []))
  }

  /** The parent's collections after the child's; the child's metadata fields win. */
  function Merge(child: Profile, parent: Profile): Profile {
    child.(metrics := child.metrics + parent.metrics,
           metricTags := child.metricTags + parent.metricTags,
           staticTags := child.staticTags + parent.staticTags,
           metadata := MergeMetadata(child.metadata, parent.metadata))
  }

  function MergeAll(base: Profile, parents: seq<Profile>): Profile {
    if parents == [] then base else Merge(MergeAll(base, parents[..|parents| - 1]), parents[|parents| - 1])
  }

  /** Merging normal profiles gives a normal profile: the final normalisation finds nothing to do. */
  lemma MergeIsNormal(child: Profile, parent: Profile)
    requires Normal(child) && Normal(parent)
    ensures Normal(Merge(child, parent))
  {
    NormalParts(child);
    NormalParts(parent);
    var m := Merge(child, parent);
    assert NormalMetrics(m.metrics) == m.metrics;
    assert NormalTags(m.metricTags) == m.metricTags;
    forall r | r in m.metadata
      ensures NormalResource(m.metadata[r]) == m.metadata[r]
    {
      assert r in child.metadata ==> NormalResource(child.metadata[r]) == child.metadata[r];
      assert r in parent.metadata ==> NormalResource(parent.metadata[r]) == parent.metadata[r];
      assert NormalTags([]) == [];
    }
    assert NormalMetadata(m.metadata) == m.metadata;
  }

  lemma NormalParts(p: Profile)
    requires Normal(p)
    ensures p.vendor == "" && NormalMetadata(p.metadata) == p.metadata
    ensures NormalMetrics(p.metrics) == p.metrics && NormalTags(p.metricTags) == p.metricTags
    ensures forall r :: r in p.metadata ==> NormalResource(p.metadata[r]) == p.metadata[r]
    ensures forall i :: 0 <= i < |p.metrics| ==> NormalMetric(p.metrics[i]) == p.metrics[i]
    ensures forall i :: 0 <= i < |p.metricTags| ==> NormalTag(p.metricTags[i]) == p.metricTags[i]
  {
    assert Normalize(p).vendor == "";
    forall r | r in p.metadata
      ensures NormalResource(p.metadata[r]) == p.metadata[r]
    {
      assert NormalMetadata(p.metadata)[r] == p.metadata[r];
    }
  }

  lemma {:induction false} MergeAllIsNormal(base: Profile, parents: seq<Profile>)
    requires Normal(base) && forall p :: p in parents ==> Normal(p)
    ensures Normal(MergeAll(base, parents))
  {
    hide Normal, Merge;
    if parents != [] {
      MergeAllIsNormal(base, parents[..|parents| - 1]);
      MergeIsNormal(MergeAll(base, parents[..|parents| - 1]), parents[|parents| - 1]);
    }
  }

  // ----- what merging amounts to -----

  /** A metadata field of a profile, as a list of at most one. */
  function FieldOf(p: Profile, resource: string, field: string): (f: seq<Field>)
    ensures |f| <= 1
  {
    if resource in p.metadata && field in p.metadata[resource].fields then [p.metadata[resource].fields[field]] else []
  }

  function IDTagsOf(p: Profile, resource: string): seq<Tag> {
    if resource in p.metadata then p.metadata[resource].idTags else []
  }

  /** The field as the first profile of the list that defines it has it. */
  function FirstDefiner(profiles: seq<Profile>, resource: string, field: string): (f: seq<Field>)
    ensures |f| <= 1
  {
    if profiles == [] then []
    else
      var own := FieldOf(profiles[0], resource, field);
      if own != [] then own else FirstDefiner(profiles[1..], resource, field)
  }

  function Gather<T>(profiles: seq<Profile>, part: Profile -> seq<T>): seq<T> {
    if profiles == [] then [] else part(profiles[0]) + Gather(profiles[1..], part)
  }

  lemma {:induction false} FirstDefinerOfAppended(profiles: seq<Profile>, last: Profile, resource: string, field: string)
    ensures FirstDefiner(profiles + [last], resource, field) ==
      (var f := FirstDefiner(profiles, resource, field); if f != [] then f else FieldOf(last, resource, field))
  {
    hide FieldOf;
    if profiles == [] {
      assert (profiles + [last])[1..] == [];
    } else {
      assert (profiles + [last])[1..] == profiles[1..] + [last];
      FirstDefinerOfAppended(profiles[1..], last, resource, field);
    }
  }

  lemma {:induction false} GatherAppended<T>(profiles: seq<Profile>, last: Profile, part: Profile -> seq<T>)
    ensures Gather(profiles + [last], part) == Gather(profiles, part) + part(last)
  {
    if profiles == [] {
      assert (profiles + [last])[1..] == [];
    } else {
      assert (profiles + [last])[1..] == profiles[1..] + [last];
      GatherAppended(profiles[1..], last, part);
      SeqAssociative(part(profiles[0]), Gather(profiles[1..], part), part(last));
    }
  }

  lemma MergedParts(child: Profile, parent: Profile, resource: string, field: string)
    ensures FieldOf(Merge(child, parent), resource, field) ==
      (if FieldOf(child, resource, field) != [] then FieldOf(child, resource, field) else FieldOf(parent, resource, field))
    ensures IDTagsOf(Merge(child, parent), resource) == IDTagsOf(child, resource) + IDTagsOf(parent, resource)
  {
  }

  /** Every metadata field of a merge is that of its first definer, in merge order. */
  lemma {:induction false} MergedFieldIsFirstDefined(base: Profile, parents: seq<Profile>, resource: string, field: string)
    ensures FieldOf(MergeAll(base, parents), resource, field) == FirstDefiner([base] + parents, resource, field)
  {
    hide FieldOf, Merge;
    if parents == [] {
      assert ([base] + parents)[1..] == [];
    } else {
      var n := |parents| - 1;
      MergedFieldIsFirstDefined(base, parents[..n], resource, field);
      assert [base] + parents == ([base] + parents[..n]) + [parents[n]];
      FirstDefinerOfAppended([base] + parents[..n], parents[n], resource, field);
      MergedParts(MergeAll(base, parents[..n]), parents[n], resource, field);
    }
  }

  /** A part that merging concatenates is the concatenation over all profiles, in merge order. */
  lemma {:induction false} MergedPartIsGathered<T>(base: Profile, parents: seq<Profile>, part: Profile -> seq<T>)
    requires forall c, p :: part(Merge(c, p)) == part(c) + part(p)
    ensures part(MergeAll(base, parents)) == Gather([base] + parents, part)
  {
    if parents == [] {
      assert ([base] + parents)[1..] == [];
    } else {
      var n := |parents| - 1;
      MergedPartIsGathered(base, parents[..n], part);
      assert [base] + parents == ([base] + parents[..n]) + [parents[n]];
      GatherAppended([base] + parents[..n], parents[n], part);
    }
  }

  /** The collections of a merge: the base's own, then each parent's, in merge order. */
  lemma MergedCollections(base: Profile, parents: seq<Profile>, resource: string)
    ensures MergeAll(base, parents).metrics == Gather([base] + parents, (p: Profile) => p.metrics)
    ensures MergeAll(base, parents).metricTags == Gather([base] + parents, (p: Profile) => p.metricTags)
    ensures MergeAll(base, parents).staticTags == Gather([base] + parents, (p: Profile) => p.staticTags)
    ensures IDTagsOf(MergeAll(base, parents), resource) == Gather([base] + parents, (p: Profile) => IDTagsOf(p, resource))
  {
    forall c, p
      ensures IDTagsOf(Merge(c, p), resource) == IDTagsOf(c, resource) + IDTagsOf(p, resource)
    {
      MergedParts(c, p, resource, "");
    }
    MergedPartIsGathered(base, parents, (p: Profile) => p.metrics);
    MergedPartIsGathered(base, parents, (p: Profile) => p.metricTags);
    MergedPartIsGathered(base, parents, (p: Profile) => p.staticTags);
    MergedPartIsGathered(base, parents, (p: Profile) => IDTagsOf(p, resource));
  }
}
