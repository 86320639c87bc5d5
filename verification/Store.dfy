/**
 * Resolution over shared, mutable documents: internal/profile/store.go. Maps and slices are references, as they are
 * in the program: a merged profile shares the symbol and tag slices of its bases, and normalising it writes to them.
 */
module Store {
  import opened Collections
  import opened Profiles
  import opened Inheritance

  class FieldTable {
    var entries: map<string, Field>

    constructor (entries: map<string, Field>)
      ensures this.entries == entries
    {
      this.entries := entries;
    }
  }

  datatype ResourceCell = ResourceCell(fields: FieldTable?, idTags: seq<Tag>)

  datatype MetricCell = MetricCell(head: Head, symbols: array<Symbol>, tags: array<Tag>)

  ghost function MetricView(m: MetricCell): Metric
    reads m.symbols, m.tags
  {
    Metric(m.head, m.symbols[..], m.tags[..])
  }

  ghost function EntriesOf(t: FieldTable?): map<string, Field>
    reads t
  {
    if t == null then map[] else t.entries
  }

  ghost function ResourceView(c: ResourceCell): Resource
    reads c.fields
  {
    Resource(EntriesOf(c.fields), c.idTags)
  }

  ghost function TablesOf(metadata: map<string, ResourceCell>): set<FieldTable> {
    set r | r in metadata && metadata[r].fields != null :: metadata[r].fields
  }

  ghost function MetadataView(metadata: map<string, ResourceCell>): map<string, Resource>
    reads TablesOf(metadata)
  {
    map r | r in metadata :: ResourceView(metadata[r])
  }

  ghost function SymbolArrays(metrics: seq<MetricCell>): set<array<Symbol>> {
    set m | m in metrics :: m.symbols
  }

  ghost function TagArrays(metrics: seq<MetricCell>): set<array<Tag>> {
    set m | m in metrics :: m.tags
  }

  ghost function MetricsView(metrics: seq<MetricCell>): (r: seq<Metric>)
    reads SymbolArrays(metrics), TagArrays(metrics)
    ensures |r| == |metrics| && forall i :: 0 <= i < |metrics| ==> r[i] == MetricView(metrics[i])
  {
    if metrics == [] then []
    else
      assert SymbolArrays(metrics[..|metrics| - 1]) <= SymbolArrays(metrics);
      assert TagArrays(metrics[..|metrics| - 1]) <= TagArrays(metrics);
      assert metrics[|metrics| - 1] in metrics;
      MetricsView(metrics[..|metrics| - 1]) + [MetricView(metrics[|metrics| - 1])]
  }

  class Definition {
    var name: string
    var sysObjectIDs: seq<string>
    var bases: seq<string>
    var metrics: seq<MetricCell>
    var metricTags: seq<Tag>
    var staticTags: seq<string>
    var metadata: map<string, ResourceCell>
    var vendor: string

    constructor (name: string, sysObjectIDs: seq<string>, bases: seq<string>, metrics: seq<MetricCell>, metricTags: seq<Tag>,
                 staticTags: seq<string>, metadata: map<string, ResourceCell>, vendor: string)
      ensures this.name == name && this.sysObjectIDs == sysObjectIDs && this.bases == bases && this.metrics == metrics
      ensures this.metricTags == metricTags && this.staticTags == staticTags && this.metadata == metadata && this.vendor == vendor
    {
      this.name, this.sysObjectIDs, this.bases, this.metrics := name, sysObjectIDs, bases, metrics;
      this.metricTags, this.staticTags, this.metadata, this.vendor := metricTags, staticTags, metadata, vendor;
    }

    /** The objects a document consists of, besides itself. */
    ghost function Parts(): set<object>
      reads this
    {
      (set t | t in TablesOf(metadata) :: t as object)
      + (set a | a in SymbolArrays(metrics) :: a as object)
      + (set a | a in TagArrays(metrics) :: a as object)
    }

    /** The document this object holds now. */
    ghost function View(): Profile
      reads this, Parts()
    {
      Profile(name, sysObjectIDs, bases, MetricsView(metrics), metricTags, staticTags, MetadataView(metadata), vendor)
    }
  }

  /** No two resources share a field table. */
  ghost predicate Separate(metadata: map<string, ResourceCell>) {
    forall r, s :: r in metadata && s in metadata && r != s && metadata[r].fields != null ==>
      metadata[r].fields != metadata[s].fields
  }

  // ----- merge -----

  /** Add the fields the destination does not have yet. */
  method MergeFields(into: FieldTable, from: map<string, Field>)
    modifies into
    ensures into.entries == from + old(into.entries)
  {
    var names := from.Keys;
    while names != {}
      invariant names <= from.Keys
      invariant into.entries == (map f | f in from && f !in names :: from[f]) + old(into.entries)
    {
      var f :| f in names;
      if f !in into.entries {
        into.entries := into.entries[f := from[f]];
      }
      names := names - {f};
    }
    assert (map f | f in from && f !in names :: from[f]) == from;
  }

  /** The destination's resource with the parent's fields and tags added; its field table is made when needed. */
  method MergeCells(cell: ResourceCell, parent: ResourceCell) returns (merged: ResourceCell)
    requires parent.fields != null ==> parent.fields != cell.fields
    modifies cell.fields
    ensures merged.fields == cell.fields || fresh(merged.fields)
    ensures ResourceView(merged) == MergeResource(old(ResourceView(cell)), old(ResourceView(parent)))
  {
    var fields := cell.fields;
    if fields == null && parent.fields != null && parent.fields.entries != map[] {
      fields := new FieldTable(map[]);
    }
    if fields != null && parent.fields != null {
      MergeFields(fields, parent.fields.entries);
    }
    merged := ResourceCell(fields, cell.idTags + parent.idTags);
    assert EntriesOf(fields) == old(EntriesOf(parent.fields)) + old(EntriesOf(cell.fields));
  }

  ghost function ResourceAt(metadata: map<string, Resource>, r: string): Resource {
    if r in metadata then metadata[r] else Resource(map[], [])
  }

  lemma TableOfResource(metadata: map<string, ResourceCell>, r: string)
    requires r in metadata && metadata[r].fields != null
    ensures metadata[r].fields in TablesOf(metadata)
  {
  }

  /** The cell of a resource, or an empty one; only that resource uses its table. */
  function CellAt(metadata: map<string, ResourceCell>, r: string): ResourceCell {
    if r in metadata then metadata[r] else ResourceCell(null, [])
  }

  lemma ReplacedCell(metadata: map<string, ResourceCell>, r: string, merged: ResourceCell)
    requires Separate(metadata)
    requires merged.fields == null || merged.fields == CellAt(metadata, r).fields || merged.fields !in TablesOf(metadata)
    ensures Separate(metadata[r := merged])
    ensures TablesOf(metadata[r := merged]) <= TablesOf(metadata) + (if merged.fields == null then {} else {merged.fields})
  {
    forall s | s in metadata && metadata[s].fields != null
      ensures metadata[s].fields in TablesOf(metadata)
    {
    }
  }

  /** Put a cell in place; a table that it brings along must be the resource's own or no other's. */
  method SetCell(d: Definition, r: string, cell: ResourceCell)
    requires Separate(d.metadata)
    requires cell.fields == null || cell.fields == CellAt(d.metadata, r).fields || cell.fields !in TablesOf(d.metadata)
    modifies d`metadata
    ensures Separate(d.metadata)
    ensures TablesOf(d.metadata) <= old(TablesOf(d.metadata)) + (if cell.fields == null then {} else {cell.fields})
    ensures MetadataView(d.metadata) == old(MetadataView(d.metadata))[r := ResourceView(cell)]
  {
    hide Separate, ResourceView;
    ReplacedCell(d.metadata, r, cell);
    d.metadata := d.metadata[r := cell];
  }

  method MergeResourceInto(dst: Definition, r: string, parent: ResourceCell)
    requires Separate(dst.metadata) && (parent.fields != null ==> parent.fields !in TablesOf(dst.metadata))
    modifies dst`metadata, TablesOf(dst.metadata)
    ensures Separate(dst.metadata) && fresh(TablesOf(dst.metadata) - old(TablesOf(dst.metadata)))
    ensures MetadataView(dst.metadata) ==
      old(MetadataView(dst.metadata))[r := MergeResource(ResourceAt(old(MetadataView(dst.metadata)), r), old(ResourceView(parent)))]
  {
    hide Separate, MergeResource;
    var cell := CellAt(dst.metadata, r);
    if cell.fields != null {
      TableOfResource(dst.metadata, r);
    }
    OnlyOwnTable(dst.metadata, r);
    ghost var before := MetadataView(dst.metadata);
    var merged := MergeCells(cell, parent);
    assert forall s :: s in before && s != r ==> MetadataView(dst.metadata)[s] == before[s];
    SetCell(dst, r, merged);
  }

  lemma OnlyOwnTable(metadata: map<string, ResourceCell>, r: string)
    requires Separate(metadata)
    ensures forall s :: s in metadata && s != r && metadata[s].fields != null ==> metadata[s].fields != CellAt(metadata, r).fields
  {
  }

  function Restrict<V>(m: map<string, V>, keys: set<string>): map<string, V> {
    map k | k in m && k in keys :: m[k]
  }

  /** Merging one more resource of the parent. */
  lemma MergeMetadataStep(child: map<string, Resource>, parent: map<string, Resource>, done: set<string>, r: string)
    requires r in parent && r !in done
    ensures var before := MergeMetadata(child, Restrict(parent, done));
      MergeMetadata(child, Restrict(parent, done + {r})) == before[r := MergeResource(ResourceAt(before, r), parent[r])]
  {
    var before := MergeMetadata(child, Restrict(parent, done));
    assert ResourceAt(before, r) == ResourceAt(child, r);
  }

  lemma MergeMetadataEnds(child: map<string, Resource>, parent: map<string, Resource>)
    ensures MergeMetadata(child, Restrict(parent, {})) == child
    ensures MergeMetadata(child, Restrict(parent, parent.Keys)) == MergeMetadata(child, parent)
  {
    assert Restrict(parent, parent.Keys) == parent;
    forall r | r in child
      ensures MergeResource(child[r], Resource(map[], [])) == child[r]
    {
      assert map[] + child[r].fields == child[r].fields && child[r].idTags + [] == child[r].idTags;
    }
  }

  lemma {:induction false} MetricsViewConcat(a: seq<MetricCell>, b: seq<MetricCell>)
    ensures MetricsView(a + b) == MetricsView(a) + MetricsView(b)
  {
    assert |MetricsView(a + b)| == |a| + |b|;
  }

  method MergeMetadataInto(dst: Definition, parent: Definition)
    requires dst != parent && Separate(dst.metadata) && TablesOf(dst.metadata) !! TablesOf(parent.metadata)
    modifies dst`metadata, TablesOf(dst.metadata)
    ensures Separate(dst.metadata) && fresh(TablesOf(dst.metadata) - old(TablesOf(dst.metadata)))
    ensures MetadataView(dst.metadata) == MergeMetadata(old(MetadataView(dst.metadata)), old(MetadataView(parent.metadata)))
  {
    hide Separate, MergeMetadata, MergeResource, Restrict;
    ghost var child, base := MetadataView(dst.metadata), MetadataView(parent.metadata);
    MergeMetadataEnds(child, base);
    var names := parent.metadata.Keys;
    assert base.Keys - names == {};
    while names != {}
      invariant names <= parent.metadata.Keys && Separate(dst.metadata)
      invariant fresh(TablesOf(dst.metadata) - old(TablesOf(dst.metadata)))
      invariant MetadataView(parent.metadata) == base
      invariant MetadataView(dst.metadata) == MergeMetadata(child, Restrict(base, base.Keys - names))
    {
      var r :| r in names;
      MergeMetadataStep(child, base, base.Keys - names, r);
      assert base.Keys - names + {r} == base.Keys - (names - {r});
      assert ResourceView(parent.metadata[r]) == base[r];
      if parent.metadata[r].fields != null {
        TableOfResource(parent.metadata, r);
      }
      MergeResourceInto(dst, r, parent.metadata[r]);
      names := names - {r};
    }
    assert base.Keys - names == base.Keys;
  }

  method AppendCollections(dst: Definition, parent: Definition)
    requires dst != parent
    modifies dst`metrics, dst`metricTags, dst`staticTags
    ensures dst.metrics == old(dst.metrics) + parent.metrics
    ensures MetricsView(dst.metrics) == old(MetricsView(dst.metrics)) + MetricsView(parent.metrics)
    ensures dst.metricTags == old(dst.metricTags) + parent.metricTags
    ensures dst.staticTags == old(dst.staticTags) + parent.staticTags
  {
    MetricsViewConcat(dst.metrics, parent.metrics);
    dst.metrics := dst.metrics + parent.metrics;
    dst.metricTags := dst.metricTags + parent.metricTags;
    dst.staticTags := dst.staticTags + parent.staticTags;
  }

  /** merge: the parent's collections appended, its metadata filled in where the destination has none. */
  method MergeInto(dst: Definition, parent: Definition)
    requires dst != parent && Separate(dst.metadata) && TablesOf(dst.metadata) !! TablesOf(parent.metadata)
    modifies dst, TablesOf(dst.metadata)
    ensures dst.View() == Merge(old(dst.View()), old(parent.View()))
    ensures Separate(dst.metadata) && fresh(TablesOf(dst.metadata) - old(TablesOf(dst.metadata)))
    ensures dst.metrics == old(dst.metrics) + old(parent.metrics)
  {
    hide Separate, MergeMetadata, MetadataView, MetricsView, SymbolArrays, TagArrays;
    AppendCollections(dst, parent);
    MergeMetadataInto(dst, parent);
  }

  // ----- normalisation in place -----

  method NormalizeTags(a: array<Tag>)
    modifies a
    ensures a[..] == NormalTags(old(a[..]))
  {
    hide NormalTag;
    var i := 0;
    while i < a.Length
      invariant 0 <= i <= a.Length
      invariant forall j :: 0 <= j < i ==> a[j] == NormalTag(old(a[j]))
      invariant forall j :: i <= j < a.Length ==> a[j] == old(a[j])
    {
      a[i] := NormalTag(a[i]);
      i := i + 1;
    }
  }

  method NormalizeSymbols(a: array<Symbol>)
    modifies a
    ensures a[..] == NormalSymbols(old(a[..]))
  {
    hide NormalSymbol;
    var i := 0;
    while i < a.Length
      invariant 0 <= i <= a.Length
      invariant forall j :: 0 <= j < i ==> a[j] == NormalSymbol(old(a[j]))
      invariant forall j :: i <= j < a.Length ==> a[j] == old(a[j])
    {
      a[i] := NormalSymbol(a[i]);
      i := i + 1;
    }
  }

  /** A slice that some entry may or may not have been normalised through. */
  predicate SymbolsOnTheWay(now: seq<Symbol>, was: seq<Symbol>) {
    now == was || now == NormalSymbols(was)
  }

  predicate TagsOnTheWay(now: seq<Tag>, was: seq<Tag>) {
    now == was || now == NormalTags(was)
  }

  lemma OnceIsEnough(symbols: seq<Symbol>, wereSymbols: seq<Symbol>, tags: seq<Tag>, wereTags: seq<Tag>)
    requires SymbolsOnTheWay(symbols, wereSymbols) && TagsOnTheWay(tags, wereTags)
    ensures NormalSymbols(symbols) == NormalSymbols(wereSymbols) && NormalTags(tags) == NormalTags(wereTags)
  {
    SymbolsIdempotent(wereSymbols);
    TagsIdempotent(wereTags);
  }

  /** Slices may be shared between entries and between documents; normalising one twice is as good as once. */
  method NormalizeEntries(metrics: seq<MetricCell>) returns (normal: seq<MetricCell>)
    modifies SymbolArrays(metrics), TagArrays(metrics)
    ensures |normal| == |metrics|
    ensures forall i :: 0 <= i < |metrics| ==>
      normal[i] == MetricCell(NormalHead(metrics[i].head), metrics[i].symbols, metrics[i].tags)
    ensures forall m :: m in metrics ==> m.symbols[..] == NormalSymbols(old(m.symbols[..])) && m.tags[..] == NormalTags(old(m.tags[..]))
  {
    hide NormalHead, NormalTags, NormalSymbols;
    normal := [];
    var i := 0;
    while i < |metrics|
      invariant 0 <= i <= |metrics| && |normal| == i
      invariant forall j :: 0 <= j < i ==>
        normal[j] == MetricCell(NormalHead(metrics[j].head), metrics[j].symbols, metrics[j].tags)
      invariant forall m :: m in metrics ==> SymbolsOnTheWay(m.symbols[..], old(m.symbols[..]))
      invariant forall m :: m in metrics ==> TagsOnTheWay(m.tags[..], old(m.tags[..]))
      invariant forall m :: m in metrics[..i] ==> m.symbols[..] == NormalSymbols(old(m.symbols[..]))
      invariant forall m :: m in metrics[..i] ==> m.tags[..] == NormalTags(old(m.tags[..]))
    {
      var m := metrics[i];
      assert m in metrics && metrics[..i + 1] == metrics[..i] + [m];
      OnceIsEnough(m.symbols[..], old(m.symbols[..]), m.tags[..], old(m.tags[..]));
      NormalizeSymbols(m.symbols);
      NormalizeTags(m.tags);
      normal := normal + [m.(head := NormalHead(m.head))];
      i := i + 1;
    }
    assert metrics[..i] == metrics;
  }

  method NormalizeIDTags(d: Definition)
    requires Separate(d.metadata)
    modifies d`metadata
    ensures Separate(d.metadata) && TablesOf(d.metadata) <= old(TablesOf(d.metadata))
    ensures MetadataView(d.metadata) == NormalMetadata(old(MetadataView(d.metadata)))
  {
    hide NormalTags;
    d.metadata := map r | r in d.metadata :: ResourceCell(d.metadata[r].fields, NormalTags(d.metadata[r].idTags));
  }

  /** The tags of every resource, and the legacy vendor as a device field. */
  method NormalizeMetadata(d: Definition)
    requires Separate(d.metadata)
    modifies d`metadata, d`vendor, TablesOf(d.metadata)
    ensures Separate(d.metadata) && fresh(TablesOf(d.metadata) - old(TablesOf(d.metadata)))
    ensures MetadataView(d.metadata) == FoldVendor(NormalMetadata(old(MetadataView(d.metadata))), old(d.vendor)) && d.vendor == ""
  {
    hide NormalMetadata, Separate, MetadataView, WithVendor;
    NormalizeIDTags(d);
    if d.vendor != "" {
      FoldVendorInto(d, d.vendor);
    }
    d.vendor := "";
  }

  method VendorCell(device: ResourceCell, vendor: string) returns (cell: ResourceCell)
    modifies device.fields
    ensures cell.fields != null && (cell.fields == device.fields || fresh(cell.fields))
    ensures ResourceView(cell) == WithVendor(old(ResourceView(device)), vendor)
  {
    var fields := device.fields;
    if fields == null {
      fields := new FieldTable(map[]);
    }
    if "vendor" !in fields.entries {
      fields.entries := fields.entries["vendor" := Field(NO_SYMBOL, [], vendor)];
    }
    cell := ResourceCell(fields, device.idTags);
  }

  method FoldVendorInto(d: Definition, vendor: string)
    requires Separate(d.metadata) && vendor != ""
    modifies d`metadata, TablesOf(d.metadata)
    ensures Separate(d.metadata) && fresh(TablesOf(d.metadata) - old(TablesOf(d.metadata)))
    ensures MetadataView(d.metadata) == FoldVendor(old(MetadataView(d.metadata)), vendor)
  {
    hide Separate, WithVendor;
    var device := CellAt(d.metadata, "device");
    if device.fields != null {
      TableOfResource(d.metadata, "device");
    }
    OnlyOwnTable(d.metadata, "device");
    ghost var before := MetadataView(d.metadata);
    var cell := VendorCell(device, vendor);
    assert forall s :: s in before && s != "device" ==> MetadataView(d.metadata)[s] == before[s];
    SetCell(d, "device", cell);
  }

  method NormalizeCollections(d: Definition)
    modifies d`metrics, d`metricTags, SymbolArrays(d.metrics), TagArrays(d.metrics)
    ensures MetricsView(d.metrics) == NormalMetrics(old(MetricsView(d.metrics)))
    ensures d.metricTags == NormalTags(old(d.metricTags))
    ensures SameSlices(d.metrics, old(d.metrics))
    ensures forall m :: m in old(d.metrics) ==>
      m.symbols[..] == NormalSymbols(old(m.symbols[..])) && m.tags[..] == NormalTags(old(m.tags[..]))
  {
    hide NormalHead, NormalTags, NormalSymbols, MetricsView;
    ghost var metrics, before := d.metrics, MetricsView(d.metrics);
    var normal := NormalizeEntries(d.metrics);
    d.metrics := normal;
    d.metricTags := NormalTags(d.metricTags);
    forall i | 0 <= i < |metrics|
      ensures MetricsView(d.metrics)[i] == NormalMetric(before[i])
    {
      assert metrics[i] in metrics;
    }
    assert MetricsView(d.metrics) == NormalMetrics(before);
  }

  ghost predicate SameSlices(a: seq<MetricCell>, b: seq<MetricCell>) {
    |a| == |b| && forall i :: 0 <= i < |a| ==> a[i].symbols == b[i].symbols && a[i].tags == b[i].tags
  }

  /** Normalize: every entry, tag list and resource, written in place. */
  method NormalizeDefinition(d: Definition)
    requires Separate(d.metadata)
    modifies d, TablesOf(d.metadata), SymbolArrays(d.metrics), TagArrays(d.metrics)
    ensures d.View() == Normalize(old(d.View()))
    ensures Separate(d.metadata) && fresh(TablesOf(d.metadata) - old(TablesOf(d.metadata)))
    ensures SameSlices(d.metrics, old(d.metrics))
    ensures forall m :: m in old(d.metrics) ==>
      m.symbols[..] == NormalSymbols(old(m.symbols[..])) && m.tags[..] == NormalTags(old(m.tags[..]))
  {
    hide NormalHead, NormalTags, NormalSymbols, NormalMetrics, FoldVendor, NormalMetadata, Separate, MetadataView, MetricsView, SameSlices;
    NormalizeCollections(d);
    NormalizeMetadata(d);
  }

  // ----- copy -----

  method CopySymbols(a: array<Symbol>) returns (b: array<Symbol>)
    ensures fresh(b) && b[..] == a[..]
  {
    b := new Symbol[a.Length](i requires 0 <= i < a.Length reads a => a[i]);
  }

  method CopyTags(a: array<Tag>) returns (b: array<Tag>)
    ensures fresh(b) && b[..] == a[..]
  {
    b := new Tag[a.Length](i requires 0 <= i < a.Length reads a => a[i]);
  }

  method CopyMetrics(metrics: seq<MetricCell>) returns (copy: seq<MetricCell>)
    ensures MetricsView(copy) == MetricsView(metrics)
    ensures fresh(SymbolArrays(copy)) && fresh(TagArrays(copy))
  {
    copy := [];
    var i := 0;
    while i < |metrics|
      invariant 0 <= i <= |metrics| && |copy| == i
      invariant forall j :: 0 <= j < i ==> fresh(copy[j].symbols) && fresh(copy[j].tags)
      invariant forall j :: 0 <= j < i ==> MetricView(copy[j]) == MetricView(metrics[j])
    {
      var symbols := CopySymbols(metrics[i].symbols);
      var tags := CopyTags(metrics[i].tags);
      copy := copy + [MetricCell(metrics[i].head, symbols, tags)];
      i := i + 1;
    }
    assert MetricsView(copy) == MetricsView(metrics);
  }

  method CopyMetadata(metadata: map<string, ResourceCell>) returns (copy: map<string, ResourceCell>)
    ensures MetadataView(copy) == MetadataView(metadata)
    ensures fresh(TablesOf(copy)) && Separate(copy)
  {
    copy := map[];
    var names := metadata.Keys;
    while names != {}
      invariant names <= metadata.Keys && copy.Keys == metadata.Keys - names
      invariant forall r :: r in copy ==> copy[r].fields == null || fresh(copy[r].fields)
      invariant forall r :: r in copy ==> ResourceView(copy[r]) == ResourceView(metadata[r])
      invariant Separate(copy)
    {
      var r :| r in names;
      var fields: FieldTable? := null;
      if metadata[r].fields != null {
        fields := new FieldTable(metadata[r].fields.entries);
      }
      copy := copy[r := ResourceCell(fields, metadata[r].idTags)];
      names := names - {r};
    }
  }

  /** copyDefinition: a document that shares nothing that merge or Normalize writes to. */
  method CopyDefinition(d: Definition) returns (copy: Definition)
    ensures fresh(copy) && copy.View() == d.View()
    ensures fresh(TablesOf(copy.metadata)) && Separate(copy.metadata)
    ensures fresh(SymbolArrays(copy.metrics)) && fresh(TagArrays(copy.metrics))
  {
    hide MetricsView, Separate;
    var metrics := CopyMetrics(d.metrics);
    var metadata := CopyMetadata(d.metadata);
    copy := new Definition(d.name, d.sysObjectIDs, d.bases, metrics, d.metricTags, d.staticTags, metadata, d.vendor);
    assert MetricsView(copy.metrics) == MetricsView(d.metrics);
    assert MetadataView(copy.metadata) == MetadataView(d.metadata);
  }

  // ----- expand -----

  /** The documents hold the library. */
  ghost predicate Shows(docs: map<string, Definition>, lib: Library)
    reads docs.Values, set n, o | n in docs && o in docs[n].Parts() :: o
  {
    docs.Keys == lib.Keys && forall n :: n in docs ==> docs[n].View() == lib[n]
  }

  /** `owned` holds all objects of the documents. */
  ghost predicate Within(docs: map<string, Definition>, owned: set<object>)
    reads docs.Values
  {
    forall n :: n in docs ==> docs[n] in owned && docs[n].Parts() <= owned
  }

  /** The document under construction shares nothing that merging writes to. */
  ghost predicate Apart(owned: set<object>, d: Definition)
    reads d
  {
    d !in owned && forall t :: t in TablesOf(d.metadata) ==> t !in owned
  }

  lemma {:induction false} MergeAllConcat(base: Profile, a: seq<Profile>, b: seq<Profile>)
    ensures MergeAll(base, a + b) == MergeAll(MergeAll(base, a), b)
  {
    if b == [] {
      assert a + b == a;
    } else {
      var n := |b| - 1;
      assert (a + b)[..|a + b| - 1] == a + b[..n] && (a + b)[|a + b| - 1] == b[n];
      MergeAllConcat(base, a, b[..n]);
    }
  }

  /** The slices of the entries, which documents may share, are among the given ones. */
  ghost predicate SlicesIn(metrics: seq<MetricCell>, slices: set<object>) {
    forall m :: m in metrics ==> m.symbols in slices && m.tags in slices
  }

  ghost predicate AllSlicesIn(docs: map<string, Definition>, slices: set<object>)
    reads docs.Values
  {
    forall n :: n in docs ==> SlicesIn(docs[n].metrics, slices)
  }

  lemma TablesAreParts(d: Definition, tables: set<FieldTable>, owned: set<object>)
    requires d.Parts() <= owned && forall t :: t in tables ==> t !in owned
    ensures tables !! TablesOf(d.metadata)
  {
  }

  /** One parent merged into a document that is apart from the raw ones. */
  method MergeNamed(docs: map<string, Definition>, ghost lib: Library, ghost owned: set<object>, dst: Definition, name: string,
                    ghost slices: set<object>)
    requires Shows(docs, lib) && Within(docs, owned) && Apart(owned, dst) && Separate(dst.metadata) && name in docs
    requires SlicesIn(dst.metrics, slices) && AllSlicesIn(docs, slices)
    modifies dst, TablesOf(dst.metadata)
    ensures Shows(docs, lib) && Within(docs, owned) && Apart(owned, dst) && Separate(dst.metadata)
    ensures fresh(TablesOf(dst.metadata) - old(TablesOf(dst.metadata)))
    ensures SlicesIn(dst.metrics, slices) && AllSlicesIn(docs, slices)
    ensures dst.View() == Merge(old(dst.View()), lib[name])
  {
    hide Separate, Merge, Definition.View, Definition.Parts, TablesOf;
    var parent := docs[name];
    TablesAreParts(parent, TablesOf(dst.metadata), owned);
    MergeInto(dst, parent);
    forall n | n in docs
      ensures docs[n].View() == lib[n] && docs[n].Parts() <= owned
    {
      assert docs[n] in owned && old(docs[n].Parts()) <= owned;
      assert docs[n].Parts() == old(docs[n].Parts());
      assert docs[n].View() == old(docs[n].View());
    }
  }

  ghost predicate Building(docs: map<string, Definition>, lib: Library, owned: set<object>, dst: Definition, slices: set<object>)
    reads docs.Values, (set n, o | n in docs && o in docs[n].Parts() :: o), dst
  {
    && Shows(docs, lib) && Within(docs, owned)
    && Apart(owned, dst) && Separate(dst.metadata)
    && SlicesIn(dst.metrics, slices) && AllSlicesIn(docs, slices)
  }

  lemma ProfilesOfConcat(lib: Library, a: seq<string>, b: seq<string>)
    requires (forall n :: n in a ==> n in lib) && forall n :: n in b ==> n in lib
    ensures ProfilesOf(lib, a + b) == ProfilesOf(lib, a) + ProfilesOf(lib, b)
  {
  }

  /** How the document changes when the named profiles are merged in order. */
  ghost function Extended(base: Profile, lib: Library, order: seq<string>): Profile
    requires forall n :: n in order ==> n in lib
  {
    MergeAll(base, ProfilesOf(lib, order))
  }

  lemma ExtendedConcat(base: Profile, lib: Library, a: seq<string>, b: seq<string>)
    requires (forall n :: n in a ==> n in lib) && forall n :: n in b ==> n in lib
    ensures Extended(base, lib, a + b) == Extended(Extended(base, lib, a), lib, b)
  {
    ProfilesOfConcat(lib, a, b);
    MergeAllConcat(base, ProfilesOf(lib, a), ProfilesOf(lib, b));
  }

  lemma ExtendedOne(base: Profile, lib: Library, name: string)
    requires name in lib
    ensures Extended(base, lib, [name]) == Merge(base, lib[name])
    ensures Extended(base, lib, []) == base
  {
    var line := ProfilesOf(lib, [name]);
    assert line[..0] == [] && MergeAll(base, line[..0]) == base;
    assert ProfilesOf(lib, []) == [];
  }

  lemma BasesShown(docs: map<string, Definition>, lib: Library, name: string)
    requires Shows(docs, lib) && name in docs
    ensures name in lib && docs[name].bases == lib[name].bases
  {
    assert docs[name].View().bases == docs[name].bases;
  }

  /** Merge one base and everything it inherits. */
  method Visit(docs: map<string, Definition>, ghost lib: Library, ghost owned: set<object>, dst: Definition, name: string,
               seen: set<string>, ghost slices: set<object>)
    returns (now: set<string>, unknown: seq<string>, ghost order: seq<string>)
    requires Building(docs, lib, owned, dst, slices) && name in docs && name in lib && name !in seen
    modifies dst, TablesOf(dst.metadata)
    ensures Building(docs, lib, owned, dst, slices)
    ensures fresh(TablesOf(dst.metadata) - old(TablesOf(dst.metadata)))
    ensures Traversal(order, now, unknown) ==
      (var t := Expand(lib, lib[name].bases, seen + {name}); Traversal([name] + t.order, t.seen, t.unknown))
    ensures (forall n :: n in order ==> n in lib) && dst.View() == Extended(old(dst.View()), lib, order)
    decreases lib.Keys - seen, 0
  {
    hide Definition.View, Definition.Parts, ProfileName, Separate, Extended, Merge, Shows, Within, Apart, SlicesIn, AllSlicesIn, Expand;
    ghost var base := dst.View();
    MergeNamed(docs, lib, owned, dst, name, slices);
    ExtendedOne(base, lib, name);
    BasesShown(docs, lib, name);
    assert name in lib.Keys - seen && name !in lib.Keys - (seen + {name});
    ghost var inner;
    now, unknown, inner := ExpandInto(docs, lib, owned, dst, docs[name].bases, seen + {name}, slices);
    order := [name] + inner;
    ExtendedConcat(base, lib, [name], inner);
  }

  lemma ExpandSkips(lib: Library, refs: seq<string>, i: nat, now: set<string>)
    requires i < |refs| && ProfileName(refs[i]) in now
    ensures Expand(lib, refs[i..], now) == Expand(lib, refs[i + 1..], now)
  {
    assert refs[i..][1..] == refs[i + 1..];
  }

  lemma ExpandReports(lib: Library, refs: seq<string>, i: nat, now: set<string>)
    requires i < |refs| && ProfileName(refs[i]) !in now && ProfileName(refs[i]) !in lib
    ensures var t := Expand(lib, refs[i + 1..], now + {ProfileName(refs[i])});
      Expand(lib, refs[i..], now) == Traversal(t.order, t.seen, [refs[i]] + t.unknown)
  {
    assert refs[i..][1..] == refs[i + 1..];
  }

  lemma ExpandVisits(lib: Library, refs: seq<string>, i: nat, now: set<string>)
    requires i < |refs| && ProfileName(refs[i]) !in now && ProfileName(refs[i]) in lib
    ensures var name := ProfileName(refs[i]);
      var inner := Expand(lib, lib[name].bases, now + {name});
      var t := Expand(lib, refs[i + 1..], inner.seen);
      Expand(lib, refs[i..], now) == Traversal([name] + inner.order + t.order, t.seen, inner.unknown + t.unknown)
  {
    assert refs[i..][1..] == refs[i + 1..];
  }

  /** What the rest of an extends list adds to what has been done. */
  ghost predicate Remaining(lib: Library, refs: seq<string>, seen: set<string>, i: nat, now: set<string>, unknown: seq<string>, order: seq<string>)
    requires i <= |refs|
  {
    var t := Expand(lib, refs[i..], now);
    Expand(lib, refs, seen) == Traversal(order + t.order, t.seen, unknown + t.unknown)
  }

  lemma AfterVisit(lib: Library, refs: seq<string>, seen: set<string>, i: nat, now: set<string>, unknown: seq<string>, order: seq<string>,
                   after: set<string>, more: seq<string>, visited: seq<string>)
    requires i < |refs| && Remaining(lib, refs, seen, i, now, unknown, order)
    requires ProfileName(refs[i]) !in now && ProfileName(refs[i]) in lib
    requires Traversal(visited, after, more) ==
      (var name := ProfileName(refs[i]); var t := Expand(lib, lib[name].bases, now + {name}); Traversal([name] + t.order, t.seen, t.unknown))
    ensures Remaining(lib, refs, seen, i + 1, after, unknown + more, order + visited)
  {
    hide ProfileName, Expand;
    ExpandVisits(lib, refs, i, now);
    var t := Expand(lib, refs[i + 1..], after);
    SeqAssociative(order, visited, t.order);
    SeqAssociative(unknown, more, t.unknown);
  }

  /** expand: the parents of an extends list, depth first, each once. */
  method ExpandInto(docs: map<string, Definition>, ghost lib: Library, ghost owned: set<object>, dst: Definition, refs: seq<string>,
                    seen: set<string>, ghost slices: set<object>)
    returns (now: set<string>, unknown: seq<string>, ghost order: seq<string>)
    requires Building(docs, lib, owned, dst, slices)
    modifies dst, TablesOf(dst.metadata)
    ensures Building(docs, lib, owned, dst, slices)
    ensures fresh(TablesOf(dst.metadata) - old(TablesOf(dst.metadata)))
    ensures Expand(lib, refs, seen) == Traversal(order, now, unknown)
    ensures (forall n :: n in order ==> n in lib) && dst.View() == Extended(old(dst.View()), lib, order)
    decreases lib.Keys - seen, 1
  {
    hide Definition.View, Definition.Parts, ProfileName, Separate, Extended, Merge, Within, Apart, SlicesIn, AllSlicesIn, Expand;
    now, unknown, order := seen, [], [];
    ghost var base := dst.View();
    ExtendedNothing(base, lib);
    RemainingStarts(lib, refs, seen);
    var i := 0;
    while i < |refs|
      invariant 0 <= i <= |refs| && seen <= now
      invariant Building(docs, lib, owned, dst, slices)
      invariant fresh(TablesOf(dst.metadata) - old(TablesOf(dst.metadata)))
      invariant Remaining(lib, refs, seen, i, now, unknown, order)
      invariant (forall n :: n in order ==> n in lib) && dst.View() == Extended(base, lib, order)
    {
      var name := ProfileName(refs[i]);
      if name in now {
        ExpandSkips(lib, refs, i, now);
      } else if name !in docs {
        ExpandReports(lib, refs, i, now);
        SeqAssociative(unknown, [refs[i]], Expand(lib, refs[i + 1..], now + {name}).unknown);
        now := now + {name};
        unknown := unknown + [refs[i]];
      } else {
        ghost var before := now;
        var more;
        ghost var visited;
        assert lib.Keys - now <= lib.Keys - seen;
        now, more, visited := Visit(docs, lib, owned, dst, name, now, slices);
        AfterVisit(lib, refs, seen, i, before, unknown, order, now, more, visited);
        ExtendedConcat(base, lib, order, visited);
        unknown := unknown + more;
        order := order + visited;
      }
      i := i + 1;
    }
    RemainingEnds(lib, refs, seen, now, unknown, order);
  }

  lemma ExtendedNothing(base: Profile, lib: Library)
    ensures Extended(base, lib, []) == base
  {
  }

  lemma RemainingStarts(lib: Library, refs: seq<string>, seen: set<string>)
    ensures Remaining(lib, refs, seen, 0, seen, [], [])
  {
    assert refs[0..] == refs;
  }

  lemma RemainingEnds(lib: Library, refs: seq<string>, seen: set<string>, now: set<string>, unknown: seq<string>, order: seq<string>)
    requires Remaining(lib, refs, seen, |refs|, now, unknown, order)
    ensures Expand(lib, refs, seen) == Traversal(order, now, unknown)
  {
    assert refs[|refs|..] == [] && order + [] == order && unknown + [] == unknown;
  }

  // ----- the store -----

  lemma NormalSlices(metrics: seq<MetricCell>)
    requires NormalMetrics(MetricsView(metrics)) == MetricsView(metrics)
    ensures forall m :: m in metrics ==> NormalSymbols(m.symbols[..]) == m.symbols[..] && NormalTags(m.tags[..]) == m.tags[..]
  {
    hide NormalHead, NormalTags, NormalSymbols;
    forall m | m in metrics
      ensures NormalSymbols(m.symbols[..]) == m.symbols[..] && NormalTags(m.tags[..]) == m.tags[..]
    {
      var i :| 0 <= i < |metrics| && metrics[i] == m;
      assert NormalMetric(MetricsView(metrics)[i]) == MetricsView(metrics)[i];
    }
  }

  /** Normalising a profile merged from normal ones writes only what is already there. */
  method NormalizeMerged(d: Definition)
    requires Separate(d.metadata) && Normal(d.View())
    modifies d, TablesOf(d.metadata), SymbolArrays(d.metrics), TagArrays(d.metrics)
    ensures d.View() == old(d.View())
    ensures forall a: array<Symbol> :: old(allocated(a)) ==> a[..] == old(a[..])
    ensures forall a: array<Tag> :: old(allocated(a)) ==> a[..] == old(a[..])
  {
    hide NormalHead, NormalTags, NormalSymbols, MetricsView, MetadataView, Separate;
    NormalParts(d.View());
    NormalSlices(d.metrics);
    NormalUnchanged(d.View());
    hide Normalize, NormalMetrics, Normal;
    NormalizeDefinition(d);
  }

  /** Start from a copy of the named document. */
  method Begin(docs: map<string, Definition>, ghost lib: Library, ghost owned: set<object>, name: string, ghost slices: set<object>)
    returns (out: Definition, ghost all: set<object>)
    requires Shows(docs, lib) && Within(docs, owned) && AllSlicesIn(docs, slices) && name in docs
    ensures fresh(out) && fresh(TablesOf(out.metadata)) && (forall o :: o in all ==> o in slices || fresh(o))
    ensures Building(docs, lib, owned, out, all) && out.View() == lib[name]
  {
    hide Definition.View, Definition.Parts, Separate, TablesOf;
    out := CopyDefinition(docs[name]);
    all := WithSlices(out.metrics, slices);
  }

  /** The profiles that cached documents must hold. */
  ghost function Resolutions(lib: Library, names: set<string>): Library {
    map n | n in names && ResolutionOf(lib, n).Resolved? :: ResolutionOf(lib, n).profile
  }

  /** Nothing but slices was written, and those with what they held: the document holds the same profile. */
  twostate lemma ViewStays(d: Definition)
    requires unchanged(d) && forall t :: t in TablesOf(d.metadata) ==> unchanged(t)
    requires forall a: array<Symbol> :: old(allocated(a)) ==> a[..] == old(a[..])
    requires forall a: array<Tag> :: old(allocated(a)) ==> a[..] == old(a[..])
    ensures d.View() == old(d.View())
  {
    hide Separate;
    assert MetricsView(d.metrics) == old(MetricsView(d.metrics));
    assert MetadataView(d.metadata) == old(MetadataView(d.metadata));
  }

  ghost predicate OnlySlices(slices: set<object>) {
    forall o :: o in slices ==> o is array<Symbol> || o is array<Tag>
  }

  function Named(p: Profile, name: string): Profile {
    if p.name == "" then p.(name := name) else p
  }

  lemma NamedIsNormal(p: Profile, name: string)
    requires Normal(p)
    ensures Normal(Named(p, name))
  {
  }

  lemma NormalizeKeepsName(p: Profile)
    ensures Normalize(p).name == p.name
  {
  }

  /** Normalise and name a document that shares nothing with the raw ones. */
  method Prepare(docs: map<string, Definition>, ghost lib: Library, ghost owned: set<object>, ghost slices: set<object>, def: Definition, name: string)
    requires Shows(docs, lib) && Within(docs, owned) && AllSlicesIn(docs, slices)
    requires Separate(def.metadata) && def !in owned && def.Parts() !! owned
    modifies def, TablesOf(def.metadata), SymbolArrays(def.metrics), TagArrays(def.metrics)
    ensures Shows(docs, lib) && Within(docs, owned) && AllSlicesIn(docs, slices)
    ensures def.View() == Named(Normalize(old(def.View())), name)
  {
    hide Separate, Normalize, SlicesIn, NormalTags, NormalSymbols;
    PartsAre(def);
    hide Definition.Parts, Definition.View;
    NormalizeDefinition(def);
    Name(def, name);
    forall n | n in docs
      ensures docs[n].View() == lib[n] && docs[n].Parts() <= owned && SlicesIn(docs[n].metrics, slices)
    {
      assert docs[n] in owned && old(docs[n].Parts()) <= owned;
      assert docs[n].Parts() == old(docs[n].Parts());
    }
  }

  method Name(def: Definition, name: string)
    modifies def`name
    ensures def.View() == Named(old(def.View()), name)
  {
    if def.name == "" {
      def.name := name;
    }
  }

  lemma PartsAre(d: Definition)
    ensures forall t :: t in TablesOf(d.metadata) ==> t in d.Parts()
    ensures forall a :: a in SymbolArrays(d.metrics) ==> a in d.Parts()
    ensures forall a :: a in TagArrays(d.metrics) ==> a in d.Parts()
  {
  }

  class ProfileStore {
    var raw: map<string, Definition>
    var resolved: map<string, Definition>
    var fromUser: set<string>
    /** The objects of the raw documents, and the slices among them. */
    ghost var owned: set<object>
    ghost var slices: set<object>

    /** The raw documents hold `lib`, all normalised, and every cached document holds what resolution yields for its name. */
    ghost predicate Valid(lib: Library)
      reads this`raw, this`resolved, this`owned, this`slices, raw.Values, resolved.Values
      reads set n, o | n in raw && o in raw[n].Parts() :: o
      reads set n, o | n in resolved && o in resolved[n].Parts() :: o
    {
      && Shows(raw, lib) && Within(raw, owned) && AllSlicesIn(raw, slices) && AllNormal(lib) && OnlySlices(slices)
      && Shows(resolved, Resolutions(lib, resolved.Keys))
    }

    constructor ()
      ensures Valid(map[]) && raw == map[] && resolved == map[] && fromUser == {}
    {
      raw, resolved, fromUser, owned, slices := map[], map[], {}, {}, {};
    }

    /** add: a parsed document, normalised and named, replaces any earlier one of that name; once a name is a user's it stays one. */
    method Add(name: string, def: Definition, user: bool, ghost lib: Library)
      requires Valid(lib) && resolved == map[] && Separate(def.metadata)
      requires def !in owned && def.Parts() !! owned
      modifies this, def, TablesOf(def.metadata), SymbolArrays(def.metrics), TagArrays(def.metrics)
      ensures var p := old(def.View());
        Valid(lib[name := Normalize(p).(name := if p.name == "" then name else p.name)])
      ensures fromUser == if user then old(fromUser) + {name} else old(fromUser)
    {
      hide Definition.View, Definition.Parts, Separate, Normalize, Normal, SlicesIn, OnlySlices;
      NormalizeIdempotent(def.View());
      NamedIsNormal(Normalize(def.View()), name);
      NormalizeKeepsName(def.View());
      Prepare(raw, lib, owned, slices, def, name);
      Register(name, def, user, lib);
    }

    method Register(name: string, def: Definition, user: bool, ghost lib: Library)
      requires Valid(lib) && resolved == map[] && Normal(def.View())
      modifies this
      ensures Valid(lib[name := old(def.View())])
      ensures fromUser == if user then old(fromUser) + {name} else old(fromUser)
    {
      hide Definition.View, Definition.Parts, Normalize, Normal, SlicesIn, OnlySlices, WithSlices, Shows, Within, AllSlicesIn, AllNormal;
      forall d: Definition
        ensures this !in d.Parts()
      {
        StoreIsNoPart(this, d);
      }
      LibraryGrows(raw, lib, owned, slices, name, def);
      assert Shows(map[], Resolutions(lib[name := def.View()], {})) by {
        NothingShown(lib[name := def.View()]);
      }
      raw := raw[name := def];
      owned := owned + {def} + def.Parts();
      slices := WithSlices(def.metrics, slices);
      fromUser := if user then fromUser + {name} else fromUser;
    }

    /** Build the profile of a name that is not cached. Normalising it writes to slices shared with the raw documents. */
    method ResolveFresh(name: string, ghost lib: Library, ghost owned: set<object>, ghost slices: set<object>)
      returns (def: Definition?, unknown: seq<string>)
      requires Shows(raw, lib) && Within(raw, owned) && AllSlicesIn(raw, slices) && AllNormal(lib) && name in raw
      modifies slices
      ensures forall a: array<Symbol> :: old(allocated(a)) ==> a[..] == old(a[..])
      ensures forall a: array<Tag> :: old(allocated(a)) ==> a[..] == old(a[..])
      ensures if def == null then ResolutionOf(lib, name) == UnknownBases(unknown)
              else fresh(def) && ResolutionOf(lib, name) == Resolved(def.View())
    {
      hide Definition.View, Definition.Parts, ProfileName, Separate, Extended, Normalize, Expand, Normal;
      BasesShown(raw, lib, name);
      ghost var all, order;
      var out, now;
      out, all := Begin(raw, lib, owned, name, slices);
      now, unknown, order := ExpandInto(raw, lib, owned, out, raw[name].bases, {name}, all);
      if unknown != [] {
        return null, unknown;
      }
      ResolutionOfOrder(lib, name, order);
      hide ResolutionOf;
      NormalizeMerged(out);
      def := out;
    }

    /** Whatever any document holds, it still holds after. */
    method ResolveQuietly(name: string, ghost lib: Library) returns (def: Definition?, unknown: seq<string>)
      requires Valid(lib) && name in raw
      modifies slices
      ensures Valid(lib)
      ensures if def == null then ResolutionOf(lib, name) == UnknownBases(unknown)
              else fresh(def) && ResolutionOf(lib, name) == Resolved(def.View())
    {
      hide ResolutionOf, Normal, Definition.View, Definition.Parts, Resolutions, SlicesIn;
      ghost var docs, cached, views := raw, resolved, Resolutions(lib, resolved.Keys);
      def, unknown := ResolveFresh(name, lib, owned, slices);
      forall n | n in docs
        ensures docs[n].View() == lib[n] && docs[n].Parts() == old(docs[n].Parts()) && docs[n].metrics == old(docs[n].metrics)
      {
        ViewStays(docs[n]);
      }
      forall n | n in cached
        ensures cached[n].View() == views[n]
      {
        ViewStays(cached[n]);
      }
    }

    /**
     * Resolve: the cached document, or a fresh one that is then cached. No call changes what a raw document holds or
     * what an earlier call returned, and the answer depends on the library and the name alone.
     */
    method Resolve(name: string, ghost lib: Library) returns (def: Definition?, unknown: seq<string>)
      requires Valid(lib)
      modifies this`resolved, slices
      ensures Valid(lib) && raw == old(raw)
      ensures def == null ==> ResolutionOf(lib, name) == if name in raw then UnknownBases(unknown) else UnknownProfile
      ensures def != null ==> ResolutionOf(lib, name) == Resolved(def.View())
      ensures forall n :: n in old(resolved) ==> n in resolved && resolved[n] == old(resolved[n])
    {
      hide ResolutionOf, Normal, Definition.View, Definition.Parts, SlicesIn, Resolutions;
      if name in resolved {
        CachedIsResolution(resolved, lib, name);
        return resolved[name], [];
      }
      if name !in raw {
        NotInLibrary(lib, name);
        return null, [];
      }
      def, unknown := ResolveQuietly(name, lib);
      if def != null {
        Remember(name, def, lib);
      }
    }

    method Remember(name: string, def: Definition, ghost lib: Library)
      requires Valid(lib) && ResolutionOf(lib, name) == Resolved(def.View())
      modifies this`resolved
      ensures Valid(lib) && resolved == old(resolved)[name := def] && def.View() == old(def.View())
    {
      hide ResolutionOf, Normal, Definition.View, Definition.Parts, SlicesIn, Resolutions;
      CacheGrows(resolved, lib, name, def);
      forall d: Definition
        ensures this !in d.Parts()
      {
        StoreIsNoPart(this, d);
      }
      resolved := resolved[name := def];
    }
  }

  ghost function WithSlices(metrics: seq<MetricCell>, slices: set<object>): set<object> {
    slices + (set m | m in metrics :: m.symbols as object) + (set m | m in metrics :: m.tags as object)
  }

  lemma NewSlices(def: Definition, slices: set<object>)
    ensures SlicesIn(def.metrics, WithSlices(def.metrics, slices))
    ensures OnlySlices(slices) ==> OnlySlices(WithSlices(def.metrics, slices))
    ensures forall metrics :: SlicesIn(metrics, slices) ==> SlicesIn(metrics, WithSlices(def.metrics, slices))
  {
  }

  lemma LibraryGrows(docs: map<string, Definition>, lib: Library, owned: set<object>, slices: set<object>, name: string, def: Definition)
    requires Shows(docs, lib) && Within(docs, owned) && AllSlicesIn(docs, slices) && AllNormal(lib) && OnlySlices(slices)
    requires Normal(def.View())
    ensures Shows(docs[name := def], lib[name := def.View()]) && AllNormal(lib[name := def.View()])
    ensures Within(docs[name := def], owned + {def} + def.Parts())
    ensures AllSlicesIn(docs[name := def], WithSlices(def.metrics, slices)) && OnlySlices(WithSlices(def.metrics, slices))
  {
    hide Definition.View, Definition.Parts, Normal, SlicesIn, OnlySlices, WithSlices;
    NewSlices(def, slices);
  }

  lemma NothingShown(lib: Library)
    ensures Shows(map[], Resolutions(lib, {}))
  {
    hide ResolutionOf;
  }

  lemma StoreIsNoPart(store: ProfileStore, d: Definition)
    ensures store !in d.Parts()
  {
  }

  lemma CachedIsResolution(cached: map<string, Definition>, lib: Library, name: string)
    requires Shows(cached, Resolutions(lib, cached.Keys)) && name in cached
    ensures ResolutionOf(lib, name) == Resolved(cached[name].View())
  {
  }

  lemma CacheGrows(cached: map<string, Definition>, lib: Library, name: string, def: Definition)
    requires Shows(cached, Resolutions(lib, cached.Keys)) && ResolutionOf(lib, name) == Resolved(def.View())
    ensures Shows(cached[name := def], Resolutions(lib, cached[name := def].Keys))
  {
    hide ResolutionOf, Definition.View, Definition.Parts;
    var views := Resolutions(lib, cached.Keys);
    assert Resolutions(lib, cached[name := def].Keys) == views[name := def.View()];
  }

  lemma NotInLibrary(lib: Library, name: string)
    requires name !in lib
    ensures ResolutionOf(lib, name) == UnknownProfile
  {
  }

  lemma ResolutionOfOrder(lib: Library, name: string, order: seq<string>)
    requires AllNormal(lib) && name in lib && (forall n :: n in order ==> n in lib)
    requires Expand(lib, lib[name].bases, {name}).order == order && Expand(lib, lib[name].bases, {name}).unknown == []
    ensures Normal(Extended(lib[name], lib, order))
    ensures ResolutionOf(lib, name) == Resolved(Extended(lib[name], lib, order))
  {
    hide Expand, Normal, Normalize;
    var parents := ProfilesOf(lib, order);
    forall p | p in parents
      ensures Normal(p)
    {
      var i :| 0 <= i < |parents| && parents[i] == p;
      assert order[i] in lib;
    }
    MergeAllIsNormal(lib[name], parents);
    NormalUnchanged(MergeAll(lib[name], parents));
  }
}
