/** What the legacy spellings of a profile document mean, and that normalising keeps it (profiledefinition/normalize.go). */
module Legacy {
  import opened Profiles

  /** `counter` is an old name for a rate, and `percent` for a gauge. */
  predicate Means(written: MetricType, meant: MetricType) {
    match written
    case LegacyCounter => meant == Rate
    case LegacyPercent => meant == Gauge
    case _ => meant == written
  }

  /** A forced type counts where no type is given. */
  predicate TypeMeans(h: Head, meant: MetricType) {
    Means(if h.metricType == Unset then h.forcedType else h.metricType, meant)
  }

  predicate SymbolMeans(s: Symbol, meant: Symbol) {
    meant == s.(metricType := meant.metricType) && Means(s.metricType, meant.metricType)
  }

  /** The symbol a metric reads: its own, or else the OID and name written on the entry itself. */
  predicate HeadReads(h: Head, meant: Symbol) {
    if h.symbol.oid == "" && h.oid != "" then meant == Symbol(h.oid, h.name, Unset, "") else SymbolMeans(h.symbol, meant)
  }

  /** The symbol a tag reads: its own, or else its column, or else the OID and name written on the tag itself. */
  function TagReads(t: Tag): Symbol {
    if t.symbol.oid != "" then t.symbol
    else if t.column.oid != "" then t.column
    else if t.oid != "" then Symbol(t.oid, t.name, Unset, "")
    else t.symbol
  }

  // ----- documents without legacy spellings -----

  predicate ModernType(t: MetricType) {
    !t.LegacyCounter? && !t.LegacyPercent?
  }

  predicate ModernTag(t: Tag) {
    t.symbol.oid == "" ==> t.column.oid == "" && t.oid == ""
  }

  ghost predicate ModernMetric(m: Metric) {
    && ModernType(m.head.metricType) && m.head.forcedType == Unset && ModernType(m.head.symbol.metricType)
    && (m.head.symbol.oid == "" ==> m.head.oid == "")
    && (forall s :: s in m.symbols ==> ModernType(s.metricType))
    && (forall t :: t in m.tags ==> ModernTag(t))
  }

  ghost predicate Modern(p: Profile) {
    && p.vendor == ""
    && (forall m :: m in p.metrics ==> ModernMetric(m))
    && (forall t :: t in p.metricTags ==> ModernTag(t))
    && (forall r, t :: r in p.metadata && t in p.metadata[r].idTags ==> ModernTag(t))
  }

  // ----- documents that say the same -----

  predicate SameTag(t: Tag, u: Tag) {
    (t.symbol.oid != "" ==> u == t) && u.symbol == TagReads(t) && u.tag == t.tag && u.options == t.options && u.name == t.name
  }

  ghost predicate SameTags(s: seq<Tag>, r: seq<Tag>) {
    |r| == |s| && forall i :: 0 <= i < |s| ==> SameTag(s[i], r[i])
  }

  ghost predicate SameMetric(m: Metric, n: Metric) {
    && TypeMeans(m.head, n.head.metricType) && HeadReads(m.head, n.head.symbol)
    && (m.head.symbol.oid != "" || m.head.oid == "" ==> n.head.oid == m.head.oid && n.head.name == m.head.name)
    && n.head.table == m.head.table && n.head.staticTags == m.head.staticTags && n.head.options == m.head.options
    && |n.symbols| == |m.symbols| && (forall i :: 0 <= i < |m.symbols| ==> SymbolMeans(m.symbols[i], n.symbols[i]))
    && SameTags(m.tags, n.tags)
  }

  /** The legacy vendor stands for a field of that value where the device has no vendor field. */
  function VendorField(p: Profile): seq<Field> {
    if FieldOf(p, "device", "vendor") == [] && p.vendor != "" then [Field(NO_SYMBOL, [], p.vendor)]
    else FieldOf(p, "device", "vendor")
  }

  ghost predicate SaysTheSame(p: Profile, q: Profile) {
    && q.name == p.name && q.sysObjectIDs == p.sysObjectIDs && q.bases == p.bases && q.staticTags == p.staticTags
    && |q.metrics| == |p.metrics| && (forall i :: 0 <= i < |p.metrics| ==> SameMetric(p.metrics[i], q.metrics[i]))
    && SameTags(p.metricTags, q.metricTags)
    && (forall r :: SameTags(IDTagsOf(p, r), IDTagsOf(q, r)))
    && VendorField(q) == VendorField(p)
    && (forall r, f :: !(r == "device" && f == "vendor") ==> FieldOf(q, r, f) == FieldOf(p, r, f))
  }

  lemma NormalTagIsModern(t: Tag)
    ensures ModernTag(NormalTag(t)) && SameTag(t, NormalTag(t))
  {
  }

  lemma NormalTagsAreModern(s: seq<Tag>)
    ensures SameTags(s, NormalTags(s)) && forall t :: t in NormalTags(s) ==> ModernTag(t)
  {
    hide ModernTag, SameTag, NormalTag;
    forall i | 0 <= i < |s|
      ensures ModernTag(NormalTags(s)[i]) && SameTag(s[i], NormalTags(s)[i])
    {
      NormalTagIsModern(s[i]);
    }
  }

  lemma NormalMetricIsModern(m: Metric)
    ensures ModernMetric(NormalMetric(m)) && SameMetric(m, NormalMetric(m))
  {
    NormalTagsAreModern(m.tags);
    hide ModernTag, SameTags, NormalTags;
    assert forall i :: 0 <= i < |m.symbols| ==> ModernType(NormalSymbols(m.symbols)[i].metricType) && SymbolMeans(m.symbols[i], NormalSymbols(m.symbols)[i]);
  }

  lemma MetadataIsModern(p: Profile)
    ensures var q := Normalize(p);
      && (forall r, t :: r in q.metadata && t in q.metadata[r].idTags ==> ModernTag(t))
      && (forall r :: SameTags(IDTagsOf(p, r), IDTagsOf(q, r)))
  {
    hide ModernTag, SameTag, NormalTag, NormalMetrics;
    var q := Normalize(p);
    NormalTagsAreModern([]);
    forall r
      ensures SameTags(IDTagsOf(p, r), IDTagsOf(q, r)) && (r in q.metadata ==> forall t :: t in q.metadata[r].idTags ==> ModernTag(t))
    {
      if r in p.metadata {
        NormalTagsAreModern(p.metadata[r].idTags);
      }
    }
  }

  lemma FieldsAreKept(p: Profile)
    ensures var q := Normalize(p);
      && VendorField(q) == VendorField(p)
      && (forall r, f :: !(r == "device" && f == "vendor") ==> FieldOf(q, r, f) == FieldOf(p, r, f))
  {
    hide NormalTags, NormalMetrics;
  }

  /** Normalising leaves no legacy spelling behind and says the same as the document did. */
  lemma NormalizeKeepsMeaning(p: Profile)
    ensures Modern(Normalize(p)) && SaysTheSame(p, Normalize(p))
  {
    MetadataIsModern(p);
    FieldsAreKept(p);
    NormalTagsAreModern(p.metricTags);
    hide ModernMetric, ModernTag, SameMetric, SameTags, NormalMetric, FieldOf, IDTagsOf, VendorField, FoldVendor, NormalMetadata;
    forall i | 0 <= i < |p.metrics|
      ensures ModernMetric(NormalMetrics(p.metrics)[i]) && SameMetric(p.metrics[i], NormalMetrics(p.metrics)[i])
    {
      NormalMetricIsModern(p.metrics[i]);
    }
  }
}
