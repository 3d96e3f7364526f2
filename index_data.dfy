/** The persisted entities of an index (Vectra/Models/IndexData.cs, IndexItem.cs,
    MetadataConfig.cs, CreateIndexConfig.cs, IndexStats.cs) and the structural copy
    behind copy-on-write updates. */
module IndexModel {
  import opened Wrappers
  import opened MetadataModel

  /** Vector components. Their floating-point arithmetic is not modelled, so any
      numeric type would do. */
  type Vector = seq<real>

  /** Optional allowlist of metadata keys kept inline in the index document. */
  datatype MetadataConfig = MetadataConfig(indexed: Option<seq<string>>)

  /** A stored item. `norm` is written once, when the item is created. */
  datatype IndexItem = IndexItem(
    id: string,
    metadata: Metadata,
    vector: Vector,
    norm: real,
    metadataFile: Option<string>)

  /** The index document: a version, an optional metadata configuration and the items. */
  datatype IndexData = IndexData(
    version: int,
    metadataConfig: Option<MetadataConfig>,
    items: seq<IndexItem>)

  /** The argument of CreateIndexAsync. `version` is a plain int, 0 unless set. */
  datatype CreateIndexConfig = CreateIndexConfig(
    version: int,
    deleteIfExists: bool,
    metadataConfig: Option<MetadataConfig>)

  /** What GetIndexStatsAsync reports. */
  datatype IndexStats = IndexStats(
    version: int,
    metadataConfig: Option<MetadataConfig>,
    items: nat)

  /** `IndexItem.Clone` is called but does not exist in IndexItem.cs; it is modelled
      as a field-wise copy. */
  function CloneItem(item: IndexItem): (c: IndexItem)
    ensures c.id == item.id && c.vector == item.vector && c.norm == item.norm
    ensures c.metadata == item.metadata && c.metadataFile == item.metadataFile
  {
    IndexItem(item.id, item.metadata, item.vector, item.norm, item.metadataFile)
  }

  /** The configuration part of `IndexData.Clone`: always a new object, whose
      `indexed` copies the original's (null when the original or its list is null). */
  function CloneConfig(config: Option<MetadataConfig>): (c: MetadataConfig)
    ensures config.None? ==> c.indexed.None?
    ensures config.Some? ==> c.indexed == config.value.indexed
  {
    MetadataConfig(if config.Some? then config.value.indexed else None)
  }

  /** The value `IndexData.Clone` computes, stated element-wise. */
  function Cloned(d: IndexData): (c: IndexData)
  {
    IndexData(
      d.version,
      Some(CloneConfig(d.metadataConfig)),
      seq(|d.items|, i requires 0 <= i < |d.items| => CloneItem(d.items[i])))
  }

  /** `IndexData.Clone`: copies the version, builds a fresh configuration, and fills a
      new item list with a counting loop. */
  method CloneIndexData(d: IndexData) returns (c: IndexData)
    ensures c.version == d.version
    ensures c.metadataConfig == Some(CloneConfig(d.metadataConfig))
    ensures |c.items| == |d.items|
    ensures forall i :: 0 <= i < |d.items| ==> c.items[i] == CloneItem(d.items[i])
    ensures c == Cloned(d)
  {
    var version := d.version;
    var metadataConfig := CloneConfig(d.metadataConfig);
    var newItems: seq<IndexItem> := [];
    var i := 0;
    while i < |d.items|
      invariant 0 <= i <= |d.items|
      invariant |newItems| == i
      invariant forall j :: 0 <= j < i ==> newItems[j] == CloneItem(d.items[j])
    {
      newItems := newItems + [CloneItem(d.items[i])];
      i := i + 1;
    }
    c := IndexData(version, Some(metadataConfig), newItems);
  }

  /** A clone always has a configuration, so cloning changes a document exactly when
      its configuration is null, and cloning twice is cloning once. */
  lemma {:induction false} ClonedFixedPoints(d: IndexData)
    ensures Cloned(d) == d <==> d.metadataConfig.Some?
    ensures Cloned(Cloned(d)) == Cloned(d)
  {
    var c := Cloned(d);
    assert c.items == d.items by {
      forall i | 0 <= i < |d.items| ensures c.items[i] == d.items[i] {
        assert CloneItem(d.items[i]) == d.items[i];
      }
    }
    assert CloneConfig(c.metadataConfig) == c.metadataConfig.value;
  }
}
