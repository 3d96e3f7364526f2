/** The class LocalIndex of Vectra/LocalIndex.cs: the committed document `data`, the
    working copy `update`, and the index folder on disk, updated in place by each
    operation. Every method is proved to follow the matching function of StoreSpec,
    so the lemmas of StoreProperties and QueryEngine hold of it. I/O outcomes are
    parameters: `readOk` for reading the document file, `sideWriteOk` for writing a
    side file, `writeOk` for writing the document file; `freshId` stands for the
    Guid an item without an id receives. */
module LocalIndexStore {
  import opened Wrappers
  import opened MetadataModel
  import opened IndexModel
  import opened StoreSpec
  import opened QueryEngine
  import ItemSelector

  /** The loop that copies the indexed keys present in `metadata` into the map
      that goes to the side file. */
  method CopyIndexedKeys(metadata: Metadata, keys: seq<string>) returns (m: Metadata)
    ensures m == Restrict(metadata, keys)
  {
    m := map[];
    var i := 0;
    while i < |keys|
      invariant 0 <= i <= |keys|
      invariant m == Restrict(metadata, keys[..i])
    {
      if keys[i] in metadata {
        m := m[keys[i] := metadata[keys[i]]];
      }
      assert keys[..i + 1] == keys[..i] + [keys[i]];
      i := i + 1;
    }
    assert keys[..|keys|] == keys;
  }

  class LocalIndex {
    const folderPath: string
    /** `ItemSelector.Normalize`. */
    const normOf: Vector -> real
    /** `ItemSelector.NormalizedCosineSimilarity`. */
    const similarity: Similarity

    var data: Option<IndexData>
    var update: Option<IndexData>
    var disk: Disk

    function State(): Store
      reads this
    {
      Store(data, update, disk)
    }

    predicate Valid()
      reads this
    {
      Inv(State())
    }

    /** A store over the folder as found on disk, nothing loaded yet. */
    constructor (folderPath: string, normOf: Vector -> real, similarity: Similarity, disk: Disk)
      requires Inv(Store(None, None, disk))
      ensures Valid() && State() == Store(None, None, disk)
      ensures this.folderPath == folderPath && this.normOf == normOf && this.similarity == similarity
    {
      this.folderPath := folderPath;
      this.normOf := normOf;
      this.similarity := similarity;
      data := None;
      update := None;
      this.disk := disk;
    }

    /** `IsIndexCreated`: the document file exists. */
    function IsIndexCreated(): bool
      reads this
    {
      disk.indexFile.Some?
    }

    method LoadIndexData(readOk: bool) returns (r: Result<(), IndexError>)
      requires Valid()
      modifies this`data
      ensures Valid()
      ensures Step(r, State()) == StoreSpec.Load(old(State()), readOk)
    {
      if data.Some? {
        return Success(());
      }
      if !IsIndexCreated() {
        return Failure(IndexDoesNotExist);
      }
      if !readOk {
        return Failure(ErrorLoadingIndex);
      }
      data := disk.indexFile;
      r := Success(());
    }

    method BeginUpdate(readOk: bool) returns (r: Result<(), IndexError>)
      requires Valid()
      modifies this`data, this`update
      ensures Valid()
      ensures Step(r, State()) == StoreSpec.BeginUpdate(old(State()), readOk)
    {
      if update.Some? {
        return Failure(UpdateAlreadyInProgress);
      }
      r := LoadIndexData(readOk);
      if r.Failure? {
        return;
      }
      var copy := CloneIndexData(data.value);
      update := Some(copy);
    }

    method CancelUpdate()
      modifies this`update
      ensures State() == StoreSpec.CancelUpdate(old(State()))
    {
      update := None;
    }

    method EndUpdate(writeOk: bool) returns (r: Result<(), IndexError>)
      requires Valid()
      modifies this`data, this`update, this`disk
      ensures Valid()
      ensures Step(r, State()) == StoreSpec.EndUpdate(old(State()), writeOk)
    {
      if update.None? {
        return Failure(NoUpdateInProgress);
      }
      if !WriteSucceeds(disk, writeOk) {
        return Failure(ErrorSavingIndex);
      }
      disk := disk.(indexFile := update);
      data := update;
      update := None;
      r := Success(());
    }

    method DeleteIndex() returns (r: Result<(), IndexError>)
      requires Valid()
      modifies this`data, this`disk
      ensures Valid()
      ensures Step(r, State()) == StoreSpec.DeleteIndex(old(State()))
    {
      data := None;
      if !disk.folderExists {
        return Failure(DirectoryNotFound);
      }
      disk := Disk(false, None, map[]);
      r := Success(());
    }

    method CreateIndex(config: Option<CreateIndexConfig>, writeOk: bool) returns (r: Result<(), IndexError>)
      requires Valid()
      modifies this`data, this`disk
      ensures Valid()
      ensures Step(r, State()) == StoreSpec.CreateIndex(old(State()), config, writeOk)
    {
      if IsIndexCreated() {
        if config.Some? && config.value.deleteIfExists {
          r := DeleteIndex();
          if r.Failure? {
            return;
          }
        } else {
          return Failure(IndexAlreadyExists);
        }
      }
      disk := disk.(folderExists := true);
      data := Some(IndexData(
        if config.Some? then config.value.version else 1,
        Some(if config.Some? && config.value.metadataConfig.Some? then config.value.metadataConfig.value
             else MetadataConfig(None)),
        []));
      if !WriteSucceeds(disk, writeOk) {
        var _ := DeleteIndex();
        return Failure(ErrorCreatingIndex);
      }
      disk := disk.(indexFile := data);
      r := Success(());
    }

    /** Remove the first item with `id` from the working copy, if there is one. */
    method RemoveFromUpdate(id: string)
      requires Valid() && update.Some?
      modifies this`update
      ensures Valid()
      ensures State() == StoreSpec.RemoveFromUpdate(old(State()), id)
    {
      var items := update.value.items;
      var index := FindIndex(items, id);
      if index >= 0 {
        update := Some(update.value.(items := items[..index] + items[index + 1..]));
      }
    }

    method DeleteItem(id: string, readOk: bool, writeOk: bool) returns (r: Result<(), IndexError>)
      requires Valid()
      modifies this`data, this`update, this`disk
      ensures Valid()
      ensures Step(r, State()) == StoreSpec.DeleteItem(old(State()), id, readOk, writeOk)
    {
      if update.Some? {
        RemoveFromUpdate(id);
        return Success(());
      }
      r := BeginUpdate(readOk);
      if r.Failure? {
        return;
      }
      RemoveFromUpdate(id);
      r := EndUpdate(writeOk);
    }

    method AddItemToUpdate(item: NewItem, unique: bool, freshId: string, sideWriteOk: bool)
      returns (r: Result<IndexItem, IndexError>)
      requires Valid() && update.Some?
      modifies this`update, this`disk
      ensures Valid()
      ensures Step(r, State()) ==
        StoreSpec.AddItemToUpdate(old(State()), folderPath, normOf, item, unique, freshId, sideWriteOk)
    {
      if item.vector.None? {
        return Failure(VectorRequired);
      }
      var id := if item.id.Some? then item.id.value else freshId;
      var w := update.value;
      if unique && FindIndex(w.items, id) >= 0 {
        return Failure(ItemAlreadyExists(id));
      }
      var config := w.metadataConfig.value;
      var metadata: Metadata := map[];
      var metadataFile: Option<string> := None;
      if config.indexed.Some? && |config.indexed.value| > 0 && |item.metadata| > 0 {
        metadata := CopyIndexedKeys(item.metadata, config.indexed.value);
        var path := PathCombine(folderPath, id + ".json");
        if !WriteSucceeds(disk, sideWriteOk) {
          return Failure(MetadataFileWriteFailed);
        }
        disk := disk.(sideFiles := disk.sideFiles[path := metadata]);
        metadataFile := Some(path);
      } else if |item.metadata| > 0 {
        metadata := item.metadata;
      }
      var newItem := IndexItem(id, metadata, item.vector.value, normOf(item.vector.value), metadataFile);
      if !unique {
        var k := FindIndex(w.items, id);
        if k >= 0 {
          var existing := w.items[k].(metadata := newItem.metadata, vector := newItem.vector,
                                      metadataFile := newItem.metadataFile);
          update := Some(w.(items := w.items[k := existing]));
          return Success(existing);
        }
      }
      update := Some(w.(items := w.items + [newItem]));
      r := Success(newItem);
    }

    method InsertItem(item: NewItem, freshId: string, readOk: bool, sideWriteOk: bool, writeOk: bool)
      returns (r: Result<IndexItem, IndexError>)
      requires Valid()
      modifies this`data, this`update, this`disk
      ensures Valid()
      ensures Step(r, State()) ==
        StoreSpec.InsertItem(old(State()), folderPath, normOf, item, freshId, readOk, sideWriteOk, writeOk)
    {
      if update.Some? {
        r := AddItemToUpdate(item, true, freshId, sideWriteOk);
        return;
      }
      var begun := BeginUpdate(readOk);
      if begun.Failure? {
        return Failure(begun.error);
      }
      r := AddItemToUpdate(item, true, freshId, sideWriteOk);
      if r.Failure? {
        return;
      }
      var ended := EndUpdate(writeOk);
      if ended.Failure? {
        return Failure(ended.error);
      }
    }

    method UpsertItem(item: NewItem, freshId: string, readOk: bool, sideWriteOk: bool, writeOk: bool)
      returns (r: Result<IndexItem, IndexError>)
      requires Valid()
      modifies this`data, this`update, this`disk
      ensures Valid()
      ensures Step(r, State()) ==
        StoreSpec.UpsertItem(old(State()), folderPath, normOf, item, freshId, readOk, sideWriteOk, writeOk)
    {
      if update.Some? {
        r := AddItemToUpdate(item, false, freshId, sideWriteOk);
        return;
      }
      var begun := BeginUpdate(readOk);
      if begun.Failure? {
        return Failure(begun.error);
      }
      r := AddItemToUpdate(item, false, freshId, sideWriteOk);
      if r.Failure? {
        return;
      }
      var ended := EndUpdate(writeOk);
      if ended.Failure? {
        return Failure(ended.error);
      }
    }

    method GetIndexStats(readOk: bool) returns (r: Result<IndexStats, IndexError>)
      requires Valid()
      modifies this`data
      ensures Valid()
      ensures Step(r, State()) == StoreSpec.GetIndexStats(old(State()), readOk)
    {
      var loaded := LoadIndexData(readOk);
      if loaded.Failure? {
        return Failure(loaded.error);
      }
      var d := data.value;
      r := Success(IndexStats(d.version, d.metadataConfig, |d.items|));
    }

    method GetItem(id: string, readOk: bool) returns (r: Result<Option<IndexItem>, IndexError>)
      requires Valid()
      modifies this`data
      ensures Valid()
      ensures Step(r, State()) == StoreSpec.GetItem(old(State()), id, readOk)
    {
      var loaded := LoadIndexData(readOk);
      if loaded.Failure? {
        return Failure(loaded.error);
      }
      r := Success(FindItem(data.value.items, id));
    }

    method ListItems(readOk: bool) returns (r: Result<seq<IndexItem>, IndexError>)
      requires Valid()
      modifies this`data
      ensures Valid()
      ensures Step(r, State()) == StoreSpec.ListItems(old(State()), readOk)
    {
      var loaded := LoadIndexData(readOk);
      if loaded.Failure? {
        return Failure(loaded.error);
      }
      r := Success(data.value.items);
    }

    method ListItemsByMetadata(filter: ItemSelector.MetadataFilter, readOk: bool)
      returns (r: Result<seq<IndexItem>, IndexError>)
      requires Valid()
      modifies this`data
      ensures Valid()
      ensures Step(r, State()) == StoreSpec.ListItemsByMetadata(old(State()), readOk)
    {
      var loaded := LoadIndexData(readOk);
      if loaded.Failure? {
        return Failure(loaded.error);
      }
      r := Success([]);
    }

    /** `QueryItemsAsync`: the answer is the resolved winners of some valid top-topK
        ranking of the committed items; the working copy is never read. */
    method QueryItems(vector: Vector, topK: int, filter: Option<ItemSelector.MetadataFilter>, readOk: bool)
      returns (r: Result<seq<QueryResult>, IndexError>)
      requires Valid()
      modifies this`data
      ensures Valid()
      ensures State() == StoreSpec.Load(old(State()), readOk).store
      ensures StoreSpec.Load(old(State()), readOk).result.Failure? ==>
        r == Failure(StoreSpec.Load(old(State()), readOk).result.error)
      ensures StoreSpec.Load(old(State()), readOk).result.Success? && topK < 0 ==> r == Failure(TopKOutOfRange)
      ensures StoreSpec.Load(old(State()), readOk).result.Success? && topK >= 0 ==>
        exists top :: IsRankOrder(Scores(data.value.items, vector, normOf(vector), similarity), topK, top) &&
                      r == ResolveAll(disk, folderPath, Winners(data.value.items, top))
    {
      var loaded := LoadIndexData(readOk);
      if loaded.Failure? {
        return Failure(loaded.error);
      }
      var items := data.value.items;
      var candidates := items;
      if filter.Some? {
        candidates := Candidates(items, filter);
      }
      var norm := normOf(vector);
      var distances := ScoreItems(items, vector, norm, similarity);
      var top := TopDistances(distances, topK);
      if top.Failure? {
        return Failure(top.error);
      }
      var winners := Winners(items, top.value);
      r := ResolveWinners(disk, folderPath, winners);
    }
  }
}
