/** The index store of Vectra/LocalIndex.cs as a state machine over values: the
    committed document `data`, the working copy `update`, and the disk the store reads
    and writes. Each operation is a function from the state before the call to its
    result and the state after it; the class in LocalIndexStore is proved to follow
    these functions. Serialisation is the identity: the document file holds an
    `IndexData`, a side file holds a `Metadata`. */
module StoreSpec {
  import opened Wrappers
  import opened MetadataModel
  import opened IndexModel

  /** The exceptions the store raises, one per distinct condition. */
  datatype IndexError =
    | UpdateAlreadyInProgress
    | NoUpdateInProgress
    | IndexAlreadyExists
    | ErrorCreatingIndex
    | IndexDoesNotExist
    | ErrorLoadingIndex
    | ErrorSavingIndex
    | DirectoryNotFound
    | VectorRequired
    | ItemAlreadyExists(id: string)
    | MetadataFileWriteFailed
    | MetadataFileNotFound
    | TopKOutOfRange

  /** The index folder: whether it exists, the document file, and the side files by
      path. */
  datatype Disk = Disk(folderExists: bool, indexFile: Option<IndexData>, sideFiles: map<string, Metadata>)

  /** The fields `_data` and `_update` of a LocalIndex, and its disk. */
  datatype Store = Store(data: Option<IndexData>, update: Option<IndexData>, disk: Disk)

  /** What a call returns or throws, and the state it leaves. */
  datatype Step<T> = Step(result: Result<T, IndexError>, store: Store)

  /** The caller's item as InsertItem and UpsertItem read it: only Id, Vector and
      Metadata are looked at. */
  datatype NewItem = NewItem(id: Option<string>, vector: Option<Vector>, metadata: Metadata)

  /** What every operation keeps true: a working copy always has a configuration (it
      is a clone), and files exist only inside an existing folder. */
  predicate Inv(s: Store) {
    && (s.update.Some? ==> s.update.value.metadataConfig.Some?)
    && (s.disk.indexFile.Some? ==> s.disk.folderExists)
    && (s.disk.sideFiles != map[] ==> s.disk.folderExists)
  }

  /** A file write succeeds when the I/O succeeds and the folder is there. */
  predicate WriteSucceeds(disk: Disk, ok: bool) {
    ok && disk.folderExists
  }

  /** `Path.Combine` of two parts: a rooted second part replaces the first. */
  function PathCombine(folder: string, name: string): string {
    if folder == [] then name
    else if name != [] && name[0] == '/' then name
    else if folder[|folder| - 1] == '/' then folder + name
    else folder + "/" + name
  }

  /** `Path.Join` of two parts: always concatenates, adding a separator when
      neither side has one. */
  function PathJoin(folder: string, name: string): (p: string)
    ensures |p| >= |folder| + |name|
  {
    if folder == [] then name
    else if name == [] then folder
    else if folder[|folder| - 1] == '/' || name[0] == '/' then folder + name
    else folder + "/" + name
  }

  /** Where the side file of item `id` is written. */
  function SideFilePath(folder: string, id: string): string {
    PathCombine(folder, id + ".json")
  }

  /** `List.FindIndex(i => i.Id == id)`: the first position holding `id`, or -1. */
  function FindIndex(items: seq<IndexItem>, id: string): (k: int)
    ensures -1 <= k < |items|
    ensures k >= 0 ==> items[k].id == id && forall j :: 0 <= j < k ==> items[j].id != id
    ensures k < 0 ==> forall j :: 0 <= j < |items| ==> items[j].id != id
    decreases |items|
  {
    if items == [] then -1
    else if items[0].id == id then 0
    else
      var k := FindIndex(items[1..], id);
      if k < 0 then -1 else k + 1
  }

  /** No two items share an id. */
  predicate DistinctIds(items: seq<IndexItem>) {
    forall i, j :: 0 <= i < j < |items| ==> items[i].id != items[j].id
  }

  // ---------------------------------------------------------------- lifecycle

  /** `LoadIndexDataAsync`: a no-op once loaded; otherwise read the document file. */
  function Load(s: Store, readOk: bool): (t: Step<()>)
    ensures t.result.Success? ==> t.store.data.Some?
    ensures t.store.update == s.update && t.store.disk == s.disk
  {
    if s.data.Some? then Step(Success(()), s)
    else if s.disk.indexFile.None? then Step(Failure(IndexDoesNotExist), s)
    else if readOk then Step(Success(()), s.(data := s.disk.indexFile))
    else Step(Failure(ErrorLoadingIndex), s)
  }

  /** `BeginUpdateAsync`. */
  function BeginUpdate(s: Store, readOk: bool): (t: Step<()>)
    ensures t.result.Success? ==> t.store.update.Some? && t.store.update.value.metadataConfig.Some?
  {
    if s.update.Some? then Step(Failure(UpdateAlreadyInProgress), s)
    else
      var loaded := Load(s, readOk);
      if loaded.result.Failure? then loaded
      else Step(Success(()), loaded.store.(update := Some(Cloned(loaded.store.data.value))))
  }

  /** `CancelUpdate`. */
  function CancelUpdate(s: Store): Store {
    s.(update := None)
  }

  /** `EndUpdateAsync`: write the working copy, then promote it. */
  function EndUpdate(s: Store, writeOk: bool): Step<()> {
    if s.update.None? then Step(Failure(NoUpdateInProgress), s)
    else if !WriteSucceeds(s.disk, writeOk) then Step(Failure(ErrorSavingIndex), s)
    else Step(Success(()), Store(s.update, None, s.disk.(indexFile := s.update)))
  }

  /** `DeleteIndex`: forget the committed data, then delete the folder; the delete
      throws when the folder is missing. The working copy is not touched. */
  function DeleteIndex(s: Store): Step<()> {
    var cleared := s.(data := None);
    if !s.disk.folderExists then Step(Failure(DirectoryNotFound), cleared)
    else Step(Success(()), cleared.(disk := Disk(false, None, map[])))
  }

  /** The document CreateIndexAsync builds: `config?.Version ?? 1`,
      `config?.MetadataConfig ?? new MetadataConfig()`, no items. */
  function NewIndexData(config: Option<CreateIndexConfig>): IndexData {
    IndexData(
      if config.Some? then config.value.version else 1,
      Some(if config.Some? && config.value.metadataConfig.Some? then config.value.metadataConfig.value
           else MetadataConfig(None)),
      [])
  }

  /** `CreateIndexAsync`. A failed write rolls back by deleting the folder. */
  function CreateIndex(s: Store, config: Option<CreateIndexConfig>, writeOk: bool): Step<()> {
    var prepared :=
      if s.disk.indexFile.None? then Step(Success(()), s)
      else if config.Some? && config.value.deleteIfExists then DeleteIndex(s)
      else Step(Failure(IndexAlreadyExists), s);
    if prepared.result.Failure? then prepared
    else
      var created := prepared.store.(data := Some(NewIndexData(config)),
                                     disk := prepared.store.disk.(folderExists := true));
      if WriteSucceeds(created.disk, writeOk) then
        Step(Success(()), created.(disk := created.disk.(indexFile := created.data)))
      else
        Step(Failure(ErrorCreatingIndex), DeleteIndex(created).store)
  }

  // ---------------------------------------------------------------- items

  /** The metadata entries whose keys are in `keys`: what the `foreach` over the
      indexed keys copies. */
  function Restrict(m: Metadata, keys: seq<string>): (r: Metadata)
    ensures forall k :: k in r <==> k in m && k in keys
    ensures forall k :: k in r ==> r[k] == m[k]
  {
    map k | k in m && k in keys :: m[k]
  }

  /** The condition under which an item's metadata goes to a side file. */
  predicate Externalises(config: MetadataConfig, metadata: Metadata) {
    config.indexed.Some? && |config.indexed.value| > 0 && |metadata| > 0
  }

  /** Where the new item goes: an upsert of an existing id overwrites that item's
      Metadata, Vector and MetadataFile; anything else is appended. */
  function Place(items: seq<IndexItem>, item: IndexItem, unique: bool): seq<IndexItem> {
    var k := FindIndex(items, item.id);
    if !unique && k >= 0 then
      items[k := items[k].(metadata := item.metadata, vector := item.vector, metadataFile := item.metadataFile)]
    else items + [item]
  }

  /** The item `AddItemToUpdate` builds, before it is placed. */
  function BuildItem(folder: string, normOf: Vector -> real, config: MetadataConfig, id: string,
                     vector: Vector, metadata: Metadata): IndexItem {
    var external := Externalises(config, metadata);
    IndexItem(
      id,
      if external then Restrict(metadata, config.indexed.value) else metadata,
      vector,
      normOf(vector),
      if external then Some(SideFilePath(folder, id)) else None)
  }

  /** `AddItemToUpdate`, on the working copy. */
  function AddItemToUpdate(s: Store, folder: string, normOf: Vector -> real, item: NewItem,
                           unique: bool, freshId: string, sideWriteOk: bool): Step<IndexItem>
    requires s.update.Some? && s.update.value.metadataConfig.Some?
  {
    var w := s.update.value;
    if item.vector.None? then Step(Failure(VectorRequired), s)
    else
      var id := item.id.GetOr(freshId);
      if unique && FindIndex(w.items, id) >= 0 then Step(Failure(ItemAlreadyExists(id)), s)
      else
        var config := w.metadataConfig.value;
        var external := Externalises(config, item.metadata);
        if external && !WriteSucceeds(s.disk, sideWriteOk) then Step(Failure(MetadataFileWriteFailed), s)
        else
          var built := BuildItem(folder, normOf, config, id, item.vector.value, item.metadata);
          var sideFiles := if external then s.disk.sideFiles[built.metadataFile.value := built.metadata]
                           else s.disk.sideFiles;
          var items := Place(w.items, built, unique);
          var k := FindIndex(w.items, id);
          var returned := if !unique && k >= 0 then items[k] else built;
          Step(Success(returned), Store(s.data, Some(w.(items := items)), s.disk.(sideFiles := sideFiles)))
  }

  /** InsertItem (unique) and UpsertItem (not unique): on the open update, or else
      inside an update of their own. */
  function AddItem(s: Store, folder: string, normOf: Vector -> real, item: NewItem, unique: bool,
                   freshId: string, readOk: bool, sideWriteOk: bool, writeOk: bool): Step<IndexItem>
    requires Inv(s)
  {
    if s.update.Some? then AddItemToUpdate(s, folder, normOf, item, unique, freshId, sideWriteOk)
    else
      var begun := BeginUpdate(s, readOk);
      if begun.result.Failure? then Step(Failure(begun.result.error), begun.store)
      else
        var added := AddItemToUpdate(begun.store, folder, normOf, item, unique, freshId, sideWriteOk);
        if added.result.Failure? then added
        else
          var ended := EndUpdate(added.store, writeOk);
          if ended.result.Failure? then Step(Failure(ended.result.error), ended.store)
          else Step(added.result, ended.store)
  }

  /** `InsertItem`. */
  function InsertItem(s: Store, folder: string, normOf: Vector -> real, item: NewItem, freshId: string,
                      readOk: bool, sideWriteOk: bool, writeOk: bool): Step<IndexItem>
    requires Inv(s)
  {
    AddItem(s, folder, normOf, item, true, freshId, readOk, sideWriteOk, writeOk)
  }

  /** `UpsertItem`. */
  function UpsertItem(s: Store, folder: string, normOf: Vector -> real, item: NewItem, freshId: string,
                      readOk: bool, sideWriteOk: bool, writeOk: bool): Step<IndexItem>
    requires Inv(s)
  {
    AddItem(s, folder, normOf, item, false, freshId, readOk, sideWriteOk, writeOk)
  }

  /** `RemoveAt(FindIndex(...))` when the id is present. */
  function RemoveFirst(items: seq<IndexItem>, id: string): seq<IndexItem> {
    var k := FindIndex(items, id);
    if k >= 0 then items[..k] + items[k + 1..] else items
  }

  /** The working copy after removing `id`. */
  function RemoveFromUpdate(s: Store, id: string): Store
    requires s.update.Some?
  {
    s.(update := Some(s.update.value.(items := RemoveFirst(s.update.value.items, id))))
  }

  /** `DeleteItemAsync`. */
  function DeleteItem(s: Store, id: string, readOk: bool, writeOk: bool): Step<()> {
    if s.update.Some? then Step(Success(()), RemoveFromUpdate(s, id))
    else
      var begun := BeginUpdate(s, readOk);
      if begun.result.Failure? then begun
      else EndUpdate(RemoveFromUpdate(begun.store, id), writeOk)
  }

  // ---------------------------------------------------------------- reads

  /** `List.Find(i => i.Id == id)`. */
  function FindItem(items: seq<IndexItem>, id: string): Option<IndexItem> {
    var k := FindIndex(items, id);
    if k >= 0 then Some(items[k]) else None
  }

  /** Load, then read the committed document with `read`. */
  function GetIndexStats(s: Store, readOk: bool): Step<IndexStats> {
    var loaded := Load(s, readOk);
    if loaded.result.Failure? then Step(Failure(loaded.result.error), loaded.store)
    else
      var d := loaded.store.data.value;
      Step(Success(IndexStats(d.version, d.metadataConfig, |d.items|)), loaded.store)
  }

  /** `GetItem`. */
  function GetItem(s: Store, id: string, readOk: bool): Step<Option<IndexItem>> {
    var loaded := Load(s, readOk);
    if loaded.result.Failure? then Step(Failure(loaded.result.error), loaded.store)
    else Step(Success(FindItem(loaded.store.data.value.items, id)), loaded.store)
  }

  /** `ListItems`: a copy of the committed item list. */
  function ListItems(s: Store, readOk: bool): Step<seq<IndexItem>> {
    var loaded := Load(s, readOk);
    if loaded.result.Failure? then Step(Failure(loaded.result.error), loaded.store)
    else Step(Success(loaded.store.data.value.items), loaded.store)
  }

  /** `ListItemsByMetadata`: loads, then returns an empty list whatever the filter. */
  function ListItemsByMetadata(s: Store, readOk: bool): Step<seq<IndexItem>> {
    var loaded := Load(s, readOk);
    if loaded.result.Failure? then Step(Failure(loaded.result.error), loaded.store)
    else Step(Success([]), loaded.store)
  }
}
