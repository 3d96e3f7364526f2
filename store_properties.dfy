/** What the update lifecycle of LocalIndex promises, proved about the state machine
    in StoreSpec. */
module StoreProperties {
  import opened Wrappers
  import opened MetadataModel
  import opened IndexModel
  import opened StoreSpec

  /** Loading, the update protocol and creating or deleting the index keep the
      store invariant. */
  lemma OperationsPreserveInv(s: Store, config: Option<CreateIndexConfig>, readOk: bool, writeOk: bool)
    requires Inv(s)
    ensures Inv(Load(s, readOk).store)
    ensures Inv(BeginUpdate(s, readOk).store)
    ensures Inv(CancelUpdate(s))
    ensures Inv(EndUpdate(s, writeOk).store)
    ensures Inv(DeleteIndex(s).store)
    ensures Inv(CreateIndex(s, config, writeOk).store)
  {
    var begun := BeginUpdate(s, readOk);
    if begun.result.Success? {
      ClonedFixedPoints(begun.store.data.value);
    }
  }

  /** Adding an item, inside an open update or in one of its own, keeps the store
      invariant. */
  lemma ItemWritesPreserveInv(s: Store, folder: string, normOf: Vector -> real, item: NewItem, unique: bool,
                              freshId: string, readOk: bool, sideWriteOk: bool, writeOk: bool)
    requires Inv(s)
    ensures s.update.Some? ==> Inv(AddItemToUpdate(s, folder, normOf, item, unique, freshId, sideWriteOk).store)
    ensures Inv(AddItem(s, folder, normOf, item, unique, freshId, readOk, sideWriteOk, writeOk).store)
  {
    if s.update.Some? {
      AddToUpdatePreservesInv(s, folder, normOf, item, unique, freshId, sideWriteOk);
    }
    var begun := BeginUpdate(s, readOk);
    if begun.result.Success? {
      ClonedFixedPoints(begun.store.data.value);
      AddToUpdatePreservesInv(begun.store, folder, normOf, item, unique, freshId, sideWriteOk);
    }
  }

  /** Adding an item to an open update keeps the store invariant. */
  lemma AddToUpdatePreservesInv(s: Store, folder: string, normOf: Vector -> real, item: NewItem, unique: bool,
                                freshId: string, sideWriteOk: bool)
    requires Inv(s) && s.update.Some?
    ensures Inv(AddItemToUpdate(s, folder, normOf, item, unique, freshId, sideWriteOk).store)
  {
  }

  /** Deleting an item keeps the store invariant. */
  lemma DeleteItemPreservesInv(s: Store, id: string, readOk: bool, writeOk: bool)
    requires Inv(s)
    ensures Inv(DeleteItem(s, id, readOk, writeOk).store)
  {
    var begun := BeginUpdate(s, readOk);
    if begun.result.Success? {
      ClonedFixedPoints(begun.store.data.value);
    }
  }

  /** BeginUpdate refuses a second update; otherwise it loads the committed document
      and opens a working copy that is a clone of it, or fails without changing
      anything but the loaded data. */
  lemma BeginUpdateOpensClone(s: Store, readOk: bool)
    ensures s.update.Some? ==> BeginUpdate(s, readOk) == Step(Failure(UpdateAlreadyInProgress), s)
    ensures s.update.None? ==>
      var t := BeginUpdate(s, readOk);
      && t.store.disk == s.disk
      && (t.result.Success? <==> s.data.Some? || (s.disk.indexFile.Some? && readOk))
      && (t.result.Success? ==>
            && t.store.data == (if s.data.Some? then s.data else s.disk.indexFile)
            && t.store.update == Some(Cloned(t.store.data.value)))
      && (t.result.Failure? ==> t.store == s)
  {
  }

  /** The working copy is a deep copy: its items equal the committed document's
      item by item, and a later change to the working copy leaves `data` as it was. */
  lemma {:induction false} WorkingCopyIsIsolated(s: Store, readOk: bool, folder: string, normOf: Vector -> real,
                                                  item: NewItem, unique: bool, freshId: string, sideWriteOk: bool)
    requires s.update.None? && BeginUpdate(s, readOk).result.Success?
    ensures var t := BeginUpdate(s, readOk);
      && t.store.update.value.items == t.store.data.value.items
      && AddItemToUpdate(t.store, folder, normOf, item, unique, freshId, sideWriteOk).store.data == t.store.data
  {
    var t := BeginUpdate(s, readOk);
    var d := t.store.data.value;
    assert Cloned(d).items == d.items by {
      assert forall i :: 0 <= i < |d.items| ==> Cloned(d).items[i] == d.items[i] by {
        forall i | 0 <= i < |d.items| ensures Cloned(d).items[i] == d.items[i] {
          var it := d.items[i];
          assert CloneItem(it).metadata == it.metadata;
        }
      }
    }
  }

  /** EndUpdate commits the working copy to the document file and to `data` and
      closes the update; a failed write keeps both the committed data and the
      working copy. */
  lemma EndUpdateCommitsOrKeeps(s: Store, writeOk: bool)
    ensures var t := EndUpdate(s, writeOk);
      && (s.update.None? ==> t == Step(Failure(NoUpdateInProgress), s))
      && (s.update.Some? && WriteSucceeds(s.disk, writeOk) ==>
            t.result.Success? && t.store.data == s.update && t.store.update.None?
            && t.store.disk.indexFile == s.update && t.store.disk.sideFiles == s.disk.sideFiles)
      && (s.update.Some? && !WriteSucceeds(s.disk, writeOk) ==>
            t == Step(Failure(ErrorSavingIndex), s))
  {
  }

  /** Begin, then cancel: the committed state is whatever the load left, and no
      update is open. */
  lemma BeginThenCancelLoadsOnly(s: Store, readOk: bool)
    requires s.update.None?
    ensures CancelUpdate(BeginUpdate(s, readOk).store) == Load(s, readOk).store
  {
  }

  /** CreateIndex: refuses an existing index unless asked to delete it; a successful
      create leaves an empty document with the requested version and configuration
      on disk and in memory; a failed write deletes the folder. The working copy is
      never touched. */
  lemma CreateIndexOutcome(s: Store, config: Option<CreateIndexConfig>, writeOk: bool)
    requires Inv(s)
    ensures var t := CreateIndex(s, config, writeOk);
      && t.store.update == s.update
      && (s.disk.indexFile.Some? && !(config.Some? && config.value.deleteIfExists) ==>
            t == Step(Failure(IndexAlreadyExists), s))
      && (s.disk.indexFile.None? || (config.Some? && config.value.deleteIfExists) ==>
            && (writeOk ==>
                  && t.result.Success?
                  && t.store.data.Some? && t.store.disk.indexFile == t.store.data
                  && t.store.disk.folderExists
                  && t.store.data.value.items == []
                  && t.store.data.value.version == (if config.Some? then config.value.version else 1)
                  && t.store.data.value.metadataConfig.Some?
                  && (config.Some? && config.value.metadataConfig.Some? ==>
                        t.store.data.value.metadataConfig == config.value.metadataConfig)
                  && (!(config.Some? && config.value.metadataConfig.Some?) ==>
                        t.store.data.value.metadataConfig == Some(MetadataConfig(None))))
            && (!writeOk ==>
                  t.result == Failure(ErrorCreatingIndex) && t.store.data.None?
                  && t.store.disk == Disk(false, None, map[])))
  {
  }

  /** DeleteIndex forgets the committed data whether or not the folder was there. */
  lemma DeleteIndexClearsData(s: Store)
    ensures var t := DeleteIndex(s);
      && t.store.data.None? && t.store.update == s.update
      && (t.result.Success? <==> s.disk.folderExists)
      && (t.result.Success? ==> t.store.disk == Disk(false, None, map[]))
      && (t.result.Failure? ==> t.store.disk == s.disk)
  {
  }

  // ---------------------------------------------------------------- adding items

  /** The two refusals of AddItemToUpdate change nothing. */
  lemma AddRejects(s: Store, folder: string, normOf: Vector -> real, item: NewItem, unique: bool,
                   freshId: string, sideWriteOk: bool)
    requires s.update.Some? && s.update.value.metadataConfig.Some?
    ensures var t := AddItemToUpdate(s, folder, normOf, item, unique, freshId, sideWriteOk);
      && (item.vector.None? ==> t == Step(Failure(VectorRequired), s))
      && (item.vector.Some? && unique && FindItem(s.update.value.items, item.id.GetOr(freshId)).Some? ==>
            t == Step(Failure(ItemAlreadyExists(item.id.GetOr(freshId))), s))
      && (t.result.Failure? ==> t.store == s)
  {
  }

  /** A successful insert appends exactly one item, with the caller's id (or the
      fresh one), vector and computed norm; the committed data is untouched. */
  lemma InsertAppends(s: Store, folder: string, normOf: Vector -> real, item: NewItem,
                      freshId: string, sideWriteOk: bool)
    requires s.update.Some? && s.update.value.metadataConfig.Some?
    requires AddItemToUpdate(s, folder, normOf, item, true, freshId, sideWriteOk).result.Success?
    ensures var t := AddItemToUpdate(s, folder, normOf, item, true, freshId, sideWriteOk);
      var items := t.store.update.value.items;
      && item.vector.Some?
      && items == s.update.value.items + [t.result.value]
      && t.result.value.id == item.id.GetOr(freshId)
      && t.result.value.vector == item.vector.value
      && t.result.value.norm == normOf(item.vector.value)
      && FindIndex(s.update.value.items, t.result.value.id) < 0
      && t.store.data == s.data
  {
  }

  /** A successful upsert of an id already present overwrites that item in place:
      same position, same id and stored norm, new vector, and no other item
      changes. An upsert of a new id appends like an insert. */
  lemma UpsertReplacesInPlace(s: Store, folder: string, normOf: Vector -> real, item: NewItem,
                              freshId: string, sideWriteOk: bool)
    requires s.update.Some? && s.update.value.metadataConfig.Some?
    requires AddItemToUpdate(s, folder, normOf, item, false, freshId, sideWriteOk).result.Success?
    ensures var t := AddItemToUpdate(s, folder, normOf, item, false, freshId, sideWriteOk);
      var before := s.update.value.items;
      var after := t.store.update.value.items;
      var k := FindIndex(before, item.id.GetOr(freshId));
      && (k >= 0 ==>
            && |after| == |before|
            && after[k] == t.result.value
            && after[k].id == before[k].id && after[k].norm == before[k].norm
            && after[k].vector == item.vector.value
            && (forall j :: 0 <= j < |before| && j != k ==> after[j] == before[j]))
      && (k < 0 ==> after == before + [t.result.value] && t.result.value.norm == normOf(item.vector.value))
  {
  }

  /** Metadata goes to a side file exactly when the index names indexed keys and the
      item has metadata; then the stored item keeps only the indexed keys and points
      at its side file, which holds those same entries. */
  lemma ExternalisationRule(s: Store, folder: string, normOf: Vector -> real, item: NewItem, unique: bool,
                            freshId: string, sideWriteOk: bool)
    requires s.update.Some? && s.update.value.metadataConfig.Some?
    requires AddItemToUpdate(s, folder, normOf, item, unique, freshId, sideWriteOk).result.Success?
    ensures var t := AddItemToUpdate(s, folder, normOf, item, unique, freshId, sideWriteOk);
      var config := s.update.value.metadataConfig.value;
      var stored := t.result.value;
      var id := item.id.GetOr(freshId);
      && (Externalises(config, item.metadata) <==> stored.metadataFile.Some?)
      && (Externalises(config, item.metadata) ==>
            && stored.metadataFile == Some(SideFilePath(folder, id))
            && (forall key :: key in stored.metadata <==> key in item.metadata && key in config.indexed.value)
            && (forall key :: key in stored.metadata ==> stored.metadata[key] == item.metadata[key])
            && t.store.disk.sideFiles == s.disk.sideFiles[SideFilePath(folder, id) := stored.metadata])
      && (!Externalises(config, item.metadata) ==>
            stored.metadata == item.metadata && t.store.disk == s.disk)
  {
  }

  /** A side-file write that fails refuses the item and changes nothing. */
  lemma SideFileFailureChangesNothing(s: Store, folder: string, normOf: Vector -> real, item: NewItem,
                                      unique: bool, freshId: string)
    requires s.update.Some? && s.update.value.metadataConfig.Some?
    requires item.vector.Some?
    requires !(unique && FindIndex(s.update.value.items, item.id.GetOr(freshId)) >= 0)
    requires Externalises(s.update.value.metadataConfig.value, item.metadata)
    ensures AddItemToUpdate(s, folder, normOf, item, unique, freshId, false) ==
            Step(Failure(MetadataFileWriteFailed), s)
  {
  }

  /** Appending an item whose id is new keeps ids distinct. */
  lemma {:induction false} AppendKeepsDistinct(items: seq<IndexItem>, x: IndexItem)
    requires DistinctIds(items) && FindIndex(items, x.id) < 0
    ensures DistinctIds(items + [x])
  {
    var r := items + [x];
    forall i, j | 0 <= i < j < |r| ensures r[i].id != r[j].id {
      if j == |items| {
        assert r[i] == items[i];
      } else {
        assert r[i] == items[i] && r[j] == items[j];
      }
    }
  }

  /** Neither insert nor upsert ever makes two items share an id. */
  lemma {:induction false} AddKeepsIdsDistinct(s: Store, folder: string, normOf: Vector -> real, item: NewItem,
                                               unique: bool, freshId: string, sideWriteOk: bool)
    requires s.update.Some? && s.update.value.metadataConfig.Some?
    requires DistinctIds(s.update.value.items)
    ensures DistinctIds(AddItemToUpdate(s, folder, normOf, item, unique, freshId, sideWriteOk).store.update.value.items)
  {
    var t := AddItemToUpdate(s, folder, normOf, item, unique, freshId, sideWriteOk);
    if t.result.Success? {
      var before := s.update.value.items;
      var id := item.id.GetOr(freshId);
      var k := FindIndex(before, id);
      var built := BuildItem(folder, normOf, s.update.value.metadataConfig.value, id, item.vector.value, item.metadata);
      if !unique && k >= 0 {
        var after := t.store.update.value.items;
        assert forall j :: 0 <= j < |after| ==> after[j].id == before[j].id;
      } else {
        AppendKeepsDistinct(before, built);
      }
    }
  }

  // ---------------------------------------------------------------- deleting items

  /** Removing an id takes out its first occurrence and keeps the rest in order; an
      absent id changes nothing. */
  lemma RemoveFirstShape(items: seq<IndexItem>, id: string)
    ensures var k := FindIndex(items, id);
      var r := RemoveFirst(items, id);
      && (k < 0 ==> r == items)
      && (k >= 0 ==>
            && |r| == |items| - 1
            && (forall j :: 0 <= j < k ==> r[j] == items[j])
            && (forall j :: k <= j < |r| ==> r[j] == items[j + 1]))
  {
  }

  /** With distinct ids, after removal no item has that id. */
  lemma {:induction false} RemoveFirstRemovesAll(items: seq<IndexItem>, id: string)
    requires DistinctIds(items)
    ensures forall j :: 0 <= j < |RemoveFirst(items, id)| ==> RemoveFirst(items, id)[j].id != id
    ensures DistinctIds(RemoveFirst(items, id))
  {
    var k := FindIndex(items, id);
    var r := RemoveFirst(items, id);
    if k >= 0 {
      forall j | 0 <= j < |r| ensures r[j].id != id {
        if j < k { assert r[j] == items[j]; } else { assert r[j] == items[j + 1]; }
      }
      forall i, j | 0 <= i < j < |r| ensures r[i].id != r[j].id {
        var i' := if i < k then i else i + 1;
        var j' := if j < k then j else j + 1;
        assert r[i] == items[i'] && r[j] == items[j'];
      }
    }
  }

  /** Deleting an item just inserted under a new id restores the item list. */
  lemma {:induction false} DeleteUndoesInsert(items: seq<IndexItem>, x: IndexItem)
    requires FindIndex(items, x.id) < 0
    ensures RemoveFirst(items + [x], x.id) == items
  {
    var r := items + [x];
    assert FindIndex(r, x.id) == |items| by {
      var k := FindIndex(r, x.id);
      assert r[|items|].id == x.id;
      assert forall j :: 0 <= j < |items| ==> r[j] == items[j];
    }
    assert r[..|items|] == items;
  }

  // ---------------------------------------------------------------- auto-commit

  /** Without an open update, a successful insert or upsert is committed at once: no
      update is left open and the committed data, on disk and in memory, is the
      working copy that AddItemToUpdate produced. */
  lemma AutoCommit(s: Store, folder: string, normOf: Vector -> real, item: NewItem, unique: bool,
                   freshId: string, readOk: bool, sideWriteOk: bool, writeOk: bool)
    requires Inv(s) && s.update.None?
    requires AddItem(s, folder, normOf, item, unique, freshId, readOk, sideWriteOk, writeOk).result.Success?
    ensures var t := AddItem(s, folder, normOf, item, unique, freshId, readOk, sideWriteOk, writeOk);
      var begun := BeginUpdate(s, readOk);
      && begun.result.Success?
      && t.store.update.None?
      && t.store.data == t.store.disk.indexFile
      && t.store.data == AddItemToUpdate(begun.store, folder, normOf, item, unique, freshId, sideWriteOk).store.update
  {
  }

  /** Without an open update, a successful delete is committed at once: no update is
      left open, and the committed document, on disk and in memory, is the loaded one
      with the first item of that id removed. A failed commit leaves the update open. */
  lemma {:induction false} DeleteAutoCommits(s: Store, id: string, readOk: bool, writeOk: bool)
    requires s.update.None? && BeginUpdate(s, readOk).result.Success?
    ensures var t := DeleteItem(s, id, readOk, writeOk);
      var loaded := Load(s, readOk).store.data.value;
      && (t.result.Success? ==>
            && t.store.update.None?
            && t.store.data == t.store.disk.indexFile
            && t.store.data.value.items == RemoveFirst(loaded.items, id)
            && t.store.data.value.version == loaded.version)
      && (t.result.Failure? ==> t.result.error == ErrorSavingIndex && t.store.update.Some?)
  {
    var d := Load(s, readOk).store.data.value;
    assert Cloned(d).items == d.items by {
      assert forall i :: 0 <= i < |d.items| ==> Cloned(d).items[i] == d.items[i] by {
        forall i | 0 <= i < |d.items| ensures Cloned(d).items[i] == d.items[i] {
          var it := d.items[i];
          assert CloneItem(it).metadata == it.metadata;
        }
      }
    }
  }

  /** Without an open update, an insert the working copy refuses leaves that update
      open and the committed data as loaded: the automatic update is never
      cancelled. */
  lemma FailedAutoCommitLeavesUpdateOpen(s: Store, folder: string, normOf: Vector -> real, item: NewItem,
                                         unique: bool, freshId: string, readOk: bool, sideWriteOk: bool,
                                         writeOk: bool)
    requires Inv(s) && s.update.None? && BeginUpdate(s, readOk).result.Success?
    requires AddItemToUpdate(BeginUpdate(s, readOk).store, folder, normOf, item, unique, freshId, sideWriteOk).result.Failure?
    ensures var t := AddItem(s, folder, normOf, item, unique, freshId, readOk, sideWriteOk, writeOk);
      && t.result.Failure?
      && t.store.update.Some?
      && t.store.data == Load(s, readOk).store.data
      && t.store.disk == s.disk
  {
  }

  /** Inside an open update, inserts and deletes touch only the working copy: the
      committed data and the document file stay as they were. */
  lemma UpdateIsTransactional(s: Store, folder: string, normOf: Vector -> real, item: NewItem, unique: bool,
                              freshId: string, id: string, readOk: bool, sideWriteOk: bool, writeOk: bool)
    requires Inv(s) && s.update.Some?
    ensures var t := AddItem(s, folder, normOf, item, unique, freshId, readOk, sideWriteOk, writeOk);
      t.store.data == s.data && t.store.disk.indexFile == s.disk.indexFile && t.store.update.Some?
    ensures var t := DeleteItem(s, id, readOk, writeOk);
      t.store.data == s.data && t.store.disk == s.disk && t.store.update.Some?
  {
  }

  /** Reads see only the committed data: changing the working copy changes nothing
      GetItem, ListItems and GetIndexStats return. */
  lemma ReadsIgnoreWorkingCopy(s: Store, u: Option<IndexData>, id: string, readOk: bool)
    ensures GetItem(s.(update := u), id, readOk).result == GetItem(s, id, readOk).result
    ensures ListItems(s.(update := u), readOk).result == ListItems(s, readOk).result
    ensures GetIndexStats(s.(update := u), readOk).result == GetIndexStats(s, readOk).result
  {
  }

  /** GetItem finds the first item with that id in the committed data when there is one. */
  lemma GetItemFinds(s: Store, id: string, readOk: bool)
    requires GetItem(s, id, readOk).result.Success?
    ensures var items := Load(s, readOk).store.data.value.items;
      var r := GetItem(s, id, readOk).result.value;
      && (r.Some? <==> exists j :: 0 <= j < |items| && items[j].id == id)
      && (r.Some? ==> r.value.id == id && r.value in items)
      && (r.Some? ==>
            r.value == items[FindIndex(items, id)] && forall j :: 0 <= j < FindIndex(items, id) ==> items[j].id != id)
  {
  }
}
