# Vectra core in Dafny

Vectra is a local vector database for .NET. An index is a folder on disk with one
document file, `index.json`. The document holds a version, a metadata configuration
and the list of items. Each item has an id, a vector, the vector's norm and its
metadata. When the configuration's `Indexed` list is non-empty and the item has
metadata, only the keys named in that list are kept. That subset stays inline in the
document and is also written to a side file `{id}.json`; the other keys are dropped.
Otherwise the item's whole metadata stays inline.
A `LocalIndex` keeps two copies of the document in memory:

- the committed copy, `_data`;
- the working copy, `_update`. It is opened by `BeginUpdateAsync`, written back by
  `EndUpdateAsync` and dropped by `CancelUpdate`.

Inserts, upserts and deletes open and commit an update of their own when none is
open. Queries score every committed item against a vector and return the best
`topK`. A separate `TextSplitter` cuts text into token-bounded chunks:

1. It splits on the first separator of a per-document-type list.
2. Parts that are still too long are halved recursively.
3. Neighbouring parts are merged greedily while they fit the chunk size.
4. Every chunk after the first receives the neighbouring tokens as overlap.

The project models these parts:

- `MetadataModel` (metadata.dfy): metadata dictionaries, their constructors and
  `Clone`.
- `IndexModel` (index_data.dfy): the index document entities and `IndexData.Clone`.
- `ItemSelector` (item_selector.dfy): `Select` and the private key-by-key
  `MetadataFilter` decision. A `Custom` entry is a boxed `MetadataTypes` tag, a
  boxed `int` (or an enum backed by `int`), null, or some other object. The cast
  `(MetadataTypes)` unboxes the first two, throws a null reference exception on
  null, and throws an invalid cast on anything else.
- `StoreSpec` (store_spec.dfy): every `LocalIndex` operation as a function from the
  state before the call to its result and the state after it. The state is the
  committed copy, the working copy and an abstract disk.
- `StoreProperties` (store_properties.dfy): what those operations promise.
- `QueryEngine` (query.dfy): the selection, ordering and metadata read-back of
  `QueryItemsAsync`. The read-back follows the code, which joins the folder onto a
  path that already holds it; the corrected read is modelled beside it.
- `LocalIndexStore` (local_index.dfy): the class `LocalIndex`. Its fields are
  updated in place, and every method is proved to follow its `StoreSpec` function.
- `Separators` (separators.dfy): `GetSeparators`.
- `TextParts` (text_parts.dfy): `ContainsAlphanumeric`, and .NET's
  `string.Split(string)` with its re-join.
- `Chunks` (chunks.dfy): the greedy merge as a left fold, and the overlap
  assignment.
- `TextSplitting` (text_splitter.dfy): the classes `TextSplitterConfig` and
  `TextSplitter`, with the constructor checks, `Split`, `RecursiveSplit` and
  `CombineChunks`.

I/O outcomes are boolean parameters:

- `readOk`: the document file could be read;
- `sideWriteOk`: a side file could be written;
- `writeOk`: the document file could be written.

Any write also fails when the folder is missing. `Guid.NewGuid()` is a `freshId`
parameter. `ItemSelector.Normalize` and `NormalizedCosineSimilarity` are opaque
function values held by the class. The GPT-3 tokenizer is a `Tokenizer` value
wrapping an arbitrary `encode` function.

Points where the model follows what the code does:

- the side file receives only the indexed subset of the metadata
  (Vectra/LocalIndex.cs:395-405);
- `MetadataFile` records the folder-combined path (Vectra/LocalIndex.cs:404), which
  the query joins onto the folder again (Vectra/LocalIndex.cs:310);
- a negative `topK` fails, because `GetRange` throws (Vectra/LocalIndex.cs:296);
- the query filter never narrows the candidates. The filtered list is built but the
  ranking loops over all items (Vectra/LocalIndex.cs:275-289). The doc comment
  (Vectra/LocalIndex.cs:262-263) says the filter is applied;
- `ListItemsByMetadata` always returns an empty list (Vectra/LocalIndex.cs:250-255).
  Its doc comment (Vectra/LocalIndex.cs:240-247) promises the matching items;
- `RecursiveSplit` recurses with no separators. `GetRange(1, separator.Length)` runs
  while `separator` is still empty (Vectra/TextSplitter.cs:90-92);
- `startPos` does not advance past a dropped part. The `continue` skips the update
  (Vectra/TextSplitter.cs:119-123, 160).

## Model

| member | source | states |
|---|---|---|
| MetadataModel.Ordinal | Vectra/Models/MetadataFilter.cs:74-79 | The enum's underlying value is below 3, and it is 0 exactly for `Number`. |
| MetadataModel.NewMetadata | Vectra/Models/Metadata.cs:18-20 | The parameterless constructor yields a dictionary with no keys. |
| MetadataModel.MetadataFrom | Vectra/Models/Metadata.cs:26-28 | The copying constructor yields exactly the given dictionary's keys, each with its value. |
| MetadataModel.Clone | Vectra/Models/Metadata.cs:31-34 | The clone has the same keys and, under each, the same value. |
| MetadataModel.CloneIsIdentity | Vectra/Models/Metadata.cs:31-34 | The clone equals the original map, and cloning a clone gives the original again. That a change to the clone never reaches the original follows from maps being values; it is not a separate proof. |
| IndexModel.CloneItem | Vectra/Models/IndexData.cs:45 | The item copy keeps id, vector, norm, metadata and metadata file. |
| IndexModel.CloneConfig | Vectra/Models/IndexData.cs:35-38 | The clone's configuration is always present. Its `Indexed` equals the original's, and is absent when the original configuration or its `Indexed` is absent. |
| IndexModel.CloneIndexData | Vectra/Models/IndexData.cs:32-54 | The counting loop copies the version, sets a fresh configuration and keeps the item count. Position i holds the copy of item i. |
| IndexModel.ClonedFixedPoints | Vectra/Models/IndexData.cs:32-54 | A clone equals its original exactly when the original has a configuration. Cloning is idempotent. |
| ItemSelector.Select | Vectra/ItemSelector.cs:66-114 | Every metadata dictionary is accepted under every filter, null or not. |
| ItemSelector.CheckKey | Vectra/ItemSelector.cs:137-189 | Each switch case, for each key: `$eq` and `$ne` compare the tag with `Eq` and `Ne`. `$gt`, `$gte`, `$lt` and `$lte` reject every non-`Number` tag and compare ordinal 0 with a present threshold. `$in` and `$nin` reject `Boolean`, throw on a missing list and, with the list present, never throw and test membership. Any other key decides at once: against a boxed tag it compares the tags, against a boxed integer it compares the tag's ordinal with it, a null entry throws the null reference exception, and any other object throws the invalid cast. No operator key ever accepts outright. |
| ItemSelector.MetadataFilterMatch | Vectra/ItemSelector.cs:130-135 | A null filter throws. A filter with a null or empty `Custom` dictionary accepts. |
| ItemSelector.FirstDecidingKeyWins | Vectra/ItemSelector.cs:135-190 | Keys are examined in dictionary order. The first key that does not let the scan continue fixes the result. |
| ItemSelector.AllKeysPassAccepts | Vectra/ItemSelector.cs:135-191 | When every key lets the scan continue, the value is accepted. |
| ItemSelector.RejectionHasCause | Vectra/ItemSelector.cs:135-190 | A rejection comes from one key that rejected, and every key before it let the scan continue. |
| ItemSelector.UnrecognisedKeyEndsScan | Vectra/ItemSelector.cs:187-188 | Reaching an unrecognised key returns the comparison with its entry (tag with tag, or ordinal with boxed integer), or the null-entry or invalid-cast failure, whatever keys follow. |
| ItemSelector.TagAndOrdinalAgree | Vectra/ItemSelector.cs:187-188 | A boxed tag and a boxed integer equal to its ordinal decide every key alike. |
| ItemSelector.BoxedIntegerCompares | Vectra/ItemSelector.cs:187-188 | `Custom = {"k": 1}` accepts `String` (ordinal 1) and rejects `Number`; a null entry under the key throws. |
| StoreSpec.PathJoin | Vectra/LocalIndex.cs:310 | The joined path is at least as long as its two parts together. |
| StoreSpec.FindIndex | Vectra/LocalIndex.cs:124 | Returns the first position holding the id, or -1 when no item has it. |
| StoreSpec.Load | Vectra/LocalIndex.cs:346-367 | A successful load leaves committed data in memory. Loading never touches the working copy or the disk. |
| StoreSpec.BeginUpdate | Vectra/LocalIndex.cs:38-47 | A successful begin leaves an open working copy that has a configuration. |
| StoreSpec.Restrict | Vectra/LocalIndex.cs:392-401 | A key is kept exactly when it is in the item's metadata and in `Indexed`, and it keeps its value. |
| StoreProperties.OperationsPreserveInv | Vectra/LocalIndex.cs:38-166 | Load, begin, cancel, end, delete-index and create keep the store invariant. The invariant: an open working copy has a configuration, and files exist only in an existing folder. |
| StoreProperties.ItemWritesPreserveInv | Vectra/LocalIndex.cs:203-216 | AddItemToUpdate, InsertItem and UpsertItem keep the store invariant. |
| StoreProperties.DeleteItemPreservesInv | Vectra/LocalIndex.cs:120-140 | DeleteItemAsync keeps the store invariant. |
| StoreProperties.BeginUpdateOpensClone | Vectra/LocalIndex.cs:38-47 | With an update open it fails with "Update already in progress" and changes nothing. Otherwise it succeeds exactly when data is loaded or readable. On success the committed data is the loaded document and the working copy is its clone. On failure the state is unchanged. |
| StoreProperties.WorkingCopyIsIsolated | Vectra/LocalIndex.cs:46 | The new working copy holds the committed items one for one. Adding an item to it leaves the committed data as it was. |
| StoreProperties.EndUpdateCommitsOrKeeps | Vectra/LocalIndex.cs:148-166 | With no update it fails with "No update in progress" and changes nothing. On a successful write the working copy becomes the committed data and the document file, and no update stays open. A failed write keeps both copies. |
| StoreProperties.BeginThenCancelLoadsOnly | Vectra/LocalIndex.cs:38-58 | Cancel only clears the working copy, so begin-then-cancel leaves what the load left. |
| StoreProperties.CreateIndexOutcome | Vectra/LocalIndex.cs:67-102 | An existing index is refused with "Index already exists" unless `DeleteIfExists` is set. A successful create leaves an empty document in memory and on disk. Its version is `config.Version`, or 1 with no config. Its configuration is the given one, or a new `MetadataConfig` whose `Indexed` is null. A failed write deletes the folder. The working copy is never touched. |
| StoreProperties.DeleteIndexClearsData | Vectra/LocalIndex.cs:110-114 | The committed data is always dropped. It succeeds exactly when the folder exists, and then the folder is gone. |
| StoreProperties.AddRejects | Vectra/LocalIndex.cs:372-386 | A missing vector, or a unique insert of an id already present, fails with that error and changes nothing. Every failure changes nothing. |
| StoreProperties.InsertAppends | Vectra/LocalIndex.cs:370-446 | A successful unique insert appends exactly one item at the end. The item has the given id (or the fresh one), the vector and the norm computed from it. The id was absent before, and the committed data is untouched. |
| StoreProperties.UpsertReplacesInPlace | Vectra/LocalIndex.cs:427-441 | An upsert of a present id keeps the count, the position, the id and the old norm. It overwrites the vector, and no other item changes. An upsert of an absent id appends a new item with a freshly computed norm. |
| StoreProperties.ExternalisationRule | Vectra/LocalIndex.cs:388-424 | A side file is written exactly when `Indexed` is non-empty and the metadata is non-empty. The stored metadata is then the indexed subset and `MetadataFile` is the combined folder path. That side file holds the same subset. Otherwise the metadata is stored whole and the disk is unchanged. |
| StoreProperties.SideFileFailureChangesNothing | Vectra/LocalIndex.cs:404-405 | A failed side-file write fails the call and changes nothing. |
| StoreProperties.AppendKeepsDistinct | Vectra/LocalIndex.cs:444 | Appending an item with a new id keeps ids distinct. |
| StoreProperties.AddKeepsIdsDistinct | Vectra/LocalIndex.cs:379-446 | Neither insert nor upsert ever makes two working items share an id. |
| StoreProperties.RemoveFirstShape | Vectra/LocalIndex.cs:124-128 | Deleting an id removes only its first occurrence and keeps the other items in order. An absent id changes nothing. |
| StoreProperties.RemoveFirstRemovesAll | Vectra/LocalIndex.cs:124-128 | With distinct ids, no item with that id remains after deletion, and ids stay distinct. |
| StoreProperties.DeleteUndoesInsert | Vectra/LocalIndex.cs:124-128 | Deleting an item just appended under a new id restores the item list. |
| StoreProperties.AutoCommit | Vectra/LocalIndex.cs:203-216 | With no open update, a successful insert or upsert commits at once. No update stays open, and the committed data in memory and on disk is the working copy that AddItemToUpdate produced. |
| StoreProperties.DeleteAutoCommits | Vectra/LocalIndex.cs:130-139 | With no open update, a successful delete commits at once. The committed document is the loaded one without the first item of that id. A failed commit leaves the update open. |
| StoreProperties.FailedAutoCommitLeavesUpdateOpen | Vectra/LocalIndex.cs:209-214 | When AddItemToUpdate fails inside the automatic update, the update is never cancelled. It stays open, and the committed data and the disk are as loaded. |
| StoreProperties.UpdateIsTransactional | Vectra/LocalIndex.cs:120-216 | Inside an open update, insert, upsert and delete leave the committed data and the document file unchanged. |
| StoreProperties.ReadsIgnoreWorkingCopy | Vectra/LocalIndex.cs:172-238 | Stats, GetItem and ListItems read only committed data: changing the working copy changes none of their results. |
| StoreProperties.GetItemFinds | Vectra/LocalIndex.cs:188-192 | GetItem returns an item exactly when a committed item has that id. It is then the item at the first position holding the id, and no earlier item has that id. |
| QueryEngine.Scores | Vectra/LocalIndex.cs:284-289 | One score per committed item, in item order, each from the item's own vector and norm. |
| QueryEngine.ScoreItems | Vectra/LocalIndex.cs:283-289 | The loop builds one (index, score) pair per item. Pair i names item i with its score. |
| QueryEngine.InsertDescending | Vectra/LocalIndex.cs:292 | Inserting into a descending list keeps it descending and adds exactly that entry. |
| QueryEngine.InsertionKeepsOrder | Vectra/LocalIndex.cs:292 | Inserting at the first position whose score is smaller keeps the list descending. |
| QueryEngine.SortDescending | Vectra/LocalIndex.cs:292 | The result is sorted by score, descending, and is a permutation of the input. |
| QueryEngine.PrefixOfSortedIsRankOrder | Vectra/LocalIndex.cs:292-296 | The first `min(k, n)` entries of a descending permutation of the scored pairs form a correct top-k answer: distinct items with their scores, descending, and no omitted item above a kept one. |
| QueryEngine.TopDistances | Vectra/LocalIndex.cs:292-296 | It fails exactly when `topK` is negative, the case where `GetRange` throws. Otherwise the result is a correct top-`topK` ranking of the scores. |
| QueryEngine.FirstWinnerIsMaximum | Vectra/LocalIndex.cs:292-296 | The first answer's score is at least every item's score. |
| QueryEngine.OmittedNeverBeatsKept | Vectra/LocalIndex.cs:295-296 | An item left out scores no higher than the last one kept. |
| QueryEngine.RankOrderSize | Vectra/LocalIndex.cs:296 | `topK = 0` gives no answers. A `topK` of at least the item count lists every item. |
| QueryEngine.Candidates | Vectra/LocalIndex.cs:274-278 | The filtered list only holds committed items. |
| QueryEngine.CandidatesAreAllItems | Vectra/LocalIndex.cs:274-278 | Because `Select` accepts everything, the filtered list is the whole item list. |
| QueryEngine.Winners | Vectra/LocalIndex.cs:295-303 | One result per ranked pair, in ranking order. Each is a copy of the named item with its score. |
| QueryEngine.ResolveAll | Vectra/LocalIndex.cs:306-314 | The read-back as written: a winner with a `MetadataFile` is read at `Path.Join(folder, MetadataFile)`. It succeeds exactly when every such read finds a file. Then each winner keeps its slot and its metadata is replaced by the file's contents. Otherwise the query fails with a missing file. |
| QueryEngine.ResolveWinners | Vectra/LocalIndex.cs:306-314 | The read-back loop, joining the folder onto each recorded path, computes exactly `ResolveAll`. |
| QueryEngine.ResolveFailureSticks | Vectra/LocalIndex.cs:306-314 | One read that misses among the winners fails the whole query. |
| QueryEngine.ExternalisedWinnerFailsQuery | Vectra/LocalIndex.cs:306-314 | With a non-empty folder, a winner whose side file was written by AddItemToUpdate, and no other side file on disk, the query fails with a missing file. |
| QueryEngine.ReadsAgreeForEmptyFolder | Vectra/LocalIndex.cs:310 | With an empty folder path the as-written read and the corrected read agree. |
| QueryEngine.AsWrittenReadMissesSideFile | Vectra/LocalIndex.cs:310 | Joining the folder onto the recorded path, which already starts with the folder, misses the file that was written. |
| QueryEngine.AsWrittenExample | Vectra/LocalIndex.cs:306-314 | With folder "idx" and id "a", the side file is written at "idx/a.json" and read at "idx/idx/a.json", so the query fails. |
| QueryEngine.ResolveReadsBackSideFile | Vectra/LocalIndex.cs:404-423 | The corrected read, at the recorded path itself, returns exactly the indexed subset that AddItemToUpdate wrote. |
| LocalIndexStore.CopyIndexedKeys | Vectra/LocalIndex.cs:395-401 | The `foreach` over `Indexed` builds exactly the restriction of the item's metadata to the indexed keys. |
| LocalIndexStore.LocalIndex.constructor | Vectra/LocalIndex.cs:22-26 | A new store has nothing loaded and no update. |
| LocalIndexStore.LocalIndex.LoadIndexData | Vectra/LocalIndex.cs:346-367 | The fields change and the result is returned exactly as `StoreSpec.Load` says. Loaded data is never reloaded. A missing file gives "Index does not exist", and a failed read gives "Error loading index". |
| LocalIndexStore.LocalIndex.BeginUpdate | Vectra/LocalIndex.cs:38-47 | Follows `StoreSpec.BeginUpdate` and keeps the invariant. |
| LocalIndexStore.LocalIndex.CancelUpdate | Vectra/LocalIndex.cs:55-58 | Only the working copy is cleared. |
| LocalIndexStore.LocalIndex.EndUpdate | Vectra/LocalIndex.cs:148-166 | Follows `StoreSpec.EndUpdate` and keeps the invariant. |
| LocalIndexStore.LocalIndex.DeleteIndex | Vectra/LocalIndex.cs:110-114 | Follows `StoreSpec.DeleteIndex` and keeps the invariant. |
| LocalIndexStore.LocalIndex.CreateIndex | Vectra/LocalIndex.cs:67-102 | Follows `StoreSpec.CreateIndex` and keeps the invariant. |
| LocalIndexStore.LocalIndex.RemoveFromUpdate | Vectra/LocalIndex.cs:124-128 | The working copy loses the first item with the id and nothing else changes. |
| LocalIndexStore.LocalIndex.DeleteItem | Vectra/LocalIndex.cs:120-140 | Follows `StoreSpec.DeleteItem` and keeps the invariant. |
| LocalIndexStore.LocalIndex.AddItemToUpdate | Vectra/LocalIndex.cs:370-447 | Follows `StoreSpec.AddItemToUpdate` and keeps the invariant. |
| LocalIndexStore.LocalIndex.InsertItem | Vectra/LocalIndex.cs:203-216 | Follows `StoreSpec.InsertItem` and keeps the invariant. |
| LocalIndexStore.LocalIndex.UpsertItem | Vectra/LocalIndex.cs:328-341 | Follows `StoreSpec.UpsertItem` and keeps the invariant. |
| LocalIndexStore.LocalIndex.GetIndexStats | Vectra/LocalIndex.cs:172-181 | Follows `StoreSpec.GetIndexStats`: version, configuration and item count of the committed data. |
| LocalIndexStore.LocalIndex.GetItem | Vectra/LocalIndex.cs:188-192 | Follows `StoreSpec.GetItem`. |
| LocalIndexStore.LocalIndex.ListItems | Vectra/LocalIndex.cs:234-238 | Follows `StoreSpec.ListItems`: the committed item list. |
| LocalIndexStore.LocalIndex.ListItemsByMetadata | Vectra/LocalIndex.cs:248-256 | Follows `StoreSpec.ListItemsByMetadata`: it loads, then returns an empty list. |
| LocalIndexStore.LocalIndex.QueryItems | Vectra/LocalIndex.cs:269-317 | Only a load changes state. A failed load is passed on, and a negative `topK` fails. Otherwise the answer is the as-written read-back (`ResolveAll`, joining the folder onto each recorded path) of the winners of some correct top-`topK` ranking of all committed items' scores. |
| Separators.ToLowerAscii | Vectra/TextSplitter.cs:224 | Lower-casing keeps the length and maps each character through the ASCII lower-case map. |
| Separators.ListsEndWithWordsCppToTypescript | Vectra/TextSplitter.cs:226-237 | The cpp, go, java, c#, csharp, cs, ts, tsx and typescript lists end with " " and never hold the empty separator. |
| Separators.ListsEndWithWordsJsToPy | Vectra/TextSplitter.cs:238-248 | The js, jsx, javascript, php, proto, python and py lists end with " " and never hold the empty separator. |
| Separators.ListsEndWithWordsRstToSwift | Vectra/TextSplitter.cs:249-258 | The rst, ruby, rust, scala and swift lists end with " " and never hold the empty separator. |
| Separators.ListsEndWithWordsMdToLatex | Vectra/TextSplitter.cs:259-263 | The md, markdown and latex lists end with " " and never hold the empty separator. |
| Separators.ListsEndWithWordsHtmlAndSol | Vectra/TextSplitter.cs:264-267 | The html and sol lists end with " " and never hold the empty separator. |
| Separators.UnknownDocTypeGetsDefault | Vectra/TextSplitter.cs:268-269 | Any unknown type gets `["\n\n", "\n", " ", ""]`, which ends with "" rather than " ". |
| Separators.DocTypeLookup | Vectra/TextSplitter.cs:222-224 | A null type gets the default list. A given type is lower-cased before the lookup, so upper and lower case agree. |
| Separators.AliasesShareList | Vectra/TextSplitter.cs:230-260 | The aliases java/c#/csharp/cs/ts/tsx/typescript, js/jsx/javascript, python/py and md/markdown each share one list. "CSharp" gets the C-like list. |
| TextParts.AlphanumericIsAsciiLetterOrDigit | Vectra/TextSplitter.cs:13 | A character is in the 62-character constant exactly when it is an ASCII letter or digit. |
| TextParts.ContainsAlphanumeric | Vectra/TextSplitter.cs:205-215 | True exactly when some character of the text is an ASCII letter or digit. |
| TextParts.AlphanumericSurvivesConcat | Vectra/TextSplitter.cs:114-117 | Appending text, such as a kept separator, never loses a letter or digit. |
| TextParts.FirstOccurrence | Vectra/TextSplitter.cs:97 | The leftmost position where the separator occurs, or -1 when it occurs nowhere. |
| TextParts.SplitOn | Vectra/TextSplitter.cs:97 | `string.Split` gives at least one part, and the parts re-joined with the separator are the text. |
| TextParts.PartsAvoidSeparator | Vectra/TextSplitter.cs:97 | With a non-empty separator no part contains it. |
| TextParts.SplitWithoutSeparator | Vectra/TextSplitter.cs:97 | A text without the separator splits into itself alone. |
| TextParts.PartPlacement | Vectra/TextSplitter.cs:112-117 | A part's `endPos`, counting the separator unless it is the last part, covers the chunk text and stays inside the text. The next part starts after it. |
| Chunks.CombineKeepsTokens | Vectra/TextSplitter.cs:167-203 | The in-order concatenation of all tokens is preserved. |
| Chunks.CombineNeverGrows | Vectra/TextSplitter.cs:167-203 | The output has no more chunks than the input, and is empty exactly when the input is. |
| Chunks.CombineRespectsChunkSize | Vectra/TextSplitter.cs:176-190 | If every input chunk is within the size, so is every output chunk. |
| Chunks.CombineIsGreedy | Vectra/TextSplitter.cs:176-196 | Every output chunk begins with an input chunk that keeps its span and overlaps, and its text and tokens start with that input's. That first input would not have fit into the previous output chunk. |
| Chunks.AdjacentOutputsDoNotFit | Vectra/TextSplitter.cs:178-183 | Two adjacent output chunks together exceed the size. |
| Chunks.CombineTwo | Vectra/TextSplitter.cs:172-188 | Two inputs that fit merge into one chunk: the texts joined by the separator, tokens concatenated, the first one's span and overlaps kept. Otherwise both stay. |
| Chunks.CombineKeepsShape | Vectra/TextSplitter.cs:167-203 | Merging keeps the splitter's guarantees: sizes, letters or digits, spans ordered and in range. The last span ends no later than the last input's. |
| Chunks.OverlapTokens | Vectra/TextSplitter.cs:47-65 | Gives the first (`fromStart`) or last `min(overlap, count)` tokens, or none for a missing neighbour. |
| Chunks.OverlapsComeFromNeighbours | Vectra/TextSplitter.cs:67-79 | With overlap 0 nothing changes. Otherwise chunk 0 is untouched. Every later chunk starts with the tail of its predecessor and ends with the head of its successor, or with nothing when it is the last chunk. Text, tokens and spans never change. |
| TextSplitting.TextSplitterConfig.constructor | Vectra/Models/TextSplitterConfig.cs:12-43 | Default settings: the default separator list (fixed while `DocType` is still null), no kept separators, size 400, overlap 40, the GPT-3 tokenizer, no document type. |
| TextSplitting.TextSplitterConfig.SetDocType | Vectra/Models/TextSplitterConfig.cs:37-41 | Assigning `DocType` later leaves the separators as they were. |
| TextSplitting.CheckConfig | Vectra/TextSplitter.cs:23-34 | The checks pass exactly when `1 <= ChunkSize` and `0 <= ChunkOverlap <= ChunkSize`. The errors are tried in order: size too small, then negative overlap, then overlap too large. |
| TextSplitting.DefaultsPassChecks | Vectra/Models/TextSplitterConfig.cs:22-27 | The default size and overlap pass the checks. |
| TextSplitting.NextSeparators | Vectra/TextSplitter.cs:91-92 | The separators a recursive call receives are always none, because the range is taken while the separator is still empty. |
| TextSplitting.Parts | Vectra/TextSplitter.cs:93-104 | There is at least one part, and the parts re-joined with their separator are the text. With no separators every half of a text of two or more characters is shorter than the text. |
| TextSplitting.HalvesWithoutSeparators | Vectra/TextSplitter.cs:101-103 | With no separators the text is cut at `floor(len / 2)`. |
| TextSplitting.FillOverlaps | Vectra/TextSplitter.cs:68-79 | The overlap loop computes exactly `WithOverlaps`. |
| TextSplitting.TextSplitter.constructor | Vectra/TextSplitter.cs:19-35 | A splitter is built only over settings that pass the checks, and keeps that configuration. |
| TextSplitting.TextSplitter.Create | Vectra/TextSplitter.cs:19-35 | A null configuration gets a fresh default one and succeeds: the default separator list, no kept separators, size 400, overlap 40, the GPT-3 tokenizer and no document type. A given one succeeds exactly when the checks pass, and the error is the first failing check. |
| TextSplitting.TextSplitter.Split | Vectra/TextSplitter.cs:42-82 | The result is a base chunk list with overlaps filled from neighbours; an overlap of 0 or less adds none. The base list is well shaped: each chunk within the size, with a letter or digit and no overlap of its own, and spans ordered inside `[0, len - 1]`. Its tokens, concatenated, are the encodings of the text's leaves in order. There are chunks exactly when the text has leaves, and empty text gives none. |
| TextSplitting.TextSplitter.RecursiveSplit | Vectra/TextSplitter.cs:84-165 | Every chunk is within the size and holds a letter or digit; spans are ordered and lie inside the text's range. The chunks' tokens, concatenated, are the encodings of the leaves of `text` under `separators`, in order, so merging loses and reorders nothing. There are chunks exactly when there are leaves, and empty text gives none. |
| TextSplitting.TextSplitter.SplitAllParts | Vectra/TextSplitter.cs:107-161 | The loop over the parts, before merging, yields well-shaped chunks in order inside the text's range. Their tokens, concatenated, are the encodings of the text's leaves in order, and there are chunks exactly when there are leaves. |
| TextSplitting.TextSplitter.SplitPart | Vectra/TextSplitter.cs:107-161 | One iteration, for part `i` met at `pos`. A part without a letter or digit yields nothing and `pos` stays. Otherwise `pos` moves past the part and its separator. A part that fits becomes the one chunk of its text, its tokens and the span `[pos, endPos]`. A part that does not is split again. Either way the chunks are well shaped inside the span, carry the encodings of the part's leaves, and exist exactly when the part has leaves. |
| TextSplitting.TextSplitter.CombineChunks | Vectra/TextSplitter.cs:167-203 | The merge loop computes exactly the left fold `Combined`, whose properties are the `Chunks` lemmas. |
| TextSplitting.LeavesFit | Vectra/TextSplitter.cs:119-156 | Every leaf (a piece the recursion emits whole) holds a letter or digit and fits the size: at most `6 * size + 5` characters and at most `size` tokens. |
| TextSplitting.LeavesExactlyForLetteredParts | Vectra/TextSplitter.cs:107-123 | A non-empty text has leaves exactly when one of its parts, with the separator appended when it is kept, holds a letter or digit. |
| TextSplitting.LetteredTextHasLeaves | Vectra/TextSplitter.cs:93-123 | A text with a letter or digit has leaves whenever the separator it is cut on has none. |
| TextSplitting.NonPositiveSizeRecursesForever | Vectra/TextSplitter.cs:99-139 | With a size below one, "a" with no separators is cut into "" and "a"; "" is dropped with the position kept, and "a" does not fit and is split again from the same position with no separators, so the call repeats itself. |

## Left out

- File system and JSON: the folder, the document file and the side files are an
  abstract `Disk` value. Serialisation is the identity. Read and write outcomes are
  boolean parameters. Accordingly, `IsIndexCreated` is only "the document file is
  present".
- `indexName`: the document file name is not modelled. A `LocalIndex` has one
  document file.
- `Path.Combine` and `Path.Join` are modelled only as far as the side-file path
  needs: with `/` as separator, and without normalisation.
- The `Exception` messages: each distinct condition is one `IndexError` constructor.
- `Guid.NewGuid()` is the caller's `freshId`. It is not proved to be unused.
- `Normalize`, `DotProduct`, `CosineSimilarity` and `NormalizedCosineSimilarity`
  are float accumulations. Norms and scores are opaque `real` values from a
  function parameter. Their float precision is not modelled, and neither is
  `DotProduct`'s need for the second vector to be at least as long as the first.
  A zero vector's similarity is NaN, which `CompareTo` sorts below every number;
  NaN is not modelled.
- The GPT-3 tokenizer is an arbitrary `encode` function. Termination of
  `RecursiveSplit` needs what the real tokenizer does: one ASCII letter or digit is
  at most one token. `TextSplitter.Split` requires this through `Splittable()`,
  together with `ChunkSize >= 1`. The source checks the size only in the
  constructor, and the configuration's properties stay settable. With a size below
  one the source's recursion does not terminate (see Findings); the model does not
  describe that run.
- Strings are sequences of Unicode scalar values, while .NET strings count UTF-16
  code units. `Length`, the halving point and every `startPos` and `endPos` agree
  with the source only for text without characters outside the Basic Multilingual
  Plane. For "😀a" the source counts 3 and the model 2.
- Metadata values are `MetadataTypes` tags, following the item's
  `IDictionary<string, MetadataTypes>` bound (Vectra/Models/IndexItem.cs:8).
  `Metadata` itself is a `Dictionary<string, object>` and can hold any object, such
  as a string; such values are not modelled. `ItemSelector`'s `Custom` entry is the
  only place a non-tag value appears.
- ItemSelector.CheckKey: a boxed value of any other type, other integral types
  included, is an `Other` entry that throws the invalid cast. The runtime's
  unboxing rules beyond a boxed tag, a boxed `int` and an `int`-backed enum are not
  modelled.
- Async and concurrency: every call is sequential. The lazy, racing initialisation
  of the GPT-3 tokenizer is not modelled.
- Aliasing: items, chunks and documents are values. Consequences:
  - `GetItem` and the upsert result return live references in the source, which is
    not modelled.
  - The insert result is the item object just added to the working copy
    (Vectra/LocalIndex.cs:444-445), so changing it changes the index; the model
    returns the item as a value.
  - `ListItems` copies the list with `ToList()` (Vectra/LocalIndex.cs:237), but the
    items in it are the index's own objects, which the model does not share.
  - Chunks that `CombineChunks` mutates, and that `Split` gives overlaps, are
    rebuilt as values.
- `List.Sort` is not stable: which of several tied items a query keeps is not
  fixed, and `IsRankOrder` allows any choice.
- The query's `filter` is evaluated but unused, exactly as in the source; so is
  `ListItemsByMetadata`'s filter.
- `CombineChunks`' `currentLength` is written but never read; it is not modelled.
- `TextSplitting.TextSplitter.RecursiveSplit`: does not state each chunk's exact
  text, `startPos` or `endPos`. The tokens of the chunks together are those of the
  leaves, but which leaves are merged into which chunk is stated only by the
  `Chunks` lemmas about `Combined`. Spans are only non-empty, ordered and inside the
  text's range. The source does not advance `startPos` past a dropped part, so a
  chunk's `startPos` can lie before its own text. `TextParts.PartPlacement` states
  the exact `endPos` bound of one part.
- `ToLower` is modelled for ASCII letters only; Unicode case mapping is not
  modelled.
- `IndexItem.Clone` is called but is not defined in Vectra/Models/IndexItem.cs; it
  is modelled as a copy of every field.
- Upsert keeps the old norm: only `Metadata`, `Vector` and `MetadataFile` are copied
  onto the existing item (Vectra/LocalIndex.cs:432-434).
- The embeddings client, the sample program, the tokenizer library, the interface
  and record files, and the test file are not part of this model.

## Findings

| source | as written | input that shows it | evidently intended | confidence | as-written member | corrected member |
|---|---|---|---|---|---|---|
| Vectra/LocalIndex.cs:404, 310 | The side-file path is stored already combined with the folder (`Path.Combine(_folderPath, id + ".json")`), and the query reads it at `Path.Join(_folderPath, MetadataFile)`, joining the folder a second time. | folder "idx", an index whose `Indexed` is non-empty, an item "a" with metadata: written at "idx/a.json", read at "idx/idx/a.json", so the query fails | the query reads the side file at the path it was written to | not executed | QueryEngine.ExternalisedWinnerFailsQuery | QueryEngine.ResolveReadsBackSideFile |
| Vectra/TextSplitter.cs:23-26 | `ChunkSize` is checked only in the constructor, and `TextSplitterConfig.ChunkSize` stays settable (Vectra/Models/TextSplitterConfig.cs:22). With a size below one, `RecursiveSplit("a", [], p)` calls itself with the same arguments, because the part before "a" is empty and dropped without moving `p`. | a splitter built with the defaults, then `ChunkSize` set to 0 and `Separators` to an empty list; `Split("a")` cuts "a" into "" and "a", drops "", and re-splits "a" from position 0 with no separators, forever | a size below one is refused whenever splitting starts, so the recursion always ends | not executed | TextSplitting.NonPositiveSizeRecursesForever | TextSplitting.TextSplitter.RecursiveSplit |

`QueryItems` follows the code and uses the as-written read (`ResolveAll`). The
corrected read is `ResolveMetadata`, and `ResolveReadsBackSideFile` proves it returns
what was written. `RecursiveSplit` requires `Splittable()`, which holds a size of at
least one, and its `decreases` clause proves that it terminates.
