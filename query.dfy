/** The selection and ordering part of `QueryItemsAsync` in Vectra/LocalIndex.cs:
    score every committed item, sort by score descending, keep the first topK,
    clone the winners, and read the side files of winners whose metadata was
    externalised. The similarity function is a parameter. */
module QueryEngine {
  import opened Wrappers
  import opened MetadataModel
  import opened IndexModel
  import ItemSelector
  import opened StoreSpec

  /** An (index, score) pair of the distance list. */
  datatype Distance = Distance(index: nat, score: real)

  /** One query answer. */
  datatype QueryResult = QueryResult(item: IndexItem, score: real)

  /** The similarity of the query (vector and norm) to one item (vector and norm). */
  type Similarity = (Vector, real, Vector, real) -> real

  /** The score of every item, in item order. */
  function Scores(items: seq<IndexItem>, vector: Vector, norm: real, similarity: Similarity): (s: seq<real>)
    ensures |s| == |items|
    ensures forall i :: 0 <= i < |items| ==> s[i] == similarity(vector, norm, items[i].vector, items[i].norm)
  {
    seq(|items|, i requires 0 <= i < |items| => similarity(vector, norm, items[i].vector, items[i].norm))
  }

  /** A distance list as the scoring loop builds it: entry `i` is about item `i`. */
  predicate Indexed(ds: seq<Distance>) {
    forall i :: 0 <= i < |ds| ==> ds[i].index == i
  }

  /** The scores a distance list carries, by item. */
  function ScoresOf(ds: seq<Distance>): (s: seq<real>)
    ensures |s| == |ds| && forall i :: 0 <= i < |ds| ==> s[i] == ds[i].score
  {
    seq(|ds|, i requires 0 <= i < |ds| => ds[i].score)
  }

  predicate SortedDescending(ds: seq<Distance>) {
    forall i, j :: 0 <= i < j < |ds| ==> ds[i].score >= ds[j].score
  }

  /** `top` is a valid answer for the `k` best of `scores`: as many entries as `k` and
      the item count allow, each naming a distinct item with its own score, in
      descending order, and no item left out scores higher than one kept. Which of
      several tied items is kept is not fixed, as the sort is not stable. */
  predicate IsRankOrder(scores: seq<real>, k: nat, top: seq<Distance>) {
    && |top| == (if k < |scores| then k else |scores|)
    && (forall j :: 0 <= j < |top| ==> top[j].index < |scores| && top[j].score == scores[top[j].index])
    && (forall i, j :: 0 <= i < j < |top| ==> top[i].index != top[j].index)
    && SortedDescending(top)
    && (forall i :: 0 <= i < |scores| && Omitted(top, i) ==>
          forall j :: 0 <= j < |top| ==> scores[i] <= top[j].score)
  }

  predicate Omitted(top: seq<Distance>, i: nat) {
    forall j :: 0 <= j < |top| ==> top[j].index != i
  }

  /** The scoring loop: one (index, score) pair per item, in item order. */
  method ScoreItems(items: seq<IndexItem>, vector: Vector, norm: real, similarity: Similarity)
    returns (ds: seq<Distance>)
    ensures Indexed(ds) && ScoresOf(ds) == Scores(items, vector, norm, similarity)
  {
    ds := [];
    var i := 0;
    while i < |items|
      invariant 0 <= i <= |items| && |ds| == i && Indexed(ds)
      invariant forall j :: 0 <= j < i ==> ds[j].score == similarity(vector, norm, items[j].vector, items[j].norm)
    {
      ds := ds + [Distance(i, similarity(vector, norm, items[i].vector, items[i].norm))];
      i := i + 1;
    }
  }

  /** Insert `d` into a descending list after every entry that scores at least as
      much. */
  method InsertDescending(r: seq<Distance>, d: Distance) returns (s: seq<Distance>)
    requires SortedDescending(r)
    ensures SortedDescending(s) && multiset(s) == multiset(r) + multiset{d}
  {
    var j := 0;
    while j < |r| && r[j].score >= d.score
      invariant 0 <= j <= |r|
      invariant forall t :: 0 <= t < j ==> r[t].score >= d.score
    {
      j := j + 1;
    }
    s := r[..j] + [d] + r[j..];
    InsertionKeepsOrder(r, d, j);
    assert r == r[..j] + r[j..];
  }

  /** Placing `d` between the entries that score at least as much and the rest keeps
      the list descending. */
  lemma {:induction false} InsertionKeepsOrder(r: seq<Distance>, d: Distance, j: nat)
    requires SortedDescending(r) && j <= |r|
    requires forall t :: 0 <= t < j ==> r[t].score >= d.score
    requires j < |r| ==> r[j].score < d.score
    ensures SortedDescending(r[..j] + [d] + r[j..])
  {
    var s := r[..j] + [d] + r[j..];
    forall a, b | 0 <= a < b < |s| ensures s[a].score >= s[b].score {
      if b < j {
        assert s[a] == r[a] && s[b] == r[b];
      } else if b == j {
        assert s[a] == r[a];
      } else if a < j {
        assert s[a] == r[a] && s[b] == r[b - 1];
      } else if a == j {
        assert s[b] == r[b - 1];
        assert r[j].score >= r[b - 1].score || b - 1 == j;
      } else {
        assert s[a] == r[a - 1] && s[b] == r[b - 1];
      }
    }
  }

  /** `List.Sort` with a descending comparer: descending, and the same entries. */
  method SortDescending(ds: seq<Distance>) returns (r: seq<Distance>)
    ensures SortedDescending(r) && multiset(r) == multiset(ds)
  {
    r := [];
    var i := 0;
    while i < |ds|
      invariant 0 <= i <= |ds|
      invariant SortedDescending(r) && multiset(r) == multiset(ds[..i])
    {
      r := InsertDescending(r, ds[i]);
      assert ds[..i + 1] == ds[..i] + [ds[i]];
      i := i + 1;
    }
    assert ds[..|ds|] == ds;
  }

  /** Two equal entries at different positions occur twice in the multiset. */
  lemma {:induction false} RepeatedEntryCountsTwice(s: seq<Distance>, i: int, j: int)
    requires 0 <= i < j < |s| && s[i] == s[j]
    ensures multiset(s)[s[j]] >= 2
  {
    assert s == s[..j] + [s[j]] + s[j + 1..];
    assert s[i] in s[..j];
    assert multiset(s) == multiset(s[..j]) + multiset{s[j]} + multiset(s[j + 1..]);
  }

  /** An indexed list holds each entry once. */
  lemma {:induction false} IndexedEntriesAreSingle(ds: seq<Distance>, d: Distance)
    requires Indexed(ds) && d in ds
    ensures multiset(ds)[d] == 1
  {
    var p :| 0 <= p < |ds| && ds[p] == d;
    assert ds == ds[..p] + [d] + ds[p + 1..];
    assert d !in ds[..p] by {
      forall t | 0 <= t < p ensures ds[..p][t] != d { assert ds[t].index == t; }
    }
    var after := ds[p + 1..];
    assert d !in after by {
      forall t | 0 <= t < |after| ensures after[t] != d { assert after[t] == ds[p + 1 + t]; }
    }
    assert multiset(ds) == multiset(ds[..p]) + multiset{d} + multiset(ds[p + 1..]);
  }

  /** The first `k` entries of a descending permutation of an indexed distance list
      are a valid top-`k` answer. */
  lemma {:induction false} PrefixOfSortedIsRankOrder(ds: seq<Distance>, sorted: seq<Distance>, k: nat)
    requires Indexed(ds) && SortedDescending(sorted) && multiset(sorted) == multiset(ds)
    ensures IsRankOrder(ScoresOf(ds), k, sorted[..if k < |sorted| then k else |sorted|])
  {
    var scores := ScoresOf(ds);
    assert |sorted| == |ds| by {
      assert |multiset(sorted)| == |multiset(ds)|;
    }
    var top := sorted[..if k < |sorted| then k else |sorted|];
    forall j | 0 <= j < |sorted| ensures sorted[j] in ds && sorted[j] == ds[sorted[j].index] {
      assert sorted[j] in multiset(sorted);
      var p :| 0 <= p < |ds| && ds[p] == sorted[j];
    }
    forall i, j | 0 <= i < j < |top| ensures top[i].index != top[j].index {
      if top[i].index == top[j].index {
        assert sorted[i] == ds[sorted[i].index] && sorted[j] == ds[sorted[j].index];
        RepeatedEntryCountsTwice(sorted, i, j);
        IndexedEntriesAreSingle(ds, sorted[j]);
        assert false;
      }
    }
    forall i | 0 <= i < |scores| && Omitted(top, i) ensures forall j :: 0 <= j < |top| ==> scores[i] <= top[j].score {
      assert ds[i] in multiset(sorted) by { assert ds[i] in ds; }
      var p :| 0 <= p < |sorted| && sorted[p] == ds[i];
      assert ds[i].index == i;
      assert p >= |top|;
    }
  }

  /** The ranking of `QueryItemsAsync`: sort the distance list and keep the first
      topK; a negative topK makes `GetRange` throw. */
  method TopDistances(ds: seq<Distance>, topK: int) returns (r: Result<seq<Distance>, IndexError>)
    requires Indexed(ds)
    ensures r.Failure? <==> topK < 0
    ensures r.Failure? ==> r.error == TopKOutOfRange
    ensures r.Success? ==> IsRankOrder(ScoresOf(ds), topK, r.value)
  {
    var sorted := SortDescending(ds);
    if topK < 0 {
      return Failure(TopKOutOfRange);
    }
    var count := if topK < |sorted| then topK else |sorted|;
    PrefixOfSortedIsRankOrder(ds, sorted, topK);
    r := Success(sorted[..count]);
  }

  /** The best kept entry is the best score overall. */
  lemma {:induction false} FirstWinnerIsMaximum(scores: seq<real>, k: nat, top: seq<Distance>)
    requires IsRankOrder(scores, k, top) && |top| > 0
    ensures forall i :: 0 <= i < |scores| ==> scores[i] <= top[0].score
  {
    forall i | 0 <= i < |scores| ensures scores[i] <= top[0].score {
      if !Omitted(top, i) {
        var j :| 0 <= j < |top| && top[j].index == i;
        if j > 0 {
          assert top[0].score >= top[j].score;
        }
      }
    }
  }

  /** The kept scores are the best ones: no omitted item beats the last one kept. */
  lemma {:induction false} OmittedNeverBeatsKept(scores: seq<real>, k: nat, top: seq<Distance>, i: nat)
    requires IsRankOrder(scores, k, top) && i < |scores| && Omitted(top, i) && |top| > 0
    ensures scores[i] <= top[|top| - 1].score
  {
  }

  /** With `k` zero nothing is kept; with `k` at least the item count every item is
      kept. */
  lemma {:induction false} RankOrderSize(scores: seq<real>, k: nat, top: seq<Distance>)
    requires IsRankOrder(scores, k, top)
    ensures k == 0 ==> top == []
    ensures k >= |scores| ==> forall i :: 0 <= i < |scores| ==> !Omitted(top, i)
  {
    if k >= |scores| {
      forall i | 0 <= i < |scores| ensures !Omitted(top, i) {
        IndicesFillRange(top, |scores|, i);
      }
    }
  }

  /** `n` distinct indices below `n` leave no index below `n` out. */
  lemma {:induction false} IndicesFillRange(top: seq<Distance>, n: nat, x: nat)
    requires |top| == n && x < n
    requires forall j :: 0 <= j < |top| ==> top[j].index < n
    requires forall i, j :: 0 <= i < j < |top| ==> top[i].index != top[j].index
    ensures !Omitted(top, x)
  {
    var used := set j | 0 <= j < |top| :: top[j].index;
    DistinctImageSize(top);
    var range := set y | 0 <= y < n && Below(n, y);
    RangeSize(n);
    assert used <= range;
    assert range == used + (range - used);
    assert range - used == {};
    assert x in range;
    var j :| 0 <= j < |top| && top[j].index == x;
  }

  /** The indices of a list with distinct indices are as many as its entries. */
  lemma {:induction false} DistinctImageSize(top: seq<Distance>)
    requires forall i, j :: 0 <= i < j < |top| ==> top[i].index != top[j].index
    ensures |set j | 0 <= j < |top| :: top[j].index| == |top|
    decreases |top|
  {
    if top != [] {
      var rest := top[..|top| - 1];
      DistinctImageSize(rest);
      var last := top[|top| - 1].index;
      var a := set j | 0 <= j < |rest| :: rest[j].index;
      var b := set j | 0 <= j < |top| :: top[j].index;
      assert b == a + {last} by {
        forall x | x in b ensures x in a + {last} {
          var j :| 0 <= j < |top| && top[j].index == x;
          if j < |rest| { assert rest[j] == top[j]; }
        }
        forall x | x in a ensures x in b {
          var j :| 0 <= j < |rest| && rest[j].index == x;
          assert top[j] == rest[j];
        }
      }
      assert last !in a by {
        forall j | 0 <= j < |rest| ensures rest[j].index != last { assert rest[j] == top[j]; }
      }
    }
  }

  /** `x` is below `n`. */
  predicate Below(n: int, x: int) {
    x < n
  }

  /** There are `n` numbers below `n`. */
  lemma {:induction false} RangeSize(n: nat)
    ensures |set y | 0 <= y < n && Below(n, y)| == n
    decreases n
  {
    if n > 0 {
      var m := n - 1;
      RangeSize(m);
      var s := set y | 0 <= y < n && Below(n, y);
      var t := set y | 0 <= y < m && Below(m, y);
      assert s == t + {m};
    }
  }

  // ---------------------------------------------------------------- winners

  /** The filtered candidate list `QueryItemsAsync` builds; the ranking never reads it. */
  function Candidates(items: seq<IndexItem>, filter: Option<ItemSelector.MetadataFilter>): (r: seq<IndexItem>)
    ensures forall x :: x in r ==> x in items
    decreases |items|
  {
    if filter.None? || items == [] then items
    else (if ItemSelector.Select(items[0].metadata, filter) then [items[0]] else []) + Candidates(items[1..], filter)
  }

  /** Filtering keeps every item, because Select accepts every item. */
  lemma {:induction false} CandidatesAreAllItems(items: seq<IndexItem>, filter: Option<ItemSelector.MetadataFilter>)
    ensures Candidates(items, filter) == items
    decreases |items|
  {
    if filter.Some? && items != [] {
      CandidatesAreAllItems(items[1..], filter);
      assert items == [items[0]] + items[1..];
    }
  }

  /** A clone of the winning item with its score. */
  function Winner(items: seq<IndexItem>, d: Distance): QueryResult
    requires d.index < |items|
  {
    QueryResult(CloneItem(items[d.index]), d.score)
  }

  /** The winners' clones, in ranking order. */
  function Winners(items: seq<IndexItem>, top: seq<Distance>): (w: seq<QueryResult>)
    requires forall j :: 0 <= j < |top| ==> top[j].index < |items|
    ensures |w| == |top|
    ensures forall j :: 0 <= j < |top| ==> w[j].item == items[top[j].index] && w[j].score == top[j].score
  {
    seq(|top|, j requires 0 <= j < |top| => Winner(items, top[j]))
  }

  /** Corrected: reading a winner's side file at the path the item records, the path
      its metadata was written to. */
  function ResolveMetadata(disk: Disk, item: IndexItem): Result<IndexItem, IndexError> {
    if item.metadataFile.None? then Success(item)
    else if item.metadataFile.value in disk.sideFiles then
      Success(item.(metadata := disk.sideFiles[item.metadataFile.value]))
    else Failure(MetadataFileNotFound)
  }

  /** The read as Vectra/LocalIndex.cs performs it: the recorded path, which already
      starts with the folder, is joined to the folder once more. The query uses this
      read. */
  function ResolveMetadataAsWritten(disk: Disk, folder: string, item: IndexItem): Result<IndexItem, IndexError> {
    if item.metadataFile.None? then Success(item)
    else
      var path := PathJoin(folder, item.metadataFile.value);
      if path in disk.sideFiles then Success(item.(metadata := disk.sideFiles[path]))
      else Failure(MetadataFileNotFound)
  }

  /** Resolve every winner in order, reading each side file where Vectra/LocalIndex.cs
      reads it: the folder joined onto the recorded path. The first missing side file
      fails the query. */
  function ResolveAll(disk: Disk, folder: string, ws: seq<QueryResult>): (r: Result<seq<QueryResult>, IndexError>)
    ensures r.Success? <==> forall j :: 0 <= j < |ws| ==> ResolveMetadataAsWritten(disk, folder, ws[j].item).Success?
    ensures r.Success? ==> |r.value| == |ws|
    ensures r.Success? ==>
      forall j :: 0 <= j < |ws| ==> r.value[j] == ws[j].(item := ResolveMetadataAsWritten(disk, folder, ws[j].item).value)
    ensures r.Failure? ==> r.error == MetadataFileNotFound
    decreases |ws|
  {
    if ws == [] then Success([])
    else
      var front := ResolveAll(disk, folder, ws[..|ws| - 1]);
      var last := ws[|ws| - 1];
      if front.Failure? then front
      else
        var resolved := ResolveMetadataAsWritten(disk, folder, last.item);
        if resolved.Failure? then Failure(resolved.error)
        else Success(front.value + [last.(item := resolved.value)])
  }

  /** The loop over the winners that reads their side files. */
  method ResolveWinners(disk: Disk, folder: string, ws: seq<QueryResult>) returns (r: Result<seq<QueryResult>, IndexError>)
    ensures r == ResolveAll(disk, folder, ws)
  {
    var acc: seq<QueryResult> := [];
    var i := 0;
    while i < |ws|
      invariant 0 <= i <= |ws|
      invariant ResolveAll(disk, folder, ws[..i]) == Success(acc)
    {
      assert ws[..i + 1][..i] == ws[..i];
      var resolved := ResolveMetadataAsWritten(disk, folder, ws[i].item);
      if resolved.Failure? {
        assert ResolveAll(disk, folder, ws[..i + 1]).Failure?;
        ResolveFailureSticks(disk, folder, ws, i + 1);
        return Failure(resolved.error);
      }
      acc := acc + [ws[i].(item := resolved.value)];
      i := i + 1;
    }
    assert ws[..|ws|] == ws;
    r := Success(acc);
  }

  /** Once a prefix fails to resolve, the whole list does. */
  lemma {:induction false} ResolveFailureSticks(disk: Disk, folder: string, ws: seq<QueryResult>, n: nat)
    requires n <= |ws| && ResolveAll(disk, folder, ws[..n]).Failure?
    ensures ResolveAll(disk, folder, ws).Failure?
  {
    var j :| 0 <= j < n && ResolveMetadataAsWritten(disk, folder, ws[..n][j].item).Failure?;
    assert ws[j] == ws[..n][j];
  }

  /** A winner whose metadata was externalised under a non-empty folder makes the
      whole query fail, whatever the other winners are. */
  lemma ExternalisedWinnerFailsQuery(disk: Disk, folder: string, ws: seq<QueryResult>, j: nat)
    requires folder != [] && j < |ws|
    requires ws[j].item.metadataFile == Some(SideFilePath(folder, ws[j].item.id))
    requires disk.sideFiles.Keys == {SideFilePath(folder, ws[j].item.id)}
    ensures ResolveAll(disk, folder, ws) == Failure(MetadataFileNotFound)
  {
    AsWrittenReadMissesSideFile(disk, folder, ws[j].item);
  }

  // ---------------------------------------------------------------- the double join

  /** As written: the side file of item `id` is recorded at `Path.Combine(folder,
      id.json)`, and the query reads `Path.Join(folder, <that path>)`, which is a
      different, longer path whenever the folder is not empty; so a query whose winner
      has externalised metadata fails even though its side file exists. */
  lemma AsWrittenReadMissesSideFile(disk: Disk, folder: string, item: IndexItem)
    requires folder != []
    requires item.metadataFile == Some(SideFilePath(folder, item.id))
    requires disk.sideFiles.Keys == {SideFilePath(folder, item.id)}
    ensures ResolveMetadataAsWritten(disk, folder, item) == Failure(MetadataFileNotFound)
  {
    var recorded := SideFilePath(folder, item.id);
    assert |PathJoin(folder, recorded)| > |recorded|;
  }

  /** The same, on the concrete folder "idx" and item "a": the file is written at
      "idx/a.json" and looked for at "idx/idx/a.json". */
  lemma AsWrittenExample()
    ensures SideFilePath("idx", "a") == "idx/a.json"
    ensures PathJoin("idx", SideFilePath("idx", "a")) == "idx/idx/a.json"
    ensures ResolveMetadataAsWritten(Disk(true, None, map["idx/a.json" := map["k" := Number]]), "idx",
              IndexItem("a", map["k" := Number], [1.0], 1.0, Some("idx/a.json"))) == Failure(MetadataFileNotFound)
  {
  }

  /** Corrected: a winner whose metadata AddItemToUpdate externalised reads back
      exactly the metadata it stored. */
  lemma ResolveReadsBackSideFile(s: Store, folder: string, normOf: Vector -> real, item: NewItem,
                                 unique: bool, freshId: string, sideWriteOk: bool)
    requires s.update.Some? && s.update.value.metadataConfig.Some?
    requires AddItemToUpdate(s, folder, normOf, item, unique, freshId, sideWriteOk).result.Success?
    ensures var t := AddItemToUpdate(s, folder, normOf, item, unique, freshId, sideWriteOk);
      ResolveMetadata(t.store.disk, t.result.value) == Success(t.result.value)
  {
  }

  /** The two reads agree only for an index in the current directory, where joining
      the empty folder adds nothing. */
  lemma ReadsAgreeForEmptyFolder(disk: Disk, item: IndexItem)
    ensures ResolveMetadataAsWritten(disk, "", item) == ResolveMetadata(disk, item)
  {
  }
}
