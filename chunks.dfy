/** Text chunks as Vectra/TextSplitter.cs produces them, the greedy merge of
    `CombineChunks` as a left fold, and the overlap ranges of `GetOverlapTokens`. */
module Chunks {
  import opened Wrappers
  import opened TextParts

  /** `TextChunk`: its text, tokens, the span of the original text it came from, and
      the tokens it shares with its neighbours. */
  datatype TextChunk = TextChunk(text: string, tokens: seq<int>, startPos: int, endPos: int,
                                 startOverlap: seq<int>, endOverlap: seq<int>)

  /** The separator merged texts are joined with. */
  function MergeSeparator(keepSeparators: bool): string {
    if keepSeparators then "" else " "
  }

  /** `next` appended to `current`: text joined with `sep`, tokens concatenated, the
      rest of `current` kept. */
  function Absorb(current: TextChunk, next: TextChunk, sep: string): TextChunk {
    current.(text := current.text + sep + next.text, tokens := current.tokens + next.tokens)
  }

  /** One iteration of the merge loop; the last chunk of `acc` is the current chunk. */
  function CombineStep(acc: seq<TextChunk>, next: TextChunk, chunkSize: int, sep: string): seq<TextChunk> {
    if acc == [] then [next]
    else
      var current := acc[|acc| - 1];
      if |current.tokens| + |next.tokens| > chunkSize then acc + [next]
      else acc[..|acc| - 1] + [Absorb(current, next, sep)]
  }

  /** What `CombineChunks` returns for `chunks`. */
  function Combined(chunks: seq<TextChunk>, chunkSize: int, sep: string): seq<TextChunk>
    decreases |chunks|
  {
    if chunks == [] then []
    else CombineStep(Combined(chunks[..|chunks| - 1], chunkSize, sep), chunks[|chunks| - 1], chunkSize, sep)
  }

  /** All tokens of a chunk list, in order. */
  function AllTokens(chunks: seq<TextChunk>): seq<int>
    decreases |chunks|
  {
    if chunks == [] then [] else AllTokens(chunks[..|chunks| - 1]) + chunks[|chunks| - 1].tokens
  }

  lemma {:induction false} AllTokensAppend(chunks: seq<TextChunk>, c: TextChunk)
    ensures AllTokens(chunks + [c]) == AllTokens(chunks) + c.tokens
  {
    assert (chunks + [c])[..|chunks|] == chunks;
  }

  lemma {:induction false} AllTokensConcat(a: seq<TextChunk>, b: seq<TextChunk>)
    ensures AllTokens(a + b) == AllTokens(a) + AllTokens(b)
    decreases |b|
  {
    if b == [] {
      assert a + b == a;
    } else {
      var init := b[..|b| - 1];
      assert (a + b)[..|a + b| - 1] == a + init;
      assert (a + b)[|a + b| - 1] == b[|b| - 1];
      AllTokensConcat(a, init);
    }
  }

  /** One merge step adds at most one chunk and never leaves none. */
  lemma CombineStepSize(acc: seq<TextChunk>, c: TextChunk, chunkSize: int, sep: string)
    ensures 1 <= |CombineStep(acc, c, chunkSize, sep)| <= |acc| + 1
  {
  }

  /** Absorbing adds the absorbed chunk's tokens after those of the current one. */
  lemma AbsorbKeepsTokens(front: seq<TextChunk>, current: TextChunk, c: TextChunk, sep: string)
    ensures AllTokens(front + [Absorb(current, c, sep)]) == AllTokens(front + [current]) + c.tokens
  {
    AllTokensAppend(front, Absorb(current, c, sep));
    AllTokensAppend(front, current);
  }

  /** One merge step adds exactly the new chunk's tokens. */
  lemma CombineStepKeepsTokens(acc: seq<TextChunk>, c: TextChunk, chunkSize: int, sep: string)
    ensures AllTokens(CombineStep(acc, c, chunkSize, sep)) == AllTokens(acc) + c.tokens
  {
    if acc == [] {
      AllTokensAppend([], c);
      assert [] + [c] == [c];
    } else if |acc[|acc| - 1].tokens| + |c.tokens| > chunkSize {
      AllTokensAppend(acc, c);
    } else {
      var front := acc[..|acc| - 1];
      assert acc == front + [acc[|acc| - 1]];
      AbsorbKeepsTokens(front, acc[|acc| - 1], c, sep);
    }
  }

  /** Merging keeps every token, in order. */
  lemma {:induction false} CombineKeepsTokens(chunks: seq<TextChunk>, chunkSize: int, sep: string)
    ensures AllTokens(Combined(chunks, chunkSize, sep)) == AllTokens(chunks)
    decreases |chunks|
  {
    if chunks != [] {
      var init := chunks[..|chunks| - 1];
      CombineKeepsTokens(init, chunkSize, sep);
      CombineStepKeepsTokens(Combined(init, chunkSize, sep), chunks[|chunks| - 1], chunkSize, sep);
    }
  }

  /** Merging never makes more chunks than it is given, and only empty input gives
      empty output. */
  lemma {:induction false} CombineNeverGrows(chunks: seq<TextChunk>, chunkSize: int, sep: string)
    ensures |Combined(chunks, chunkSize, sep)| <= |chunks|
    ensures Combined(chunks, chunkSize, sep) == [] <==> chunks == []
    decreases |chunks|
  {
    if chunks != [] {
      var init := chunks[..|chunks| - 1];
      CombineNeverGrows(init, chunkSize, sep);
      CombineStepSize(Combined(init, chunkSize, sep), chunks[|chunks| - 1], chunkSize, sep);
    }
  }

  /** No chunk is over the size. */
  predicate AllWithin(chunks: seq<TextChunk>, chunkSize: int) {
    forall j :: 0 <= j < |chunks| ==> |chunks[j].tokens| <= chunkSize
  }

  lemma CombineStepRespectsChunkSize(acc: seq<TextChunk>, c: TextChunk, chunkSize: int, sep: string)
    requires AllWithin(acc, chunkSize) && |c.tokens| <= chunkSize
    ensures AllWithin(CombineStep(acc, c, chunkSize, sep), chunkSize)
  {
    if acc != [] && |acc[|acc| - 1].tokens| + |c.tokens| <= chunkSize {
      var out := CombineStep(acc, c, chunkSize, sep);
      assert forall j :: 0 <= j < |out| - 1 ==> out[j] == acc[j];
    }
  }

  /** If no input chunk is over the size, no output chunk is: a merge happens only
      when the sum fits. */
  lemma {:induction false} CombineRespectsChunkSize(chunks: seq<TextChunk>, chunkSize: int, sep: string)
    requires AllWithin(chunks, chunkSize)
    ensures AllWithin(Combined(chunks, chunkSize, sep), chunkSize)
    decreases |chunks|
  {
    if chunks != [] {
      var init := chunks[..|chunks| - 1];
      assert AllWithin(init, chunkSize) by {
        assert forall j :: 0 <= j < |init| ==> init[j] == chunks[j];
      }
      CombineRespectsChunkSize(init, chunkSize, sep);
      CombineStepRespectsChunkSize(Combined(init, chunkSize, sep), chunks[|chunks| - 1], chunkSize, sep);
    }
  }

  /** `c` is the first input of the merged chunk `o`: `o` has its span and overlaps,
      and its text and tokens begin with those of `c`. */
  predicate StartsGroup(c: TextChunk, o: TextChunk) {
    && o.startPos == c.startPos && o.endPos == c.endPos
    && o.startOverlap == c.startOverlap && o.endOverlap == c.endOverlap
    && c.tokens <= o.tokens && c.text <= o.text
  }

  /** Some input chunk begins `o`. */
  predicate HasFirst(chunks: seq<TextChunk>, o: TextChunk) {
    exists i :: 0 <= i < |chunks| && StartsGroup(chunks[i], o)
  }

  /** Some input chunk begins `o` and would not have fit after `previous`. */
  predicate FirstDidNotFit(chunks: seq<TextChunk>, previous: TextChunk, o: TextChunk, chunkSize: int) {
    exists i :: 0 <= i < |chunks| && StartsGroup(chunks[i], o) && |previous.tokens| + |chunks[i].tokens| > chunkSize
  }

  /** Each chunk of `out` begins with a chunk of `chunks`, and the chunk before it
      could not take that input without going over the size. */
  predicate Greedy(chunks: seq<TextChunk>, out: seq<TextChunk>, chunkSize: int) {
    && (forall j :: 0 <= j < |out| ==> HasFirst(chunks, out[j]))
    && (forall j :: 1 <= j < |out| ==> FirstDidNotFit(chunks, out[j - 1], out[j], chunkSize))
  }

  lemma FirstsSurviveAppend(chunks: seq<TextChunk>, c: TextChunk, previous: TextChunk, o: TextChunk, longer: TextChunk, chunkSize: int)
    requires StartsGroup(o, longer) || o == longer
    ensures HasFirst(chunks, o) ==> HasFirst(chunks + [c], longer)
    ensures FirstDidNotFit(chunks, previous, o, chunkSize) ==> FirstDidNotFit(chunks + [c], previous, longer, chunkSize)
  {
    if HasFirst(chunks, o) {
      var i :| 0 <= i < |chunks| && StartsGroup(chunks[i], o);
      assert (chunks + [c])[i] == chunks[i];
    }
    if FirstDidNotFit(chunks, previous, o, chunkSize) {
      var i :| 0 <= i < |chunks| && StartsGroup(chunks[i], o) && |previous.tokens| + |chunks[i].tokens| > chunkSize;
      assert (chunks + [c])[i] == chunks[i];
    }
  }

  /** A merge step keeps the merge greedy. */
  lemma GreedyStep(chunks: seq<TextChunk>, acc: seq<TextChunk>, c: TextChunk, chunkSize: int, sep: string)
    requires Greedy(chunks, acc, chunkSize)
    ensures Greedy(chunks + [c], CombineStep(acc, c, chunkSize, sep), chunkSize)
  {
    var all := chunks + [c];
    var out := CombineStep(acc, c, chunkSize, sep);
    assert all[|chunks|] == c;
    if acc == [] {
      assert StartsGroup(all[|chunks|], out[0]);
    } else if |acc[|acc| - 1].tokens| + |c.tokens| > chunkSize {
      forall j | 0 <= j < |acc| ensures HasFirst(all, out[j]) {
        FirstsSurviveAppend(chunks, c, out[j], acc[j], out[j], chunkSize);
      }
      assert StartsGroup(all[|chunks|], out[|acc|]);
      forall j | 1 <= j < |acc| ensures FirstDidNotFit(all, out[j - 1], out[j], chunkSize) {
        FirstsSurviveAppend(chunks, c, acc[j - 1], acc[j], out[j], chunkSize);
      }
      assert FirstDidNotFit(all, out[|acc| - 1], out[|acc|], chunkSize);
    } else {
      var last := |acc| - 1;
      assert StartsGroup(acc[last], out[last]);
      forall j | 0 <= j < |out| ensures HasFirst(all, out[j]) {
        FirstsSurviveAppend(chunks, c, out[j], acc[j], out[j], chunkSize);
      }
      forall j | 1 <= j < |out| ensures FirstDidNotFit(all, out[j - 1], out[j], chunkSize) {
        FirstsSurviveAppend(chunks, c, acc[j - 1], acc[j], out[j], chunkSize);
      }
    }
  }

  /** The merge is greedy: each output chunk begins with one input chunk, and the
      output before it could not take that input without going over the size. */
  lemma {:induction false} CombineIsGreedy(chunks: seq<TextChunk>, chunkSize: int, sep: string)
    ensures Greedy(chunks, Combined(chunks, chunkSize, sep), chunkSize)
    decreases |chunks|
  {
    if chunks != [] {
      var n := |chunks| - 1;
      CombineIsGreedy(chunks[..n], chunkSize, sep);
      GreedyStep(chunks[..n], Combined(chunks[..n], chunkSize, sep), chunks[n], chunkSize, sep);
      assert chunks[..n] + [chunks[n]] == chunks;
    }
  }

  /** Two adjacent output chunks would not fit together. */
  lemma AdjacentOutputsDoNotFit(chunks: seq<TextChunk>, chunkSize: int, sep: string, j: nat)
    requires 1 <= j < |Combined(chunks, chunkSize, sep)|
    ensures var out := Combined(chunks, chunkSize, sep);
      |out[j - 1].tokens| + |out[j].tokens| > chunkSize
  {
    CombineIsGreedy(chunks, chunkSize, sep);
    var out := Combined(chunks, chunkSize, sep);
    assert FirstDidNotFit(chunks, out[j - 1], out[j], chunkSize);
  }

  /** Two chunks either merge into one, text joined with the separator and the first
      one's span and overlaps kept, or stay apart. */
  lemma CombineTwo(a: TextChunk, b: TextChunk, chunkSize: int, sep: string)
    ensures |a.tokens| + |b.tokens| <= chunkSize ==>
      Combined([a, b], chunkSize, sep) ==
        [TextChunk(a.text + sep + b.text, a.tokens + b.tokens, a.startPos, a.endPos, a.startOverlap, a.endOverlap)]
    ensures |a.tokens| + |b.tokens| > chunkSize ==> Combined([a, b], chunkSize, sep) == [a, b]
  {
    assert [a, b][..1] == [a];
    assert [a][..0] == [];
    assert Combined([a], chunkSize, sep) == [a];
    assert [a] + [b] == [a, b];
  }

  // ---------------------------------------------------------------- splitter output shape

  /** A chunk `RecursiveSplit` may emit: within the size, with a letter or digit, a
      non-empty span, no overlaps yet. */
  predicate PlainChunk(c: TextChunk, chunkSize: int) {
    && |c.tokens| <= chunkSize
    && ContainsAlphanumeric(c.text)
    && c.startPos <= c.endPos
    && c.startOverlap == [] && c.endOverlap == []
  }

  /** Each chunk's span ends before the next one's starts. */
  predicate Ordered(chunks: seq<TextChunk>) {
    forall j :: 0 <= j < |chunks| - 1 ==> chunks[j].endPos < chunks[j + 1].startPos
  }

  /** Every span lies within `[lo, hi]`. */
  predicate Within(chunks: seq<TextChunk>, lo: int, hi: int) {
    forall j :: 0 <= j < |chunks| ==> lo <= chunks[j].startPos && chunks[j].endPos <= hi
  }

  /** What `RecursiveSplit` guarantees of its result for text occupying `[lo, hi]`. */
  predicate SplitShape(chunks: seq<TextChunk>, chunkSize: int, lo: int, hi: int) {
    AllPlain(chunks, chunkSize) && Ordered(chunks) && Within(chunks, lo, hi)
  }

  predicate AllPlain(chunks: seq<TextChunk>, chunkSize: int) {
    forall j :: 0 <= j < |chunks| ==> PlainChunk(chunks[j], chunkSize)
  }

  lemma AllPlainConcat(a: seq<TextChunk>, b: seq<TextChunk>, chunkSize: int)
    requires AllPlain(a, chunkSize) && AllPlain(b, chunkSize)
    ensures AllPlain(a + b, chunkSize)
  {
    forall j | 0 <= j < |a + b| ensures PlainChunk((a + b)[j], chunkSize) {
      if j < |a| { assert (a + b)[j] == a[j]; } else { assert (a + b)[j] == b[j - |a|]; }
    }
  }

  lemma OrderedConcat(a: seq<TextChunk>, b: seq<TextChunk>)
    requires Ordered(a) && Ordered(b)
    requires a != [] && b != [] ==> a[|a| - 1].endPos < b[0].startPos
    ensures Ordered(a + b)
  {
    var r := a + b;
    forall j | 0 <= j < |r| - 1 ensures r[j].endPos < r[j + 1].startPos {
      if j + 1 < |a| {
        assert r[j] == a[j] && r[j + 1] == a[j + 1];
      } else if j + 1 == |a| {
        assert r[j] == a[j] && r[j + 1] == b[0];
      } else {
        assert r[j] == b[j - |a|] && r[j + 1] == b[j + 1 - |a|];
      }
    }
  }

  lemma WithinConcat(a: seq<TextChunk>, b: seq<TextChunk>, lo: int, mid: int, hi: int)
    requires Within(a, lo, mid - 1) && Within(b, mid, hi) && lo <= mid <= hi + 1
    requires forall j :: 0 <= j < |b| ==> b[j].startPos <= b[j].endPos
    ensures Within(a + b, lo, hi)
  {
    forall j | 0 <= j < |a + b| ensures lo <= (a + b)[j].startPos && (a + b)[j].endPos <= hi {
      if j < |a| { assert (a + b)[j] == a[j]; } else { assert (a + b)[j] == b[j - |a|]; }
    }
  }

  /** A result for `[lo, hi]` is also one for any wider range. */
  lemma ShapeWiden(chunks: seq<TextChunk>, chunkSize: int, lo: int, hi: int, lo2: int, hi2: int)
    requires SplitShape(chunks, chunkSize, lo, hi) && lo2 <= lo && hi <= hi2
    ensures SplitShape(chunks, chunkSize, lo2, hi2)
  {
  }

  /** Results for consecutive stretches of text concatenate. */
  lemma ShapeConcat(a: seq<TextChunk>, b: seq<TextChunk>, chunkSize: int, lo: int, mid: int, hi: int)
    requires SplitShape(a, chunkSize, lo, mid - 1) && SplitShape(b, chunkSize, mid, hi) && lo <= mid <= hi + 1
    ensures SplitShape(a + b, chunkSize, lo, hi)
  {
    AllPlainConcat(a, b, chunkSize);
    if a != [] && b != [] {
      assert a[|a| - 1].endPos <= mid - 1 && mid <= b[0].startPos;
    }
    OrderedConcat(a, b);
    assert forall j :: 0 <= j < |b| ==> PlainChunk(b[j], chunkSize);
    WithinConcat(a, b, lo, mid, hi);
  }

  /** A prefix of a result keeps its guarantees. */
  lemma ShapeOfPrefix(chunks: seq<TextChunk>, chunkSize: int, lo: int, hi: int, k: nat)
    requires SplitShape(chunks, chunkSize, lo, hi) && k <= |chunks|
    ensures SplitShape(chunks[..k], chunkSize, lo, hi)
  {
    assert forall j :: 0 <= j < k ==> chunks[..k][j] == chunks[j];
  }

  /** A plain chunk after the last span of a result extends it. */
  lemma ShapeAppend(front: seq<TextChunk>, x: TextChunk, chunkSize: int, lo: int, hi: int)
    requires SplitShape(front, chunkSize, lo, hi) && PlainChunk(x, chunkSize) && lo <= x.startPos && x.endPos <= hi
    requires front != [] ==> front[|front| - 1].endPos < x.startPos
    ensures SplitShape(front + [x], chunkSize, lo, hi)
  {
    AllPlainConcat(front, [x], chunkSize);
    OrderedConcat(front, [x]);
    assert forall j :: 0 <= j < |front| ==> (front + [x])[j] == front[j];
  }

  /** `next`, appended to a plain chunk with the separator, still holds a letter or
      digit and fits when the sizes add up. */
  lemma AbsorbIsPlain(current: TextChunk, next: TextChunk, chunkSize: int, sep: string)
    requires PlainChunk(current, chunkSize) && |current.tokens| + |next.tokens| <= chunkSize
    ensures PlainChunk(Absorb(current, next, sep), chunkSize)
  {
    AlphanumericSurvivesConcat(current.text, sep + next.text);
    assert current.text + sep + next.text == current.text + (sep + next.text);
  }

  /** One merge step keeps the splitter's guarantees when the new chunk follows the
      current one. */
  lemma CombineStepKeepsShape(acc: seq<TextChunk>, c: TextChunk, chunkSize: int, sep: string, lo: int, hi: int)
    requires SplitShape(acc, chunkSize, lo, hi) && PlainChunk(c, chunkSize) && lo <= c.startPos && c.endPos <= hi
    requires acc != [] ==> acc[|acc| - 1].endPos < c.startPos
    ensures var out := CombineStep(acc, c, chunkSize, sep);
      SplitShape(out, chunkSize, lo, hi) && out[|out| - 1].endPos <= c.endPos
  {
    if acc == [] {
      ShapeAppend([], c, chunkSize, lo, hi);
    } else if |acc[|acc| - 1].tokens| + |c.tokens| > chunkSize {
      ShapeAppend(acc, c, chunkSize, lo, hi);
    } else {
      var last := |acc| - 1;
      var current := acc[last];
      ShapeOfPrefix(acc, chunkSize, lo, hi, last);
      AbsorbIsPlain(current, c, chunkSize, sep);
      if last > 0 {
        assert acc[..last][last - 1] == acc[last - 1];
      }
      ShapeAppend(acc[..last], Absorb(current, c, sep), chunkSize, lo, hi);
    }
  }

  /** Merging keeps the splitter's guarantees: sizes, letters, spans in order and in
      range, and the last span ends no later than the last input's. */
  lemma {:induction false} CombineKeepsShape(chunks: seq<TextChunk>, chunkSize: int, sep: string, lo: int, hi: int)
    requires SplitShape(chunks, chunkSize, lo, hi)
    ensures SplitShape(Combined(chunks, chunkSize, sep), chunkSize, lo, hi)
    ensures Combined(chunks, chunkSize, sep) != [] ==>
      Combined(chunks, chunkSize, sep)[|Combined(chunks, chunkSize, sep)| - 1].endPos <= chunks[|chunks| - 1].endPos
    decreases |chunks|
  {
    if chunks != [] {
      var n := |chunks| - 1;
      var init := chunks[..n];
      assert forall j :: 0 <= j < n ==> init[j] == chunks[j];
      assert SplitShape(init, chunkSize, lo, hi);
      CombineKeepsShape(init, chunkSize, sep, lo, hi);
      var acc := Combined(init, chunkSize, sep);
      if acc != [] {
        assert init[n - 1] == chunks[n - 1];
      }
      CombineStepKeepsShape(acc, chunks[n], chunkSize, sep, lo, hi);
    }
  }

  // ---------------------------------------------------------------- overlaps

  /** `GetOverlapTokens`: the first (`fromStart`) or last `min(overlap, |tokens|)`
      tokens, or none for a missing neighbour. */
  function OverlapTokens(tokens: Option<seq<int>>, fromStart: bool, overlap: int): (r: seq<int>)
    requires overlap >= 0
    ensures tokens.None? ==> r == []
    ensures tokens.Some? ==> |r| == (if |tokens.value| > overlap then overlap else |tokens.value|)
    ensures tokens.Some? && fromStart ==> r <= tokens.value
    ensures tokens.Some? && !fromStart ==> r == tokens.value[|tokens.value| - |r|..]
  {
    if tokens.Some? then
      var len := if |tokens.value| > overlap then overlap else |tokens.value|;
      if fromStart then tokens.value[..len] else tokens.value[|tokens.value| - len..]
    else []
  }

  /** Chunk `i` of `base` with its overlaps filled in from its neighbours. */
  function Overlapped(base: seq<TextChunk>, i: nat, overlap: int): TextChunk
    requires 1 <= i < |base| && overlap >= 0
  {
    base[i].(startOverlap := OverlapTokens(Some(base[i - 1].tokens), false, overlap),
             endOverlap := OverlapTokens(if i < |base| - 1 then Some(base[i + 1].tokens) else None, true, overlap))
  }

  /** The chunks `Split` returns for the chunks `RecursiveSplit` produced: with a
      positive overlap every chunk but the first gets a tail of its predecessor and a
      head of its successor. */
  function WithOverlaps(base: seq<TextChunk>, overlap: int): (r: seq<TextChunk>)
    ensures |r| == |base|
  {
    if overlap > 0 then
      seq(|base|, i requires 0 <= i < |base| => if i == 0 then base[0] else Overlapped(base, i, overlap))
    else base
  }

  /** Filling in overlaps changes nothing but the overlaps: chunk 0 keeps its own,
      chunk i > 0 starts with the last tokens of chunk i - 1 and ends with the first
      tokens of chunk i + 1, none for the last chunk; with no overlap nothing
      changes. */
  lemma OverlapsComeFromNeighbours(base: seq<TextChunk>, overlap: int)
    requires overlap >= 0
    ensures var r := WithOverlaps(base, overlap);
      && (overlap == 0 ==> r == base)
      && (forall i :: 0 <= i < |r| ==>
            r[i].text == base[i].text && r[i].tokens == base[i].tokens
            && r[i].startPos == base[i].startPos && r[i].endPos == base[i].endPos)
      && (|r| > 0 ==> r[0] == base[0])
      && (overlap > 0 ==> forall i :: 1 <= i < |r| ==>
            && |r[i].startOverlap| == (if |base[i - 1].tokens| > overlap then overlap else |base[i - 1].tokens|)
            && r[i].startOverlap == base[i - 1].tokens[|base[i - 1].tokens| - |r[i].startOverlap|..]
            && (i < |r| - 1 ==>
                  (r[i].endOverlap <= base[i + 1].tokens
                   && |r[i].endOverlap| == (if |base[i + 1].tokens| > overlap then overlap else |base[i + 1].tokens|)))
            && (i == |r| - 1 ==> r[i].endOverlap == []))
  {
  }
}
