/** The splitter of Vectra/TextSplitter.cs and its configuration,
    Vectra/Models/TextSplitterConfig.cs. */
module TextSplitting {
  import opened Wrappers
  import opened TextParts
  import opened Separators
  import opened Chunks

  /** A tokenizer: text to token ids. The GPT-3 tokenizer is a value of this type
      supplied by the caller. */
  datatype Tokenizer = Tokenizer(encode: string -> seq<int>)

  /** A single ASCII letter or digit encodes to at most one token, as it does for
      a byte-pair tokenizer. */
  predicate SingleCharTokens(t: Tokenizer) {
    forall c :: IsAlphanumeric(c) ==> |t.encode([c])| <= 1
  }

  /** A one-character chunk holding a letter or digit encodes to at most one token. */
  lemma SingleCharFits(chunk: string, t: Tokenizer)
    requires |chunk| == 1 && ContainsAlphanumeric(chunk) && SingleCharTokens(t)
    ensures |t.encode(chunk)| <= 1
  {
    assert chunk == [chunk[0]];
    assert IsAlphanumeric(chunk[0]);
  }

  /** `TextSplitterConfig`: plain settable properties. */
  class TextSplitterConfig {
    var separators: seq<string>
    var keepSeparators: bool
    var chunkSize: int
    var chunkOverlap: int
    var tokenizer: Tokenizer
    var docType: Option<string>

    /** The defaults; the separators are chosen while the document type is still
        unset, so they are the default list. */
    constructor (gpt3: Tokenizer)
      ensures separators == DefaultSeparators
      ensures !keepSeparators && chunkSize == 400 && chunkOverlap == 40
      ensures tokenizer == gpt3 && docType == None
    {
      keepSeparators := false;
      chunkSize := 400;
      chunkOverlap := 40;
      docType := None;
      separators := GetSeparators(None);
      tokenizer := gpt3;
      DocTypeLookup("");
    }

    /** Assigning `DocType` after construction: the separators stay as they were. */
    method SetDocType(d: Option<string>)
      modifies this`docType
      ensures docType == d
      ensures separators == old(separators)
    {
      docType := d;
    }
  }

  /** The constructor's argument errors, in the order they are checked. */
  datatype ConfigError = ChunkSizeTooSmall | NegativeChunkOverlap | ChunkOverlapTooLarge

  /** The constructor's checks on size and overlap. */
  function CheckConfig(chunkSize: int, chunkOverlap: int): (o: Outcome<ConfigError>)
    ensures o.Pass? <==> 1 <= chunkSize && 0 <= chunkOverlap <= chunkSize
    ensures chunkSize < 1 ==> o == Fail(ChunkSizeTooSmall)
    ensures chunkSize >= 1 && chunkOverlap < 0 ==> o == Fail(NegativeChunkOverlap)
    ensures chunkSize >= 1 && chunkOverlap > chunkSize ==> o == Fail(ChunkOverlapTooLarge)
  {
    if chunkSize < 1 then Fail(ChunkSizeTooSmall)
    else if chunkOverlap < 0 then Fail(NegativeChunkOverlap)
    else if chunkOverlap > chunkSize then Fail(ChunkOverlapTooLarge)
    else Pass
  }

  /** The default size and overlap pass the constructor's checks. */
  lemma DefaultsPassChecks()
    ensures CheckConfig(400, 40) == Pass
  {
  }

  /** The separators handed to a recursive split: `GetRange(1, separator.Length)`
      runs while `separator` is still empty, so always none. */
  function NextSeparators(separators: seq<string>): (r: seq<string>)
    ensures r == []
  {
    var separator := "";
    if |separators| > 1 then separators[1..1 + |separator|] else []
  }

  /** The parts a text is cut into: on the first separator, or in half when there
      is none, each half then shorter than a text of two or more characters. */
  function Parts(text: string, separators: seq<string>): (parts: seq<string>)
    ensures |parts| >= 1
    ensures Join(parts, PartSeparator(separators)) == text
    ensures separators == [] ==> forall k :: 0 <= k < |parts| ==> |parts[k]| < |text| || |text| <= 1
  {
    if |separators| > 0 then SplitOn(text, separators[0])
    else
      var half := |text| / 2;
      assert text[..half] + "" + text[half..] == text;
      [text[..half], text[half..]]
  }

  /** With no separators the text is cut at `floor(len / 2)`. */
  lemma HalvesWithoutSeparators(text: string)
    ensures Parts(text, []) == [text[..|text| / 2], text[|text| / 2..]]
    ensures |Parts(text, [])[0]| == |text| / 2 && |Parts(text, [])[1]| == |text| - |text| / 2
  {
  }

  /** The separator the parts were cut on. */
  function PartSeparator(separators: seq<string>): string {
    if |separators| > 0 then separators[0] else ""
  }

  /** Part `i` as the loop of `RecursiveSplit` handles it: followed by the separator
      when separators are kept and another part follows. */
  function PartChunk(parts: seq<string>, separator: string, keep: bool, i: nat): (chunk: string)
    requires i < |parts|
    ensures |chunk| <= |Join(parts, separator)|
    ensures chunk == parts[i] || chunk == parts[i] + separator
  {
    PartInsideJoin(parts, separator, i);
    if keep && i < |parts| - 1 then parts[i] + separator else parts[i]
  }

  /** A part with a letter or digit is emitted whole when it is short enough to be
      encoded and its tokens fit the size; otherwise it is split again. */
  predicate Fits(chunk: string, size: int, tok: Tokenizer) {
    |chunk| / 6 <= size && |tok.encode(chunk)| <= size
  }

  /** With a positive size a part split again has at least two characters. */
  lemma UnfitIsLonger(chunk: string, size: int, tok: Tokenizer)
    requires size >= 1 && SingleCharTokens(tok) && ContainsAlphanumeric(chunk)
    ensures !Fits(chunk, size, tok) ==> |chunk| >= 2
  {
    if |chunk| == 1 {
      SingleCharFits(chunk, tok);
    }
  }

  /** The texts `RecursiveSplit` encodes into the chunks it emits, in order: each part
      with a letter or digit that fits, and for each one that does not, the leaves of
      splitting it again. Parts without a letter or digit contribute nothing. */
  function Leaves(text: string, separators: seq<string>, size: int, keep: bool, tok: Tokenizer): seq<string>
    requires size >= 1 && SingleCharTokens(tok)
    decreases |text|, |separators|, 3
  {
    if text == [] then []
    else PartsLeaves(text, separators, |Parts(text, separators)|, size, keep, tok)
  }

  /** The leaves of the first `n` parts of `text`. */
  function PartsLeaves(text: string, separators: seq<string>, n: nat, size: int, keep: bool, tok: Tokenizer): seq<string>
    requires size >= 1 && SingleCharTokens(tok) && n <= |Parts(text, separators)|
    decreases |text|, |separators|, 2, n
  {
    if n == 0 then []
    else PartsLeaves(text, separators, n - 1, size, keep, tok) + PartLeaves(text, separators, n - 1, size, keep, tok)
  }

  /** The leaves of part `i`: none without a letter or digit, the part itself when it
      fits, otherwise the leaves of splitting it again with the next separators. */
  function PartLeaves(text: string, separators: seq<string>, i: nat, size: int, keep: bool, tok: Tokenizer): seq<string>
    requires size >= 1 && SingleCharTokens(tok) && i < |Parts(text, separators)|
    decreases |text|, |separators|, 1
  {
    var chunk := PartChunk(Parts(text, separators), PartSeparator(separators), keep, i);
    if !ContainsAlphanumeric(chunk) then []
    else if Fits(chunk, size, tok) then [chunk]
    else
      UnfitIsLonger(chunk, size, tok);
      Leaves(chunk, NextSeparators(separators), size, keep, tok)
  }

  /** The tokens of the leaves, encoded one by one and concatenated. */
  function EncodeAll(tok: Tokenizer, leaves: seq<string>): seq<int>
    decreases |leaves|
  {
    if leaves == [] then [] else EncodeAll(tok, leaves[..|leaves| - 1]) + tok.encode(leaves[|leaves| - 1])
  }

  lemma {:induction false} EncodeAllConcat(tok: Tokenizer, a: seq<string>, b: seq<string>)
    ensures EncodeAll(tok, a + b) == EncodeAll(tok, a) + EncodeAll(tok, b)
    decreases |b|
  {
    if b == [] {
      assert a + b == a;
    } else {
      var init := b[..|b| - 1];
      assert (a + b)[..|a + b| - 1] == a + init;
      EncodeAllConcat(tok, a, init);
    }
  }

  /** Chunks whose tokens are those of their leaves, followed by more such chunks. */
  lemma TokensAppend(tok: Tokenizer, a: seq<TextChunk>, b: seq<TextChunk>, la: seq<string>, lb: seq<string>)
    requires AllTokens(a) == EncodeAll(tok, la) && AllTokens(b) == EncodeAll(tok, lb)
    requires (a == [] <==> la == []) && (b == [] <==> lb == [])
    ensures AllTokens(a + b) == EncodeAll(tok, la + lb)
    ensures a + b == [] <==> la + lb == []
  {
    AllTokensConcat(a, b);
    EncodeAllConcat(tok, la, lb);
  }

  /** Part `i` of `text`, met at `pos`, handled: the position moves to `nextPos`,
      at most to the offset of the next part, the chunks lie between the two, and
      they carry the tokens of the part's leaves, existing exactly when it has some. */
  predicate PartSplit(text: string, separators: seq<string>, i: nat, startPos: int, pos: int, nextPos: int,
                      r: seq<TextChunk>, size: int, keep: bool, tok: Tokenizer)
  {
    && size >= 1 && SingleCharTokens(tok)
    && var parts := Parts(text, separators);
       && i < |parts|
       && pos <= nextPos <= startPos + Offset(parts, PartSeparator(separators), i + 1)
       && nextPos <= startPos + |text|
       && SplitShape(r, size, pos, nextPos - 1)
       && var more := PartLeaves(text, separators, i, size, keep, tok);
          AllTokens(r) == EncodeAll(tok, more) && (r == [] <==> more == [])
  }

  /** Where part `i`, met at `pos`, ends: after its separator unless it is the last. */
  function PartEnd(parts: seq<string>, sep: string, i: nat, pos: int): int
    requires i < |parts|
  {
    pos + (|parts[i]| - 1) + (if i == |parts| - 1 then 0 else |sep|)
  }

  /** How part `i`, met at `pos`, is handled: without a letter or digit it is dropped
      and the position stays; otherwise the position moves past it and its
      separator, and when it fits it becomes the one chunk spanning both. */
  predicate PartOutcome(parts: seq<string>, sep: string, keep: bool, i: nat, pos: int, nextPos: int,
                        r: seq<TextChunk>, size: int, tok: Tokenizer)
    requires i < |parts|
  {
    var chunk, endPos := PartChunk(parts, sep, keep, i), PartEnd(parts, sep, i, pos);
    && (!ContainsAlphanumeric(chunk) ==> r == [] && nextPos == pos)
    && (ContainsAlphanumeric(chunk) ==> nextPos == endPos + 1)
    && (ContainsAlphanumeric(chunk) && Fits(chunk, size, tok) ==> r == [TextChunk(chunk, tok.encode(chunk), pos, endPos, [], [])])
  }

  /** A part without a letter or digit yields nothing and leaves the position. */
  lemma PartDropped(text: string, separators: seq<string>, i: nat, startPos: int, pos: int,
                    size: int, keep: bool, tok: Tokenizer)
    requires size >= 1 && SingleCharTokens(tok) && i < |Parts(text, separators)|
    requires startPos <= pos <= startPos + Offset(Parts(text, separators), PartSeparator(separators), i)
    requires !ContainsAlphanumeric(PartChunk(Parts(text, separators), PartSeparator(separators), keep, i))
    ensures PartSplit(text, separators, i, startPos, pos, pos, [], size, keep, tok)
    ensures PartOutcome(Parts(text, separators), PartSeparator(separators), keep, i, pos, pos, [], size, tok)
  {
    var parts, sep := Parts(text, separators), PartSeparator(separators);
    PartPlacement(parts, sep, i, startPos, pos, parts[i], PartEnd(parts, sep, i, pos));
  }

  /** A part that fits becomes one chunk spanning it and its separator. */
  lemma PartWhole(text: string, separators: seq<string>, i: nat, startPos: int, pos: int, chunk: string, endPos: int,
                  size: int, keep: bool, tok: Tokenizer)
    requires size >= 1 && SingleCharTokens(tok) && i < |Parts(text, separators)|
    requires startPos <= pos <= startPos + Offset(Parts(text, separators), PartSeparator(separators), i)
    requires chunk == PartChunk(Parts(text, separators), PartSeparator(separators), keep, i)
    requires endPos == PartEnd(Parts(text, separators), PartSeparator(separators), i, pos)
    requires ContainsAlphanumeric(chunk) && Fits(chunk, size, tok)
    ensures PartSplit(text, separators, i, startPos, pos, endPos + 1, [TextChunk(chunk, tok.encode(chunk), pos, endPos, [], [])], size, keep, tok)
    ensures PartOutcome(Parts(text, separators), PartSeparator(separators), keep, i, pos, endPos + 1,
                        [TextChunk(chunk, tok.encode(chunk), pos, endPos, [], [])], size, tok)
  {
    PartPlacement(Parts(text, separators), PartSeparator(separators), i, startPos, pos, chunk, endPos);
    var r := [TextChunk(chunk, tok.encode(chunk), pos, endPos, [], [])];
    assert AllTokens(r) == [] + tok.encode(chunk) by {
      assert r[..0] == [];
    }
    assert EncodeAll(tok, [chunk]) == [] + tok.encode(chunk) by {
      assert [chunk][..0] == [];
    }
  }

  /** A part that does not fit yields the chunks of splitting it again. */
  lemma PartResplit(text: string, separators: seq<string>, i: nat, startPos: int, pos: int, chunk: string, endPos: int,
                    r: seq<TextChunk>, size: int, keep: bool, tok: Tokenizer)
    requires size >= 1 && SingleCharTokens(tok) && i < |Parts(text, separators)|
    requires startPos <= pos <= startPos + Offset(Parts(text, separators), PartSeparator(separators), i)
    requires chunk == PartChunk(Parts(text, separators), PartSeparator(separators), keep, i)
    requires endPos == PartEnd(Parts(text, separators), PartSeparator(separators), i, pos)
    requires ContainsAlphanumeric(chunk) && !Fits(chunk, size, tok)
    requires SplitShape(r, size, pos, pos + |chunk| - 1)
    requires var leaves := Leaves(chunk, NextSeparators(separators), size, keep, tok);
      AllTokens(r) == EncodeAll(tok, leaves) && (r == [] <==> leaves == [])
    ensures PartSplit(text, separators, i, startPos, pos, endPos + 1, r, size, keep, tok)
    ensures PartOutcome(Parts(text, separators), PartSeparator(separators), keep, i, pos, endPos + 1, r, size, tok)
  {
    PartPlacement(Parts(text, separators), PartSeparator(separators), i, startPos, pos, chunk, endPos);
    ShapeWiden(r, size, pos, pos + |chunk| - 1, pos, endPos);
  }

  /** As written, the size is checked only when the splitter is constructed, and the
      configuration can be changed afterwards. With a size below one, splitting "a"
      from `p` with no separators cuts it into "" and "a"; "" is dropped and the
      position stays at `p`; "a" does not fit, so it is split again, from `p` and with
      no separators: the same call, so the recursion never ends. */
  lemma NonPositiveSizeRecursesForever(size: int, keep: bool, tok: Tokenizer, p: int)
    requires size < 0 || (size == 0 && |tok.encode("a")| >= 1)
    ensures var parts := Parts("a", []);
      && parts == ["", "a"]
      && PartOutcome(parts, PartSeparator([]), keep, 0, p, p, [], size, tok)
      && PartChunk(parts, PartSeparator([]), keep, 1) == "a"
      && ContainsAlphanumeric("a") && !Fits("a", size, tok)
      && NextSeparators([]) == []
  {
  }

  /** The loop of `RecursiveSplit` after part `i`: the running position lies between
      `startPos` and the offset of part `i`, the chunks are in shape up to just before
      it, they carry the tokens of the leaves of the first `i` parts, and there are
      chunks exactly when there are such leaves. */
  predicate SplitSoFar(text: string, separators: seq<string>, i: nat, startPos: int, pos: int, chunks: seq<TextChunk>,
                       size: int, keep: bool, tok: Tokenizer)
  {
    && size >= 1 && SingleCharTokens(tok)
    && var parts := Parts(text, separators);
       && i <= |parts|
       && startPos <= pos <= startPos + Offset(parts, PartSeparator(separators), i)
       && pos <= startPos + |text|
       && SplitShape(chunks, size, startPos, pos - 1)
       && var leaves := PartsLeaves(text, separators, i, size, keep, tok);
          AllTokens(chunks) == EncodeAll(tok, leaves) && (chunks == [] <==> leaves == [])
  }

  /** Before the first part there are no chunks and no leaves. */
  lemma SplitSoFarStart(text: string, separators: seq<string>, startPos: int, size: int, keep: bool, tok: Tokenizer)
    requires size >= 1 && SingleCharTokens(tok)
    ensures SplitSoFar(text, separators, 0, startPos, startPos, [], size, keep, tok)
  {
  }

  /** Part `i` of an unfinished loop is placed between `startPos` and its own offset. */
  lemma SplitSoFarPlace(text: string, separators: seq<string>, i: nat, startPos: int, pos: int, chunks: seq<TextChunk>,
                        size: int, keep: bool, tok: Tokenizer)
    requires SplitSoFar(text, separators, i, startPos, pos, chunks, size, keep, tok)
    ensures startPos <= pos <= startPos + Offset(Parts(text, separators), PartSeparator(separators), i)
  {
  }

  /** Appending the chunks of part `i`, which end before `nextPos`, moves the loop past
      part `i`. */
  lemma SplitSoFarStep(text: string, separators: seq<string>, i: nat, startPos: int, pos: int, nextPos: int,
                       chunks: seq<TextChunk>, piece: seq<TextChunk>, size: int, keep: bool, tok: Tokenizer)
    requires SplitSoFar(text, separators, i, startPos, pos, chunks, size, keep, tok)
    requires PartSplit(text, separators, i, startPos, pos, nextPos, piece, size, keep, tok)
    ensures SplitSoFar(text, separators, i + 1, startPos, nextPos, chunks + piece, size, keep, tok)
  {
    ShapeConcat(chunks, piece, size, startPos, pos, nextPos - 1);
    TokensAppend(tok, chunks, piece, PartsLeaves(text, separators, i, size, keep, tok), PartLeaves(text, separators, i, size, keep, tok));
  }

  /** After the last part the chunks are in shape over the whole text and carry the
      tokens of its leaves. */
  lemma SplitSoFarDone(text: string, separators: seq<string>, startPos: int, pos: int, chunks: seq<TextChunk>,
                       size: int, keep: bool, tok: Tokenizer)
    requires text != [] && SplitSoFar(text, separators, |Parts(text, separators)|, startPos, pos, chunks, size, keep, tok)
    ensures SplitShape(chunks, size, startPos, startPos + |text| - 1)
    ensures AllTokens(chunks) == EncodeAll(tok, Leaves(text, separators, size, keep, tok))
    ensures chunks == [] <==> Leaves(text, separators, size, keep, tok) == []
  {
    ShapeWiden(chunks, size, startPos, pos - 1, startPos, startPos + |text| - 1);
  }

  /** Every leaf holds a letter or digit and fits the size: no part is emitted too
      large, and none without a letter or digit. */
  lemma {:induction false} LeavesFit(text: string, separators: seq<string>, size: int, keep: bool, tok: Tokenizer)
    requires size >= 1 && SingleCharTokens(tok)
    ensures forall l :: l in Leaves(text, separators, size, keep, tok) ==> ContainsAlphanumeric(l) && Fits(l, size, tok)
    decreases |text|, |separators|, 3
  {
    if text != [] {
      PartsLeavesFit(text, separators, |Parts(text, separators)|, size, keep, tok);
    }
  }

  lemma {:induction false} PartsLeavesFit(text: string, separators: seq<string>, n: nat, size: int, keep: bool, tok: Tokenizer)
    requires size >= 1 && SingleCharTokens(tok) && n <= |Parts(text, separators)|
    ensures forall l :: l in PartsLeaves(text, separators, n, size, keep, tok) ==> ContainsAlphanumeric(l) && Fits(l, size, tok)
    decreases |text|, |separators|, 2, n
  {
    if n > 0 {
      PartsLeavesFit(text, separators, n - 1, size, keep, tok);
      PartLeavesFit(text, separators, n - 1, size, keep, tok);
      FitConcat(PartsLeaves(text, separators, n, size, keep, tok), PartsLeaves(text, separators, n - 1, size, keep, tok),
                PartLeaves(text, separators, n - 1, size, keep, tok), size, tok);
    }
  }

  /** Leaves that all fit, followed by more that do, all fit. */
  lemma FitConcat(whole: seq<string>, front: seq<string>, last: seq<string>, size: int, tok: Tokenizer)
    requires whole == front + last
    requires forall l :: l in front ==> ContainsAlphanumeric(l) && Fits(l, size, tok)
    requires forall l :: l in last ==> ContainsAlphanumeric(l) && Fits(l, size, tok)
    ensures forall l :: l in whole ==> ContainsAlphanumeric(l) && Fits(l, size, tok)
  {
  }

  lemma {:induction false} PartLeavesFit(text: string, separators: seq<string>, i: nat, size: int, keep: bool, tok: Tokenizer)
    requires size >= 1 && SingleCharTokens(tok) && i < |Parts(text, separators)|
    ensures forall l :: l in PartLeaves(text, separators, i, size, keep, tok) ==> ContainsAlphanumeric(l) && Fits(l, size, tok)
    decreases |text|, |separators|, 1
  {
    var chunk := PartChunk(Parts(text, separators), PartSeparator(separators), keep, i);
    if ContainsAlphanumeric(chunk) && !Fits(chunk, size, tok) {
      UnfitIsLonger(chunk, size, tok);
      LeavesFit(chunk, NextSeparators(separators), size, keep, tok);
    }
  }

  /** A non-empty text has leaves exactly when one of its parts, as the loop sees it,
      holds a letter or digit. */
  lemma LeavesExactlyForLetteredParts(text: string, separators: seq<string>, size: int, keep: bool, tok: Tokenizer)
    requires size >= 1 && SingleCharTokens(tok) && text != []
    ensures var parts := Parts(text, separators);
      Leaves(text, separators, size, keep, tok) != [] <==>
      exists i :: 0 <= i < |parts| && ContainsAlphanumeric(PartChunk(parts, PartSeparator(separators), keep, i))
  {
    PartsLeavesNonEmpty(text, separators, |Parts(text, separators)|, size, keep, tok);
    SomeLetteredExists(Parts(text, separators), PartSeparator(separators), keep, |Parts(text, separators)|);
  }

  /** Text with a letter or digit yields leaves, unless its letters and digits all lie
      in the separator it is cut on. */
  lemma {:induction false} LetteredTextHasLeaves(text: string, separators: seq<string>, size: int, keep: bool, tok: Tokenizer)
    requires size >= 1 && SingleCharTokens(tok)
    requires ContainsAlphanumeric(text) && !ContainsAlphanumeric(PartSeparator(separators))
    ensures Leaves(text, separators, size, keep, tok) != []
    decreases |text|, |separators|, 3
  {
    var parts := Parts(text, separators);
    var separator := PartSeparator(separators);
    AlphanumericInSomePart(parts, separator);
    var i :| 0 <= i < |parts| && ContainsAlphanumeric(parts[i]);
    AlphanumericSurvivesConcat(parts[i], separator);
    assert ContainsAlphanumeric(PartChunk(parts, separator, keep, i));
    SomeLetteredExists(parts, separator, keep, |parts|);
    PartsLeavesNonEmpty(text, separators, |parts|, size, keep, tok);
  }

  /** Some part among the first `n`, as the loop sees it, holds a letter or digit. */
  predicate SomeLettered(parts: seq<string>, sep: string, keep: bool, n: nat)
    requires n <= |parts|
    decreases n
  {
    n > 0 && (SomeLettered(parts, sep, keep, n - 1) || ContainsAlphanumeric(PartChunk(parts, sep, keep, n - 1)))
  }

  lemma {:induction false} SomeLetteredExists(parts: seq<string>, sep: string, keep: bool, n: nat)
    requires n <= |parts|
    ensures SomeLettered(parts, sep, keep, n) <==> exists i :: 0 <= i < n && ContainsAlphanumeric(PartChunk(parts, sep, keep, i))
    decreases n
  {
    if n > 0 {
      SomeLetteredExists(parts, sep, keep, n - 1);
      if ContainsAlphanumeric(PartChunk(parts, sep, keep, n - 1)) {
        assert 0 <= n - 1 < n;
      }
    }
  }

  /** The first `n` parts yield leaves exactly when one of them holds a letter or digit. */
  lemma {:induction false} PartsLeavesNonEmpty(text: string, separators: seq<string>, n: nat, size: int, keep: bool, tok: Tokenizer)
    requires size >= 1 && SingleCharTokens(tok) && n <= |Parts(text, separators)|
    ensures PartsLeaves(text, separators, n, size, keep, tok) != [] <==>
      SomeLettered(Parts(text, separators), PartSeparator(separators), keep, n)
    decreases |text|, |separators|, 2, n
  {
    if n > 0 {
      PartsLeavesNonEmpty(text, separators, n - 1, size, keep, tok);
      PartLeavesNonEmpty(text, separators, n - 1, size, keep, tok);
      NonEmptyExactlyWhen(PartsLeaves(text, separators, n, size, keep, tok),
                          PartsLeaves(text, separators, n - 1, size, keep, tok),
                          PartLeaves(text, separators, n - 1, size, keep, tok),
                          SomeLettered(Parts(text, separators), PartSeparator(separators), keep, n - 1),
                          ContainsAlphanumeric(PartChunk(Parts(text, separators), PartSeparator(separators), keep, n - 1)));
    }
  }

  /** A concatenation is non-empty exactly when one of its halves is. */
  lemma NonEmptyExactlyWhen(whole: seq<string>, front: seq<string>, last: seq<string>, frontCond: bool, lastCond: bool)
    requires whole == front + last && (front != [] <==> frontCond) && (last != [] <==> lastCond)
    ensures whole != [] <==> frontCond || lastCond
  {
    assert |whole| == |front| + |last|;
  }

  /** A part yields leaves exactly when it holds a letter or digit. */
  lemma {:induction false} PartLeavesNonEmpty(text: string, separators: seq<string>, i: nat, size: int, keep: bool, tok: Tokenizer)
    requires size >= 1 && SingleCharTokens(tok) && i < |Parts(text, separators)|
    ensures PartLeaves(text, separators, i, size, keep, tok) != [] <==>
      ContainsAlphanumeric(PartChunk(Parts(text, separators), PartSeparator(separators), keep, i))
    decreases |text|, |separators|, 1
  {
    var chunk := PartChunk(Parts(text, separators), PartSeparator(separators), keep, i);
    if ContainsAlphanumeric(chunk) && !Fits(chunk, size, tok) {
      UnfitIsLonger(chunk, size, tok);
      LetteredTextHasLeaves(chunk, NextSeparators(separators), size, keep, tok);
    }
  }

  /** The loop of `Split` that gives every chunk after the first the last tokens of
      its predecessor and the first tokens of its successor. */
  method FillOverlaps(base: seq<TextChunk>, overlap: int) returns (chunks: seq<TextChunk>)
    requires overlap > 0
    ensures chunks == WithOverlaps(base, overlap)
  {
    chunks := base;
    var i := 1;
    while i < |chunks|
      invariant 1 <= i <= (if |chunks| == 0 then 1 else |chunks|)
      invariant |chunks| == |base|
      invariant |chunks| > 0 ==> chunks[0] == base[0]
      invariant forall j :: 1 <= j < i && j < |chunks| ==> chunks[j] == Overlapped(base, j, overlap)
      invariant forall j :: i <= j < |chunks| ==> chunks[j] == base[j]
    {
      var previousChunk := chunks[i - 1];
      var chunk := chunks[i];
      var nextChunk := if i < |chunks| - 1 then Some(chunks[i + 1]) else None;
      assert previousChunk.tokens == base[i - 1].tokens;
      chunk := chunk.(startOverlap := OverlapTokens(Some(previousChunk.tokens), false, overlap),
                      endOverlap := OverlapTokens(if nextChunk.Some? then Some(nextChunk.value.tokens) else None, true, overlap));
      chunks := chunks[i := chunk];
      i := i + 1;
    }
    assert chunks == WithOverlaps(base, overlap);
  }

  /** `TextSplitter`: holds its configuration, which stays shared with the caller. */
  class TextSplitter {
    const config: TextSplitterConfig

    constructor (config: TextSplitterConfig)
      requires CheckConfig(config.chunkSize, config.chunkOverlap).Pass?
      ensures this.config == config
    {
      this.config := config;
    }

    /** The public constructor: a missing configuration is replaced by a default
        one, then size and overlap are checked in order. */
    static method Create(config: TextSplitterConfig?, gpt3: Tokenizer) returns (r: Result<TextSplitter, ConfigError>)
      ensures config == null ==> r.Success? && fresh(r.value) && fresh(r.value.config)
      ensures config == null && r.Success? ==>
        && r.value.config.separators == DefaultSeparators
        && !r.value.config.keepSeparators
        && r.value.config.chunkSize == 400 && r.value.config.chunkOverlap == 40
        && r.value.config.tokenizer == gpt3 && r.value.config.docType == None
      ensures config != null ==> (r.Success? <==> CheckConfig(config.chunkSize, config.chunkOverlap).Pass?)
      ensures config != null && r.Failure? ==> Fail(r.error) == CheckConfig(config.chunkSize, config.chunkOverlap)
      ensures config != null && r.Success? ==> fresh(r.value) && r.value.config == config
    {
      var c: TextSplitterConfig;
      if config == null {
        c := new TextSplitterConfig(gpt3);
      } else {
        c := config;
      }
      var check := CheckConfig(c.chunkSize, c.chunkOverlap);
      if check.Fail? {
        return Failure(check.error);
      }
      var s := new TextSplitter(c);
      r := Success(s);
    }

    /** What splitting needs of the configuration at the time of the call: a
        positive size and a tokenizer that keeps single letters to one token. */
    predicate Splittable()
      reads config
    {
      config.chunkSize >= 1 && SingleCharTokens(config.tokenizer)
    }

    /** The leaves of `text` under the current configuration. */
    function LeavesOf(text: string, separators: seq<string>): seq<string>
      reads config
      requires Splittable()
    {
      Leaves(text, separators, config.chunkSize, config.keepSeparators, config.tokenizer)
    }

    /** `Split`: the chunks of the recursive split from position 0, each chunk after
        the first given the overlapping tokens of its neighbours. */
    method Split(text: string) returns (r: seq<TextChunk>)
      requires Splittable()
      ensures exists base ::
        && SplitShape(base, config.chunkSize, 0, |text| - 1)
        && AllTokens(base) == EncodeAll(config.tokenizer, LeavesOf(text, config.separators))
        && r == WithOverlaps(base, config.chunkOverlap)
      ensures r == [] <==> LeavesOf(text, config.separators) == []
      ensures text == [] ==> r == []
    {
      var chunks := RecursiveSplit(text, config.separators, 0);
      ghost var base := chunks;
      var overlap := config.chunkOverlap;
      if overlap > 0 {
        chunks := FillOverlaps(chunks, overlap);
      }
      r := chunks;
      assert SplitShape(base, config.chunkSize, 0, |text| - 1) && r == WithOverlaps(base, overlap);
      assert AllTokens(base) == EncodeAll(config.tokenizer, LeavesOf(text, config.separators));
    }

    /** `RecursiveSplit`: the chunks of `text`, which starts at `startPos` in the
        original. Every chunk is within the size, holds a letter or digit, and has an
        unoverlapped span inside the text's own; spans come in order. Parts are
        placed at a running position that is not advanced past dropped parts. */
    method RecursiveSplit(text: string, separators: seq<string>, startPos: int) returns (r: seq<TextChunk>)
      requires Splittable()
      ensures SplitShape(r, config.chunkSize, startPos, startPos + |text| - 1)
      ensures AllTokens(r) == EncodeAll(config.tokenizer, LeavesOf(text, separators))
      ensures r == [] <==> LeavesOf(text, separators) == []
      ensures text == [] ==> r == []
      decreases |text|, |separators|, 2
    {
      var chunks: seq<TextChunk> := [];
      if |text| > 0 {
        chunks := SplitAllParts(text, separators, startPos);
      }
      var combined := CombineChunks(chunks);
      CombineKeepsShape(chunks, config.chunkSize, MergeSeparator(config.keepSeparators), startPos, startPos + |text| - 1);
      CombineKeepsTokens(chunks, config.chunkSize, MergeSeparator(config.keepSeparators));
      CombineNeverGrows(chunks, config.chunkSize, MergeSeparator(config.keepSeparators));
      r := combined;
    }

    /** The loop of `RecursiveSplit` over the parts of a non-empty text, before the
        chunks are merged. */
    method SplitAllParts(text: string, separators: seq<string>, startPos: int) returns (chunks: seq<TextChunk>)
      requires Splittable() && |text| > 0
      ensures SplitShape(chunks, config.chunkSize, startPos, startPos + |text| - 1)
      ensures AllTokens(chunks) == EncodeAll(config.tokenizer, LeavesOf(text, separators))
      ensures chunks == [] <==> LeavesOf(text, separators) == []
      decreases |text|, |separators|, 1
    {
      chunks := [];
      ghost var size, keep, tok := config.chunkSize, config.keepSeparators, config.tokenizer;
      var parts := Parts(text, separators);
      var pos := startPos;
      var i := 0;
      SplitSoFarStart(text, separators, startPos, size, keep, tok);
      while i < |parts|
        invariant i <= |parts|
        invariant SplitSoFar(text, separators, i, startPos, pos, chunks, size, keep, tok)
      {
        SplitSoFarPlace(text, separators, i, startPos, pos, chunks, size, keep, tok);
        var piece, nextPos := SplitPart(text, separators, parts, i, startPos, pos);
        SplitSoFarStep(text, separators, i, startPos, pos, nextPos, chunks, piece, size, keep, tok);
        chunks := chunks + piece;
        pos := nextPos;
        i := i + 1;
      }
      SplitSoFarDone(text, separators, startPos, pos, chunks, size, keep, tok);
    }

    /** One iteration of the loop of `RecursiveSplit`: part `i`, placed at `pos`. A part
        without a letter or digit is dropped and `pos` stays. Otherwise the part is split
        again when it is too long to be worth encoding or encodes to too many tokens,
        or else becomes one chunk; either way `pos` moves past it and its separator. */
    method SplitPart(text: string, separators: seq<string>, parts: seq<string>, i: nat, startPos: int, pos: int)
      returns (r: seq<TextChunk>, nextPos: int)
      requires Splittable() && parts == Parts(text, separators) && i < |parts|
      requires startPos <= pos <= startPos + Offset(parts, PartSeparator(separators), i)
      ensures PartSplit(text, separators, i, startPos, pos, nextPos, r, config.chunkSize, config.keepSeparators, config.tokenizer)
      ensures PartOutcome(parts, PartSeparator(separators), config.keepSeparators, i, pos, nextPos, r, config.chunkSize, config.tokenizer)
      decreases |text|, |separators|, 0
    {
      var separator := PartSeparator(separators);
      var nextSeparators := NextSeparators(separators);
      var lastChunk := i == |parts| - 1;
      var chunk := parts[i];
      var endPos := pos + (|chunk| - 1) + (if lastChunk then 0 else |separator|);
      if config.keepSeparators && !lastChunk {
        chunk := chunk + separator;
      }
      ghost var size, keep, tok := config.chunkSize, config.keepSeparators, config.tokenizer;
      PartPlacement(parts, separator, i, startPos, pos, chunk, endPos);
      assert chunk == PartChunk(parts, separator, keep, i) && endPos == PartEnd(parts, separator, i, pos);
      if !ContainsAlphanumeric(chunk) {
        PartDropped(text, separators, i, startPos, pos, size, keep, tok);
        return [], pos;
      }
      nextPos := endPos + 1;
      UnfitIsLonger(chunk, size, tok);
      if |chunk| / 6 > config.chunkSize {
        r := RecursiveSplit(chunk, nextSeparators, pos);
        PartResplit(text, separators, i, startPos, pos, chunk, endPos, r, size, keep, tok);
      } else {
        var tokens := config.tokenizer.encode(chunk);
        if |tokens| > config.chunkSize {
          r := RecursiveSplit(chunk, nextSeparators, pos);
          PartResplit(text, separators, i, startPos, pos, chunk, endPos, r, size, keep, tok);
        } else {
          PartWhole(text, separators, i, startPos, pos, chunk, endPos, size, keep, tok);
          r := [TextChunk(chunk, tokens, pos, endPos, [], [])];
        }
      }
    }

    /** `CombineChunks`: the greedy merge, with the separator the configuration
        implies. */
    method CombineChunks(chunks: seq<TextChunk>) returns (r: seq<TextChunk>)
      ensures r == Combined(chunks, config.chunkSize, MergeSeparator(config.keepSeparators))
    {
      var combined: seq<TextChunk> := [];
      var currentChunk: Option<TextChunk> := None;
      var separator := if config.keepSeparators then "" else " ";
      var i := 0;
      while i < |chunks|
        invariant 0 <= i <= |chunks|
        invariant currentChunk.None? <==> i == 0
        invariant combined + (if currentChunk.Some? then [currentChunk.value] else [])
                  == Combined(chunks[..i], config.chunkSize, separator)
      {
        var chunk := chunks[i];
        assert chunks[..i + 1][..i] == chunks[..i];
        if currentChunk.Some? {
          var current := currentChunk.value;
          var length := |current.tokens| + |chunk.tokens|;
          if length > config.chunkSize {
            combined := combined + [current];
            currentChunk := Some(chunk);
          } else {
            currentChunk := Some(current.(text := current.text + (separator + chunk.text), tokens := current.tokens + chunk.tokens));
            assert current.text + (separator + chunk.text) == current.text + separator + chunk.text;
          }
        } else {
          currentChunk := Some(chunk);
        }
        i := i + 1;
      }
      assert chunks[..|chunks|] == chunks;
      if currentChunk.Some? {
        combined := combined + [currentChunk.value];
      }
      r := combined;
    }
  }
}
