/** The string helpers the splitter of Vectra/TextSplitter.cs relies on: the ASCII
    alphanumeric test, `string.Split(string)` with ordinal matching, and the inverse
    join with the position arithmetic of the parts. */
module TextParts {

  const LowerLetters: string := "abcdefghijklmnopqrstuvwxyz"
  const UpperLetters: string := "ABCDEFGHIJKLMNOPQRSTUVWXYZ"
  const Digits: string := "0123456789"

  /** `ALPHANUMERIC_CHARS`: the lower-case letters, the upper-case letters, the
      digits. */
  const AlphanumericChars: string := LowerLetters + UpperLetters + Digits

  /** An ASCII letter or digit. */
  predicate IsAlphanumeric(c: char) {
    'a' <= c <= 'z' || 'A' <= c <= 'Z' || '0' <= c <= '9'
  }

  /** The characters of `AlphanumericChars` are exactly the ASCII letters and
      digits, so membership in it is `IsAlphanumeric`. */
  lemma AlphanumericIsAsciiLetterOrDigit(c: char)
    ensures c in AlphanumericChars <==> IsAlphanumeric(c)
  {
    if 'a' <= c <= 'z' {
      assert AlphanumericChars[c as int - 'a' as int] == c;
    } else if 'A' <= c <= 'Z' {
      assert AlphanumericChars[26 + c as int - 'A' as int] == c;
    } else if '0' <= c <= '9' {
      assert AlphanumericChars[52 + c as int - '0' as int] == c;
    } else if c in AlphanumericChars {
      LettersAndDigitsInRange(c);
    }
  }

  lemma LettersAndDigitsInRange(c: char)
    ensures c in LowerLetters ==> 'a' <= c <= 'z'
    ensures c in UpperLetters ==> 'A' <= c <= 'Z'
    ensures c in Digits ==> '0' <= c <= '9'
  {
  }

  /** `ContainsAlphanumeric`: some character of the text is an ASCII letter or digit;
      the scan stops at the first one. */
  function ContainsAlphanumeric(text: string): (b: bool)
    ensures b <==> exists i :: 0 <= i < |text| && IsAlphanumeric(text[i])
    decreases |text|
  {
    if text == [] then false
    else if IsAlphanumeric(text[0]) then true
    else
      var rest := ContainsAlphanumeric(text[1..]);
      assert forall i :: 1 <= i < |text| ==> text[i] == text[1..][i - 1];
      rest
  }

  /** Text that has a letter or digit keeps it when more text is put around it. */
  lemma {:induction false} AlphanumericSurvivesConcat(a: string, b: string)
    ensures ContainsAlphanumeric(a) ==> ContainsAlphanumeric(a + b)
    ensures ContainsAlphanumeric(b) ==> ContainsAlphanumeric(a + b)
  {
    if ContainsAlphanumeric(a) {
      var i :| 0 <= i < |a| && IsAlphanumeric(a[i]);
      assert (a + b)[i] == a[i];
    }
    if ContainsAlphanumeric(b) {
      var i :| 0 <= i < |b| && IsAlphanumeric(b[i]);
      assert (a + b)[|a| + i] == b[i];
    }
  }

  /** A letter or digit of a concatenation lies in one of its two halves. */
  lemma AlphanumericSplitsOverConcat(a: string, b: string)
    ensures ContainsAlphanumeric(a + b) ==> ContainsAlphanumeric(a) || ContainsAlphanumeric(b)
  {
    if ContainsAlphanumeric(a + b) {
      var i :| 0 <= i < |a + b| && IsAlphanumeric((a + b)[i]);
      if i < |a| {
        assert a[i] == (a + b)[i];
      } else {
        assert b[i - |a|] == (a + b)[i];
      }
    }
  }

  /** `sep` occurs in `text` at position `k`. */
  predicate OccursAt(text: string, sep: string, k: int) {
    0 <= k && k + |sep| <= |text| && text[k..k + |sep|] == sep
  }

  /** The first position where `sep` occurs, or -1. */
  function FirstOccurrence(text: string, sep: string): (k: int)
    ensures -1 <= k <= |text| - |sep| || k == -1
    ensures k >= 0 ==> OccursAt(text, sep, k) && forall j :: 0 <= j < k ==> !OccursAt(text, sep, j)
    ensures k < 0 ==> forall j :: 0 <= j <= |text| - |sep| ==> !OccursAt(text, sep, j)
  {
    FirstOccurrenceFrom(text, sep, 0)
  }

  function FirstOccurrenceFrom(text: string, sep: string, from: nat): (k: int)
    requires forall j :: 0 <= j < from ==> !OccursAt(text, sep, j)
    ensures k == -1 || (from <= k <= |text| - |sep|)
    ensures k >= 0 ==> OccursAt(text, sep, k) && forall j :: 0 <= j < k ==> !OccursAt(text, sep, j)
    ensures k < 0 ==> forall j :: 0 <= j <= |text| - |sep| ==> !OccursAt(text, sep, j)
    decreases |text| - from
  {
    if from + |sep| > |text| then -1
    else if text[from..from + |sep|] == sep then from
    else FirstOccurrenceFrom(text, sep, from + 1)
  }

  /** `string.Split(sep)`: the pieces between the leftmost non-overlapping
      occurrences of `sep`; an empty separator leaves the text whole. */
  function SplitOn(text: string, sep: string): (parts: seq<string>)
    ensures |parts| >= 1
    ensures Join(parts, sep) == text
    decreases |text|
  {
    if sep == [] then [text]
    else
      var k := FirstOccurrence(text, sep);
      if k < 0 then [text]
      else
        var rest := SplitOn(text[k + |sep|..], sep);
        assert text == text[..k] + sep + text[k + |sep|..] by {
          assert text[k..k + |sep|] == sep;
          assert text == text[..k] + text[k..k + |sep|] + text[k + |sep|..];
        }
        [text[..k]] + rest
  }

  /** The parts with `sep` between consecutive ones. */
  function Join(parts: seq<string>, sep: string): string
    requires |parts| >= 1
    decreases |parts|
  {
    if |parts| == 1 then parts[0] else parts[0] + sep + Join(parts[1..], sep)
  }

  /** When the separator has no letter or digit, a letter or digit of the joined text
      lies in one of the parts. */
  lemma {:induction false} AlphanumericInSomePart(parts: seq<string>, sep: string)
    requires |parts| >= 1 && ContainsAlphanumeric(Join(parts, sep)) && !ContainsAlphanumeric(sep)
    ensures exists i :: 0 <= i < |parts| && ContainsAlphanumeric(parts[i])
    decreases |parts|
  {
    if |parts| > 1 {
      AlphanumericSplitsOverConcat(parts[0] + sep, Join(parts[1..], sep));
      AlphanumericSplitsOverConcat(parts[0], sep);
      if ContainsAlphanumeric(Join(parts[1..], sep)) {
        AlphanumericInSomePart(parts[1..], sep);
        var i :| 0 <= i < |parts[1..]| && ContainsAlphanumeric(parts[1..][i]);
        assert parts[i + 1] == parts[1..][i];
      }
    }
  }

  /** An occurrence inside a prefix is an occurrence in the whole text, ending
      within the prefix. */
  lemma OccursInPrefix(text: string, sep: string, k: nat, j: int)
    requires k <= |text|
    ensures OccursAt(text[..k], sep, j) ==> OccursAt(text, sep, j) && j + |sep| <= k
  {
    if OccursAt(text[..k], sep, j) {
      assert text[..k][j..j + |sep|] == text[j..j + |sep|];
    }
  }

  /** With a non-empty separator no part contains it: the split is as fine as it can
      be. */
  lemma {:induction false} PartsAvoidSeparator(text: string, sep: string)
    requires sep != []
    ensures forall p :: p in SplitOn(text, sep) ==> forall j :: !OccursAt(p, sep, j)
    decreases |text|
  {
    var k := FirstOccurrence(text, sep);
    if k >= 0 {
      PartsAvoidSeparator(text[k + |sep|..], sep);
      var head := text[..k];
      forall j ensures !OccursAt(head, sep, j) {
        OccursInPrefix(text, sep, k, j);
      }
    } else {
      forall j | OccursAt(text, sep, j) ensures false {
      }
    }
  }

  /** Splitting text that has no occurrence of the separator gives the text alone. */
  lemma SplitWithoutSeparator(text: string, sep: string)
    requires forall j :: !OccursAt(text, sep, j)
    ensures SplitOn(text, sep) == [text]
  {
  }

  /** Where part `i` starts in the joined text: the lengths of the earlier parts, each
      followed by one separator. */
  function Offset(parts: seq<string>, sep: string, i: nat): (o: nat)
    requires i <= |parts|
    decreases i
  {
    if i == 0 then 0 else Offset(parts, sep, i - 1) + |parts[i - 1]| + |sep|
  }

  /** The offsets never decrease. */
  lemma {:induction false} OffsetMonotone(parts: seq<string>, sep: string, i: nat, j: nat)
    requires i <= j <= |parts|
    ensures Offset(parts, sep, i) <= Offset(parts, sep, j)
    decreases j
  {
    if i < j {
      OffsetMonotone(parts, sep, i, j - 1);
    }
  }

  /** Past the last part the offset exceeds the joined length by one separator. */
  lemma {:induction false} OffsetOfAll(parts: seq<string>, sep: string)
    requires |parts| >= 1
    ensures Offset(parts, sep, |parts|) == |Join(parts, sep)| + |sep|
    decreases |parts|
  {
    if |parts| > 1 {
      OffsetOfAll(parts[1..], sep);
      OffsetShift(parts, sep, |parts| - 1);
    }
  }

  /** Dropping the first part shifts every offset by that part and a separator. */
  lemma {:induction false} OffsetShift(parts: seq<string>, sep: string, i: nat)
    requires 1 <= |parts| && i <= |parts| - 1
    ensures Offset(parts, sep, i + 1) == |parts[0]| + |sep| + Offset(parts[1..], sep, i)
    decreases i
  {
    if i > 0 {
      OffsetShift(parts, sep, i - 1);
      assert parts[1..][i - 1] == parts[i];
    }
  }

  /** Every part, with the separator after it when one follows, lies inside the joined
      text. */
  lemma {:induction false} PartInsideJoin(parts: seq<string>, sep: string, i: nat)
    requires i < |parts|
    ensures Offset(parts, sep, i) + |parts[i]| + (if i == |parts| - 1 then 0 else |sep|) <= |Join(parts, sep)|
  {
    OffsetOfAll(parts, sep);
    if i < |parts| - 1 {
      OffsetMonotone(parts, sep, i + 2, |parts|);
    }
  }

  /** Where part `i` lands when it is placed at `pos`, no further right than its own
      offset: it ends at `endPos` (its separator included unless it is the last part)
      inside the joined text, the next part's offset is beyond `endPos`, and the part,
      with or without its separator, is no longer than the text. */
  lemma PartPlacement(parts: seq<string>, sep: string, i: nat, startPos: int, pos: int, chunk: string, endPos: int)
    requires i < |parts| && startPos <= pos <= startPos + Offset(parts, sep, i)
    requires endPos == pos + (|parts[i]| - 1) + (if i == |parts| - 1 then 0 else |sep|)
    requires chunk == parts[i] || (i < |parts| - 1 && chunk == parts[i] + sep)
    ensures pos + |chunk| - 1 <= endPos
    ensures endPos + 1 <= startPos + Offset(parts, sep, i + 1)
    ensures endPos + 1 <= startPos + |Join(parts, sep)|
    ensures |chunk| <= |Join(parts, sep)|
  {
    PartInsideJoin(parts, sep, i);
  }
}
