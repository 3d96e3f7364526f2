/** Metadata filtering (Vectra/ItemSelector.cs, filter shape from
    Vectra/Models/MetadataFilter.cs). `Select` accepts everything: its matching logic
    is commented out. The private `MetadataFilter` helper, which only that commented
    block calls, is a key-by-key decision over one value tag. */
module ItemSelector {
  import opened Wrappers
  import opened MetadataModel

  /** A value of the filter's `Custom` dictionary, which holds plain objects. The
      default case's cast `(MetadataTypes)` unboxes a boxed tag; it also unboxes a
      boxed `int`, or a boxed enum backed by `int`, whose value `n` then stands for
      the tag with ordinal `n` (defined or not). Unboxing null throws a null
      reference exception; any other object throws an invalid cast. */
  datatype CustomEntry = Tag(tag: MetadataTypes) | Int(n: int) | Null | Other

  /** A filter. `custom` is the filter's dictionary, in its enumeration order. */
  datatype MetadataFilter = MetadataFilter(
    eq: Option<MetadataTypes>,
    ne: Option<MetadataTypes>,
    gt: Option<real>,
    gte: Option<real>,
    lt: Option<real>,
    lte: Option<real>,
    inValues: Option<seq<MetadataTypes>>,
    ninValues: Option<seq<MetadataTypes>>,
    andFilters: Option<seq<MetadataFilter>>,
    orFilters: Option<seq<MetadataFilter>>,
    custom: Option<seq<(string, CustomEntry)>>)

  /** The exceptions the helper can raise: a null filter, a null `In`/`Nin` array
      reaching `Contains`, a null `Custom` entry reaching the cast (these four are null
      reference exceptions), or a `Custom` entry the cast cannot unbox to a tag. */
  datatype FilterError = NullFilter | NullInList | NullNinList | NullEntry | InvalidCast

  /** `Select`: true for every metadata dictionary and every filter, null or not. */
  function Select(metadata: Metadata, filter: Option<MetadataFilter>): (r: bool)
    ensures r
  {
    true
  }

  /** What one key of the scan does: let the scan go on, end it with a verdict, or
      throw. */
  datatype Step = Continue | Decide(accepted: bool) | Throw(error: FilterError)

  /** The keys the switch recognises. */
  predicate IsOperatorKey(key: string) {
    key == "$eq" || key == "$ne" || key == "$gt" || key == "$gte" ||
    key == "$lt" || key == "$lte" || key == "$in" || key == "$nin"
  }

  /** C#'s lifted comparisons against a nullable double: false when it is null. */
  predicate LiftedLe(x: real, y: Option<real>) { y.Some? && x <= y.value }
  predicate LiftedLt(x: real, y: Option<real>) { y.Some? && x < y.value }
  predicate LiftedGe(x: real, y: Option<real>) { y.Some? && x >= y.value }
  predicate LiftedGt(x: real, y: Option<real>) { y.Some? && x > y.value }

  /** One case of the switch, for the tag `value`, the key `key` and the dictionary
      entry `entry` stored under it. The numeric operators compare the tag's ordinal,
      which is 0 for Number, against the threshold. */
  function CheckKey(value: MetadataTypes, filter: MetadataFilter, key: string, entry: CustomEntry): (s: Step)
    ensures !IsOperatorKey(key) && entry.Tag? ==> s == Decide(value == entry.tag)
    ensures !IsOperatorKey(key) && entry.Int? ==> s == Decide(Ordinal(value) == entry.n)
    ensures !IsOperatorKey(key) && entry.Null? ==> s == Throw(NullEntry)
    ensures !IsOperatorKey(key) && entry.Other? ==> s == Throw(InvalidCast)
    ensures IsOperatorKey(key) ==> s != Decide(true)
    ensures key == "$eq" ==> (s == Continue <==> filter.eq == Some(value)) && !s.Throw?
    ensures key == "$ne" ==> (s == Continue <==> filter.ne != Some(value)) && !s.Throw?
    ensures key == "$gt" ==> (s == Continue <==> value == Number && (filter.gt.None? || filter.gt.value < 0.0)) && !s.Throw?
    ensures key == "$gte" ==> (s == Continue <==> value == Number && (filter.gte.None? || filter.gte.value <= 0.0)) && !s.Throw?
    ensures key == "$lt" ==> (s == Continue <==> value == Number && (filter.lt.None? || filter.lt.value > 0.0)) && !s.Throw?
    ensures key == "$lte" ==> (s == Continue <==> value == Number && (filter.lte.None? || filter.lte.value >= 0.0)) && !s.Throw?
    ensures key == "$in" && value == Boolean ==> s == Decide(false)
    ensures key == "$in" && value != Boolean ==>
      if filter.inValues.None? then s == Throw(NullInList) else (s == Continue <==> value in filter.inValues.value) && !s.Throw?
    ensures key == "$nin" && value == Boolean ==> s == Decide(false)
    ensures key == "$nin" && value != Boolean ==>
      if filter.ninValues.None? then s == Throw(NullNinList) else (s == Continue <==> value !in filter.ninValues.value) && !s.Throw?
  {
    var asNumber := Ordinal(value) as real;
    if key == "$eq" then
      if Some(value) != filter.eq then Decide(false) else Continue
    else if key == "$ne" then
      if Some(value) == filter.ne then Decide(false) else Continue
    else if key == "$gt" then
      if value != Number || LiftedLe(asNumber, filter.gt) then Decide(false) else Continue
    else if key == "$gte" then
      if value != Number || LiftedLt(asNumber, filter.gte) then Decide(false) else Continue
    else if key == "$lt" then
      if value != Number || LiftedGe(asNumber, filter.lt) then Decide(false) else Continue
    else if key == "$lte" then
      if value != Number || LiftedGt(asNumber, filter.lte) then Decide(false) else Continue
    else if key == "$in" then
      if value == Boolean then Decide(false)
      else if filter.inValues.None? then Throw(NullInList)
      else if value !in filter.inValues.value then Decide(false)
      else Continue
    else if key == "$nin" then
      if value == Boolean then Decide(false)
      else if filter.ninValues.None? then Throw(NullNinList)
      else if value in filter.ninValues.value then Decide(false)
      else Continue
    else
      match entry
      case Tag(t) => Decide(value == t)
      case Int(n) => Decide(Ordinal(value) == n)
      case Null => Throw(NullEntry)
      case Other => Throw(InvalidCast)
  }

  /** The scan over the dictionary's entries, in order, stopping at the first key that
      decides or throws. */
  function ScanKeys(value: MetadataTypes, filter: MetadataFilter, entries: seq<(string, CustomEntry)>): Result<bool, FilterError>
    decreases |entries|
  {
    if entries == [] then Success(true)
    else
      match CheckKey(value, filter, entries[0].0, entries[0].1)
      case Continue => ScanKeys(value, filter, entries[1..])
      case Decide(b) => Success(b)
      case Throw(e) => Failure(e)
  }

  /** The private `MetadataFilter` helper. */
  function MetadataFilterMatch(value: MetadataTypes, filter: Option<MetadataFilter>): (r: Result<bool, FilterError>)
    ensures filter.None? ==> r == Failure(NullFilter)
    ensures filter.Some? && (filter.value.custom.None? || filter.value.custom.value == []) ==> r == Success(true)
  {
    if filter.None? then Failure(NullFilter)
    else ScanKeys(value, filter.value, filter.value.custom.GetOr([]))
  }

  /** The result a deciding or throwing step gives the whole scan. */
  function Verdict(s: Step): Result<bool, FilterError>
    requires !s.Continue?
  {
    if s.Decide? then Success(s.accepted) else Failure(s.error)
  }

  /** The first key that does not let the scan continue decides the result. */
  lemma {:induction false} FirstDecidingKeyWins(value: MetadataTypes, filter: MetadataFilter, entries: seq<(string, CustomEntry)>, j: nat)
    requires j < |entries|
    requires forall i :: 0 <= i < j ==> CheckKey(value, filter, entries[i].0, entries[i].1) == Continue
    requires !CheckKey(value, filter, entries[j].0, entries[j].1).Continue?
    ensures ScanKeys(value, filter, entries) == Verdict(CheckKey(value, filter, entries[j].0, entries[j].1))
  {
    if j > 0 {
      assert CheckKey(value, filter, entries[0].0, entries[0].1) == Continue;
      FirstDecidingKeyWins(value, filter, entries[1..], j - 1);
    }
  }

  /** When every key lets the scan continue, the value is accepted. */
  lemma {:induction false} AllKeysPassAccepts(value: MetadataTypes, filter: MetadataFilter, entries: seq<(string, CustomEntry)>)
    requires forall i :: 0 <= i < |entries| ==> CheckKey(value, filter, entries[i].0, entries[i].1) == Continue
    ensures ScanKeys(value, filter, entries) == Success(true)
  {
    if entries != [] {
      assert CheckKey(value, filter, entries[0].0, entries[0].1) == Continue;
      AllKeysPassAccepts(value, filter, entries[1..]);
    }
  }

  /** A rejection always comes from one key, the first that does not continue, and it
      is either a failed operator or an unrecognised key whose entry differs. */
  lemma {:induction false} RejectionHasCause(value: MetadataTypes, filter: MetadataFilter, entries: seq<(string, CustomEntry)>)
    requires ScanKeys(value, filter, entries) == Success(false)
    ensures exists j :: 0 <= j < |entries| && CheckKey(value, filter, entries[j].0, entries[j].1) == Decide(false)
                        && (forall i :: 0 <= i < j ==> CheckKey(value, filter, entries[i].0, entries[i].1) == Continue)
  {
    var s := CheckKey(value, filter, entries[0].0, entries[0].1);
    if s == Continue {
      RejectionHasCause(value, filter, entries[1..]);
      var j :| 0 <= j < |entries[1..]| && CheckKey(value, filter, entries[1..][j].0, entries[1..][j].1) == Decide(false)
               && (forall i :: 0 <= i < j ==> CheckKey(value, filter, entries[1..][i].0, entries[1..][i].1) == Continue);
      assert forall i :: 0 <= i < j + 1 ==> CheckKey(value, filter, entries[i].0, entries[i].1) == Continue by {
        forall i | 0 <= i < j + 1 ensures CheckKey(value, filter, entries[i].0, entries[i].1) == Continue {
          if i > 0 { assert entries[i] == entries[1..][i - 1]; }
        }
      }
      assert entries[j + 1] == entries[1..][j];
    } else {
      assert s == Decide(false);
    }
  }

  /** Once an unrecognised key is reached, the scan returns the comparison with its
      entry, or throws when the entry cannot be unboxed: whatever keys follow it are
      never examined. */
  lemma UnrecognisedKeyEndsScan(value: MetadataTypes, filter: MetadataFilter, entries: seq<(string, CustomEntry)>, rest: seq<(string, CustomEntry)>)
    requires entries != [] && !IsOperatorKey(entries[|entries| - 1].0)
    requires forall i :: 0 <= i < |entries| - 1 ==> CheckKey(value, filter, entries[i].0, entries[i].1) == Continue
    ensures var entry := entries[|entries| - 1].1;
      ScanKeys(value, filter, entries + rest) ==
        match entry
        case Tag(t) => Success(value == t)
        case Int(n) => Success(Ordinal(value) == n)
        case Null => Failure(NullEntry)
        case Other => Failure(InvalidCast)
  {
    var all := entries + rest;
    var j := |entries| - 1;
    assert forall i :: 0 <= i <= j ==> all[i] == entries[i];
    FirstDecidingKeyWins(value, filter, all, j);
  }

  /** A boxed tag and its boxed ordinal decide every key alike: the cast unboxes
      both to the same tag. */
  lemma TagAndOrdinalAgree(value: MetadataTypes, filter: MetadataFilter, key: string, t: MetadataTypes)
    ensures CheckKey(value, filter, key, Tag(t)) == CheckKey(value, filter, key, Int(Ordinal(t)))
  {
  }

  /** A boxed integer is compared, not rejected: `Custom = {"k": 1}` accepts the tag
      String, whose ordinal is 1, rejects Number, and a null entry throws. */
  lemma BoxedIntegerCompares(filter: MetadataFilter)
    requires filter.custom == Some([("k", Int(1))])
    ensures MetadataFilterMatch(String, Some(filter)) == Success(true)
    ensures MetadataFilterMatch(Number, Some(filter)) == Success(false)
    ensures MetadataFilterMatch(String, Some(filter.(custom := Some([("k", Null)])))) == Failure(NullEntry)
  {
  }
}
