/** Item metadata (Vectra/Models/Metadata.cs) and the tag type of its values
    (Vectra/Models/MetadataFilter.cs). */
module MetadataModel {

  /** The three metadata value tags, declared in this order, so Number has ordinal 0. */
  datatype MetadataTypes = Number | String | Boolean

  /** The enum's underlying integer, which a cast such as `(float)value` reads. */
  function Ordinal(t: MetadataTypes): (n: nat)
    ensures n < 3
    ensures n == 0 <==> t == Number
  {
    match t
    case Number => 0
    case String => 1
    case Boolean => 2
  }

  /** A metadata dictionary: keys to value tags. A `map` is a value, so a copy of one
      can never be changed through another. */
  type Metadata = map<string, MetadataTypes>

  /** The parameterless constructor: an empty dictionary. */
  function NewMetadata(): (m: Metadata)
    ensures |m| == 0
    ensures forall k :: k !in m
  {
    map[]
  }

  /** The copying constructor: exactly the key/value pairs of `dictionary`. */
  function MetadataFrom(dictionary: map<string, MetadataTypes>): (m: Metadata)
    ensures m.Keys == dictionary.Keys
    ensures forall k :: k in m ==> m[k] == dictionary[k]
  {
    map k | k in dictionary :: dictionary[k]
  }

  /** `Clone` goes through the copying constructor: same keys, same values. */
  function Clone(m: Metadata): (c: Metadata)
    ensures c.Keys == m.Keys
    ensures forall k :: k in c ==> c[k] == m[k]
  {
    MetadataFrom(m)
  }

  /** A clone is the original map itself, and so is a clone of a clone. Maps are
      values, so the source's promise that keys added to or removed from the clone
      never reach the original holds by construction; this lemma states only that
      the copy loses and adds nothing. */
  lemma CloneIsIdentity(m: Metadata)
    ensures Clone(m) == m
    ensures Clone(Clone(m)) == m
  {
  }
}
