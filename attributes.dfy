/**
 * The part of the DICOM data model that the validator consumes: tags, element
 * values and the `Attributes` container. The container's own encoding is not
 * modelled; only the operations the validator calls are (`getValue`,
 * `getStrings`, `size`, `isEmpty`, `tags`, `addSelected`).
 */
module Data {
  import opened Wrappers

  /** Java's `int`. */
  newtype Int32 = x: int | -0x8000_0000 <= x < 0x8000_0000

  /** A data element tag: group and element packed into one 32-bit value. */
  type Tag = Int32

  /** What an `Attributes` container holds under one tag. */
  datatype Element =
    | StringValues(strings: seq<string>)  // a string-valued element; `getStrings` yields its values
    | SequenceValue(size: nat)            // a `Sequence` of nested items, a `Value`
    | OtherValue(empty: bool)             // any other `Value` (fragments, bulk data, the empty value)
    | OtherObject                         // a value object that is not a `Value` and not strings

  /** `value instanceof Value && ((Value) value).isEmpty()`. */
  predicate IsEmptyValue(e: Element) {
    match e
    case SequenceValue(n) => n == 0
    case OtherValue(empty) => empty
    case _ => false
  }

  /** The value stored under `tag`, or `null`. */
  function Lookup(elements: map<Tag, Element>, tag: Tag): Option<Element> {
    if tag in elements then Some(elements[tag]) else None
  }

  /** The strings `getStrings` yields for the value found under a tag; `null` for the rest. */
  function StringsOf(v: Option<Element>): Option<seq<string>> {
    if v.Some? && v.value.StringValues? then Some(v.value.strings) else None
  }

  /** `addSelected(other, null, tag)` on the contents: copy `tag`'s value from `src`, if it has one. */
  function Selected(dest: map<Tag, Element>, src: map<Tag, Element>, tag: Tag): (r: map<Tag, Element>)
    ensures tag in src ==> tag in r && r[tag] == src[tag]
    ensures r - {tag} == dest - {tag}
    ensures dest.Keys <= r.Keys
    ensures |dest| <= |r| <= |dest| + 1
  {
    if tag in src then dest[tag := src[tag]] else dest
  }

  /** No tag occurs twice in `s`. */
  predicate Distinct(s: seq<Tag>) {
    forall i, j :: 0 <= i < j < |s| ==> s[i] != s[j]
  }

  /** A key sequence without repeats has as many entries as its set of keys. */
  lemma {:induction false} DistinctCardinality(s: seq<Tag>)
    requires Distinct(s)
    ensures |set t | t in s| == |s|
  {
    if s != [] {
      DistinctCardinality(s[1..]);
      assert (set t | t in s) == {s[0]} + (set t | t in s[1..]);
      assert s[0] !in s[1..];
    }
  }

  /**
   * A tag-keyed attribute set. `elements` is its contents, `order` the
   * sequence in which `tags()` enumerates the keys.
   */
  class Attributes {
    var elements: map<Tag, Element>
    var order: seq<Tag>

    ghost predicate Valid()
      reads this
    {
      Distinct(order) && forall t :: t in elements <==> t in order
    }

    constructor ()
      ensures Valid() && elements == map[] && order == []
    {
      elements := map[];
      order := [];
    }

    /** `getValue(tag)`: the value stored under `tag`, or `null`. */
    function GetValue(tag: Tag): Option<Element>
      reads this
    {
      Lookup(elements, tag)
    }

    /** `getStrings(tag)`. */
    function GetStrings(tag: Tag): Option<seq<string>>
      reads this
    {
      StringsOf(GetValue(tag))
    }

    /** `size()`: the number of elements held. */
    function Size(): (n: nat)
      reads this
      requires Valid()
      ensures n == |elements|
    {
      assert elements.Keys == set t | t in order;
      DistinctCardinality(order);
      |order|
    }

    /** `isEmpty()`. */
    function IsEmpty(): (b: bool)
      reads this
      requires Valid()
      ensures b <==> elements == map[]
    {
      assert order != [] ==> order[0] in elements;
      order == []
    }

    /** `tags()`: every key exactly once. */
    function Tags(): (r: seq<Tag>)
      reads this
      requires Valid()
      ensures |r| == |elements| && Distinct(r)
      ensures forall t :: t in r <==> t in elements
    {
      assert Size() == |elements|;
      order
    }

    /**
     * `addSelected(other, null, tag)`: copies the value `other` holds under
     * `tag` into this set; does nothing when `other` has no such element.
     * Where a new key lands in `tags()` is left open; when nothing is
     * copied, `tags()` is unchanged.
     */
    method AddSelected(other: Attributes, tag: Tag)
      requires Valid()
      modifies this
      ensures Valid()
      ensures elements == Selected(old(elements), old(other.elements), tag)
      ensures tag !in old(other.elements) ==> order == old(order)
    {
      var src := other.elements;
      if tag in src {
        if tag !in elements {
          order := order + [tag];
        }
        elements := elements[tag := src[tag]];
      }
    }
  }
}
