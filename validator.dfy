/**
 * The attribute conformance validator (`org.dcm4che.util.AttributesValidator`).
 * It wraps one attribute set, checks elements of it against their presence
 * type, value multiplicity, enumerated values or sequence size, and records
 * every violation instead of failing.
 */
module Util {
  import opened Wrappers
  import opened Data
  import opened ValidatorSpec

  class AttributesValidator {
    /** The wrapped set; the validator only ever reads it. */
    const attrs: Attributes
    /** `TagUtils.toString`, the tag formatter used in error comments. */
    const formatTag: Tag -> string
    /** Tags of absent elements, in the order recorded; replaced by a longer copy on each append. */
    var missingAttributes: array<Tag>
    const missingAttributeValues: Attributes
    const invalidAttributeValues: Attributes
    var errorComment: Option<string>

    ghost predicate Valid()
      reads this, missingAttributes, missingAttributeValues, invalidAttributeValues
    {
      missingAttributeValues != attrs && invalidAttributeValues != attrs &&
      missingAttributeValues != invalidAttributeValues &&
      missingAttributeValues.Valid() && invalidAttributeValues.Valid() &&
      Commented(State())
    }

    /** The validator's state as a value. */
    ghost function State(): Report
      reads this, missingAttributes, missingAttributeValues, invalidAttributeValues
    {
      ValidatorSpec.Report(missingAttributes[..], missingAttributeValues.elements,
             invalidAttributeValues.elements, errorComment)
    }

    /** Each value accumulator that `v` does not record into keeps its tag order. */
    ghost predicate OrdersKept(missingValueTags: seq<Tag>, invalidValueTags: seq<Tag>, v: Option<Violation>)
      reads missingAttributeValues, invalidAttributeValues
    {
      (v != Some(MissingAttributeValue) ==> missingAttributeValues.order == missingValueTags) &&
      (v != Some(InvalidAttributeValue) ==> invalidAttributeValues.order == invalidValueTags)
    }

    /** The tags `getOffendingElements` lists, in its order. */
    ghost function OffendingElements(): (r: seq<Tag>)
      reads this, missingAttributes, missingAttributeValues, invalidAttributeValues
      requires Valid()
      ensures |r| == Count(State())
      ensures forall t :: t in r <==>
        t in missingAttributes[..] || t in missingAttributeValues.elements || t in invalidAttributeValues.elements
    {
      missingAttributes[..] + missingAttributeValues.Tags() + invalidAttributeValues.Tags()
    }

    constructor (attrs: Attributes, formatTag: Tag -> string)
      ensures Valid()
      ensures this.attrs == attrs && this.formatTag == formatTag
      ensures fresh(missingAttributes) && fresh(missingAttributeValues) && fresh(invalidAttributeValues)
      ensures State() == EmptyReport
    {
      this.attrs := attrs;
      this.formatTag := formatTag;
      missingAttributes := new Tag[0];
      missingAttributeValues := new Attributes();
      invalidAttributeValues := new Attributes();
      errorComment := None;
    }

    method GetType1String(tag: Tag, index: int, maxvm: int, enumvals: seq<string>) returns (r: Option<string>)
      requires Valid()
      requires attrs.GetStrings(tag).Some? ==> 0 <= index
      modifies this, missingAttributeValues, invalidAttributeValues
      ensures Valid()
      ensures r == StringResult(Type1, attrs.GetStrings(tag), index, None)
      ensures State() == Record(old(State()), attrs.elements, formatTag, tag,
                                 StringViolation(Type1, attrs.GetStrings(tag), index, maxvm, enumvals))
      ensures OrdersKept(old(missingAttributeValues.order), old(invalidAttributeValues.order),
                         StringViolation(Type1, attrs.GetStrings(tag), index, maxvm, enumvals))
      ensures missingAttributes == old(missingAttributes) || fresh(missingAttributes)
    {
      var ss := attrs.GetStrings(tag);
      if ss.None? {
        AddMissingAttribute(tag);
        return None;
      }
      if |ss.value| <= index {
        AddMissingAttributeValue(tag);
        return None;
      }
      if |ss.value| > maxvm {
        AddInvalidAttributeValue(tag);
      } else {
        CheckValue(tag, ss.value[index], enumvals);
      }
      return Some(ss.value[index]);
    }

    method GetType1Sequence(tag: Tag, maxSize: int) returns (r: Option<Element>)
      requires Valid()
      modifies this, missingAttributeValues, invalidAttributeValues
      ensures Valid()
      ensures r == SequenceResult(attrs.GetValue(tag), MinSize(Type1), maxSize)
      ensures State() == Record(old(State()), attrs.elements, formatTag, tag,
                                 SequenceViolation(attrs.GetValue(tag), MinSize(Type1), maxSize))
      ensures OrdersKept(old(missingAttributeValues.order), old(invalidAttributeValues.order),
                         SequenceViolation(attrs.GetValue(tag), MinSize(Type1), maxSize))
      ensures missingAttributes == old(missingAttributes) || fresh(missingAttributes)
    {
      r := GetSequence(tag, 1, maxSize);
    }

    method GetType2Sequence(tag: Tag, maxSize: int) returns (r: Option<Element>)
      requires Valid()
      modifies this, missingAttributeValues, invalidAttributeValues
      ensures Valid()
      ensures r == SequenceResult(attrs.GetValue(tag), MinSize(Type2), maxSize)
      ensures State() == Record(old(State()), attrs.elements, formatTag, tag,
                                 SequenceViolation(attrs.GetValue(tag), MinSize(Type2), maxSize))
      ensures OrdersKept(old(missingAttributeValues.order), old(invalidAttributeValues.order),
                         SequenceViolation(attrs.GetValue(tag), MinSize(Type2), maxSize))
      ensures missingAttributes == old(missingAttributes) || fresh(missingAttributes)
    {
      r := GetSequence(tag, 0, maxSize);
    }

    method GetType3Sequence(tag: Tag, maxSize: int) returns (r: Option<Element>)
      requires Valid()
      modifies this, missingAttributeValues, invalidAttributeValues
      ensures Valid()
      ensures r == SequenceResult(attrs.GetValue(tag), MinSize(Type3), maxSize)
      ensures State() == Record(old(State()), attrs.elements, formatTag, tag,
                                 SequenceViolation(attrs.GetValue(tag), MinSize(Type3), maxSize))
      ensures OrdersKept(old(missingAttributeValues.order), old(invalidAttributeValues.order),
                         SequenceViolation(attrs.GetValue(tag), MinSize(Type3), maxSize))
      ensures missingAttributes == old(missingAttributes) || fresh(missingAttributes)
    {
      r := GetSequence(tag, -1, maxSize);
    }

    method GetSequence(tag: Tag, minSize: int, maxSize: int) returns (r: Option<Element>)
      requires Valid()
      modifies this, missingAttributeValues, invalidAttributeValues
      ensures Valid()
      ensures r == SequenceResult(attrs.GetValue(tag), minSize, maxSize)
      ensures State() == Record(old(State()), attrs.elements, formatTag, tag,
                                 SequenceViolation(attrs.GetValue(tag), minSize, maxSize))
      ensures OrdersKept(old(missingAttributeValues.order), old(invalidAttributeValues.order),
                         SequenceViolation(attrs.GetValue(tag), minSize, maxSize))
      ensures missingAttributes == old(missingAttributes) || fresh(missingAttributes)
    {
      var value := attrs.GetValue(tag);
      if value.None? {
        if minSize >= 0 {
          AddMissingAttribute(tag);
        }
        return None;
      }
      if value.value.SequenceValue? || value.value.OtherValue? {
        if IsEmptyValue(value.value) {
          if minSize >= 0 {
            AddMissingAttributeValue(tag);
          }
          return None;
        }
        if value.value.SequenceValue? {
          var seqSize := value.value.size;
          if seqSize >= minSize && seqSize <= maxSize {
            return value;
          }
        }
      }
      AddInvalidAttributeValue(tag);
      return None;
    }

    method GetType2String(tag: Tag, index: int, maxvm: int, defval: Option<string>, enumvals: seq<string>)
      returns (r: Option<string>)
      requires Valid()
      requires attrs.GetStrings(tag).Some? ==> 0 <= index
      modifies this, missingAttributeValues, invalidAttributeValues
      ensures Valid()
      ensures r == StringResult(Type2, attrs.GetStrings(tag), index, defval)
      ensures State() == Record(old(State()), attrs.elements, formatTag, tag,
                                 StringViolation(Type2, attrs.GetStrings(tag), index, maxvm, enumvals))
      ensures OrdersKept(old(missingAttributeValues.order), old(invalidAttributeValues.order),
                         StringViolation(Type2, attrs.GetStrings(tag), index, maxvm, enumvals))
      ensures missingAttributes == old(missingAttributes) || fresh(missingAttributes)
    {
      var ss := attrs.GetStrings(tag);
      if ss.None? {
        AddMissingAttribute(tag);
        return defval;
      }
      if |ss.value| <= index {
        return defval;
      }
      if |ss.value| > maxvm {
        AddInvalidAttributeValue(tag);
      } else {
        CheckValue(tag, ss.value[index], enumvals);
      }
      return Some(ss.value[index]);
    }

    method GetType3String(tag: Tag, index: int, maxvm: int, defval: Option<string>, enumvals: seq<string>)
      returns (r: Option<string>)
      requires Valid()
      requires attrs.GetStrings(tag).Some? ==> 0 <= index
      modifies this, missingAttributeValues, invalidAttributeValues
      ensures Valid()
      ensures r == StringResult(Type3, attrs.GetStrings(tag), index, defval)
      ensures State() == Record(old(State()), attrs.elements, formatTag, tag,
                                 StringViolation(Type3, attrs.GetStrings(tag), index, maxvm, enumvals))
      ensures OrdersKept(old(missingAttributeValues.order), old(invalidAttributeValues.order),
                         StringViolation(Type3, attrs.GetStrings(tag), index, maxvm, enumvals))
      ensures missingAttributes == old(missingAttributes) || fresh(missingAttributes)
    {
      var ss := attrs.GetStrings(tag);
      if ss.None? || |ss.value| <= index {
        return defval;
      }
      if |ss.value| > maxvm {
        AddInvalidAttributeValue(tag);
      } else {
        CheckValue(tag, ss.value[index], enumvals);
      }
      return Some(ss.value[index]);
    }

    /** Flags `s` as invalid unless `enumvals` is empty or lists it. */
    method CheckValue(tag: Tag, s: string, enumvals: seq<string>)
      requires Valid()
      modifies this, invalidAttributeValues
      ensures Valid()
      ensures State() == Record(old(State()), attrs.elements, formatTag, tag,
                                 if enumvals != [] && s !in enumvals then Some(InvalidAttributeValue) else None)
      ensures missingAttributeValues.order == old(missingAttributeValues.order)
      ensures enumvals == [] || s in enumvals ==> invalidAttributeValues.order == old(invalidAttributeValues.order)
      ensures missingAttributes == old(missingAttributes)
    {
      if |enumvals| > 0 {
        for i := 0 to |enumvals|
          invariant forall k :: 0 <= k < i ==> enumvals[k] != s
        {
          if s == enumvals[i] {
            return;
          }
        }
        AddInvalidAttributeValue(tag);
      }
    }

    /** `Arrays.copyOf(tags, tags.length + 1)` with `tag` in the new last slot. */
    static method AddTo(tags: array<Tag>, tag: Tag) returns (newTags: array<Tag>)
      ensures fresh(newTags)
      ensures newTags[..] == tags[..] + [tag]
    {
      newTags := new Tag[tags.Length + 1];
      for i := 0 to tags.Length
        invariant newTags[..i] == tags[..i]
      {
        newTags[i] := tags[i];
      }
      newTags[tags.Length] := tag;
    }

    method AddMissingAttribute(tag: Tag)
      requires Valid()
      modifies this
      ensures Valid()
      ensures State() == Record(old(State()), attrs.elements, formatTag, tag, Some(MissingAttribute))
      ensures fresh(missingAttributes)
    {
      missingAttributes := AddTo(missingAttributes, tag);
      SetErrorComment(Prompt(MissingAttribute), tag);
    }

    method AddMissingAttributeValue(tag: Tag)
      requires Valid()
      modifies this, missingAttributeValues
      ensures Valid()
      ensures State() == Record(old(State()), attrs.elements, formatTag, tag, Some(MissingAttributeValue))
      ensures invalidAttributeValues.order == old(invalidAttributeValues.order)
      ensures missingAttributes == old(missingAttributes)
    {
      missingAttributeValues.AddSelected(attrs, tag);
      SetErrorComment(Prompt(MissingAttributeValue), tag);
    }

    method AddInvalidAttributeValue(tag: Tag)
      requires Valid()
      modifies this, invalidAttributeValues
      ensures Valid()
      ensures State() == Record(old(State()), attrs.elements, formatTag, tag, Some(InvalidAttributeValue))
      ensures missingAttributeValues.order == old(missingAttributeValues.order)
      ensures missingAttributes == old(missingAttributes)
    {
      invalidAttributeValues.AddSelected(attrs, tag);
      SetErrorComment(Prompt(InvalidAttributeValue), tag);
    }

    /** Replaces the error comment; the accumulators are untouched. */
    method SetErrorComment(prompt: string, tag: Tag)
      modifies this`errorComment
      ensures errorComment == Some(prompt + formatTag(tag))
    {
      errorComment := Some(prompt + formatTag(tag));
    }

    function HasMissingAttributes(): (b: bool)
      reads this, missingAttributes, missingAttributeValues, invalidAttributeValues
      ensures b <==> State().missingAttributes != []
    {
      missingAttributes.Length > 0
    }

    function HasMissingAttributeValues(): (b: bool)
      reads this, missingAttributes, missingAttributeValues, invalidAttributeValues
      requires Valid()
      ensures b <==> State().missingAttributeValues != map[]
    {
      !missingAttributeValues.IsEmpty()
    }

    function HasInvalidAttributeValues(): (b: bool)
      reads this, missingAttributes, missingAttributeValues, invalidAttributeValues
      requires Valid()
      ensures b <==> State().invalidAttributeValues != map[]
    {
      !invalidAttributeValues.IsEmpty()
    }

    /** True exactly when `getOffendingElements` would list something. */
    function HasOffendingElements(): (b: bool)
      reads this, missingAttributes, missingAttributeValues, invalidAttributeValues
      requires Valid()
      ensures b <==> Count(State()) > 0
      ensures b <==> OffendingElements() != []
    {
      HasMissingAttributes() || HasMissingAttributeValues() || HasInvalidAttributeValues()
    }

    /** The most recent violation's description; set whenever anything has been recorded. */
    function GetErrorComment(): (c: Option<string>)
      reads this, missingAttributes, missingAttributeValues, invalidAttributeValues
      requires Valid()
      ensures HasOffendingElements() ==> c.Some?
    {
      errorComment
    }

    /**
     * The missing tags in recorded order, then the tags of the missing-value
     * accumulator, then those of the invalid-value accumulator.
     */
    method GetOffendingElements() returns (invalid: array<Tag>)
      requires Valid()
      ensures fresh(invalid)
      ensures invalid[..] == OffendingElements()
      ensures invalid.Length == missingAttributes.Length + |missingAttributeValues.elements|
                                + |invalidAttributeValues.elements|
    {
      var mvTags := missingAttributeValues.Tags();
      var ivTags := invalidAttributeValues.Tags();
      var n := missingAttributes.Length;
      ghost var missing := missingAttributes[..];
      invalid := new Tag[n + missingAttributeValues.Size() + invalidAttributeValues.Size()];
      ghost var all := missing + mvTags + ivTags;
      var i := 0;
      for k := 0 to n
        invariant i == k
        invariant forall j :: 0 <= j < i ==> invalid[j] == all[j]
      {
        invalid[i] := missingAttributes[k];
        i := i + 1;
      }
      for k := 0 to |mvTags|
        invariant i == n + k
        invariant forall j :: 0 <= j < i ==> invalid[j] == all[j]
      {
        invalid[i] := mvTags[k];
        i := i + 1;
      }
      for k := 0 to |ivTags|
        invariant i == n + |mvTags| + k
        invariant forall j :: 0 <= j < i ==> invalid[j] == all[j]
      {
        invalid[i] := ivTags[k];
        i := i + 1;
      }
      assert invalid[..] == all;
    }
  }

  /**
   * A client: Patient's Name (0010,0010) is absent and Modality (0008,0060)
   * holds two values where one is allowed. Both are reported, absent tags
   * first, and the over-long Modality still yields its first value.
   */
  method ModalityScenario(formatTag: Tag -> string)
  {
    var patientName: Tag := 0x0010_0010;
    var modality: Tag := 0x0008_0060;
    var attrs := new Attributes();
    attrs.elements := map[modality := StringValues(["CT", "MR"])];
    var validator := new AttributesValidator(attrs, formatTag);
    var name := validator.GetType1String(patientName, 0, 1, ["CT", "MR", "CR"]);
    assert name.None?;
    var value := validator.GetType1String(modality, 0, 1, ["CT", "MR", "CR"]);
    assert value == Some("CT");
    assert validator.State().missingAttributes == [patientName];
    assert validator.State().missingAttributeValues == map[];
    assert validator.State().invalidAttributeValues.Keys == {modality};
    var offending := ListOffending(validator, patientName, modality);
    assert offending == [patientName, modality];
  }

  /** The report of a validator that recorded one absent tag and one invalid tag. */
  method ListOffending(validator: AttributesValidator, absent: Tag, invalid: Tag) returns (offending: seq<Tag>)
    requires validator.Valid()
    requires validator.State().missingAttributes == [absent]
    requires validator.State().missingAttributeValues == map[]
    requires validator.State().invalidAttributeValues.Keys == {invalid}
    ensures offending == [absent, invalid]
  {
    assert validator.missingAttributeValues.Tags() == [];
    assert validator.invalidAttributeValues.Tags() == [invalid] by {
      var ts := validator.invalidAttributeValues.Tags();
      assert |ts| == 1 && ts[0] in validator.invalidAttributeValues.elements;
    }
    var elements := validator.GetOffendingElements();
    offending := elements[..];
  }
}
