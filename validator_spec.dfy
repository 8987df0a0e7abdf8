/**
 * What one check of the attribute conformance validator decides, as pure
 * functions. A check classifies one element into exactly one outcome
 * (absent, present without the requested value, invalid, or acceptable)
 * and the validator records at most one violation for it.
 *
 * The presence types are those of DICOM PS3.5, section 7.4: Type 1 must be
 * present with a value, Type 2 must be present but may be empty, Type 3 may
 * be absent.
 */
module ValidatorSpec {
  import opened Wrappers
  import opened Data

  datatype PresenceType = Type1 | Type2 | Type3

  datatype Violation = MissingAttribute | MissingAttributeValue | InvalidAttributeValue

  /**
   * The observable state of a validator: the missing tags in the order they
   * were recorded, the contents of the two value accumulators, and the
   * last error comment (`null` before the first violation).
   */
  datatype Report = Report(
    missingAttributes: seq<Tag>,
    missingAttributeValues: map<Tag, Element>,
    invalidAttributeValues: map<Tag, Element>,
    errorComment: Option<string>)

  const EmptyReport := Report([], map[], map[], None)

  /** The number of offending elements the report lists. */
  function Count(r: Report): nat {
    |r.missingAttributes| + |r.missingAttributeValues| + |r.invalidAttributeValues|
  }

  /** A report that lists an offending element also carries an error comment. */
  predicate Commented(r: Report) {
    Count(r) > 0 ==> r.errorComment.Some?
  }

  /** Every element in the two value accumulators is the wrapped set's element under that tag. */
  predicate CopiedFrom(r: Report, attrs: map<Tag, Element>) {
    (forall t :: t in r.missingAttributeValues ==> t in attrs && r.missingAttributeValues[t] == attrs[t]) &&
    (forall t :: t in r.invalidAttributeValues ==> t in attrs && r.invalidAttributeValues[t] == attrs[t])
  }

  /** The fixed text that precedes the formatted tag in an error comment. */
  function Prompt(v: Violation): string {
    match v
    case MissingAttribute => "Missing Attribute "
    case MissingAttributeValue => "Missing Attribute Value of "
    case InvalidAttributeValue => "Invalid Attribute Value of "
  }

  /**
   * The report after recording `v` (if any) for `tag`, where `attrs` is the
   * wrapped set's contents. Each violation goes to its own accumulator and
   * replaces the error comment; nothing else changes.
   */
  function Record(r: Report, attrs: map<Tag, Element>, formatTag: Tag -> string, tag: Tag, v: Option<Violation>): (r': Report)
    ensures v.None? ==> r' == r
    ensures v.Some? ==> r'.errorComment == Some(Prompt(v.value) + formatTag(tag))
    ensures r'.missingAttributes == r.missingAttributes + (if v == Some(MissingAttribute) then [tag] else [])
    ensures v != Some(MissingAttributeValue) ==> r'.missingAttributeValues == r.missingAttributeValues
    ensures v != Some(InvalidAttributeValue) ==> r'.invalidAttributeValues == r.invalidAttributeValues
    ensures Count(r) <= Count(r') <= Count(r) + 1
    ensures Commented(r) ==> Commented(r')
    ensures CopiedFrom(r, attrs) ==> CopiedFrom(r', attrs)
  {
    match v
    case None => r
    case Some(MissingAttribute) =>
      r.(missingAttributes := r.missingAttributes + [tag],
         errorComment := Some(Prompt(MissingAttribute) + formatTag(tag)))
    case Some(MissingAttributeValue) =>
      r.(missingAttributeValues := Selected(r.missingAttributeValues, attrs, tag),
         errorComment := Some(Prompt(MissingAttributeValue) + formatTag(tag)))
    case Some(InvalidAttributeValue) =>
      r.(invalidAttributeValues := Selected(r.invalidAttributeValues, attrs, tag),
         errorComment := Some(Prompt(InvalidAttributeValue) + formatTag(tag)))
  }

  /**
   * The violation a string check of type `t` records, given what `getStrings`
   * returned. The value multiplicity is checked before the enumeration, and
   * the enumeration only when it is non-empty. The index is only used when
   * there are string values; a negative one then makes the Java throw, so
   * it is excluded only in that case.
   */
  function StringViolation(t: PresenceType, ss: Option<seq<string>>, index: int, maxvm: int, enumvals: seq<string>): (v: Option<Violation>)
    requires ss.Some? ==> 0 <= index
    ensures v == Some(MissingAttribute) <==> ss.None? && t != Type3
    ensures v == Some(MissingAttributeValue) <==> ss.Some? && |ss.value| <= index && t == Type1
    ensures v == Some(InvalidAttributeValue) <==>
      ss.Some? && index < |ss.value| &&
      (|ss.value| > maxvm || (enumvals != [] && ss.value[index] !in enumvals))
  {
    match ss
    case None => if t == Type3 then None else Some(MissingAttribute)
    case Some(values) =>
      if |values| <= index then
        if t == Type1 then Some(MissingAttributeValue) else None
      else if |values| > maxvm then Some(InvalidAttributeValue)
      else if enumvals != [] && values[index] !in enumvals then Some(InvalidAttributeValue)
      else None
  }

  /**
   * What a string check of type `t` returns: the requested value whenever
   * there is one, whether or not it was flagged as invalid; otherwise
   * `defval` (`null` for Type 1, which takes no default).
   */
  function StringResult(t: PresenceType, ss: Option<seq<string>>, index: int, defval: Option<string>): (r: Option<string>)
    requires ss.Some? ==> 0 <= index
    requires t == Type1 ==> defval.None?
    ensures ss.Some? && index < |ss.value| ==> r == Some(ss.value[index])
    ensures !(ss.Some? && index < |ss.value|) ==> r == defval
  {
    match ss
    case Some(values) => if index < |values| then Some(values[index]) else defval
    case None => defval
  }

  /** The `minSize` each sequence check passes: 1, 0 and -1 for Types 1, 2 and 3. */
  function MinSize(t: PresenceType): int {
    match t
    case Type1 => 1
    case Type2 => 0
    case Type3 => -1
  }

  /**
   * The violation a sequence check records for the value `getValue` returned.
   * A negative `minSize` makes absence and emptiness acceptable; everything
   * other than a non-empty `Sequence` whose size lies in `[minSize, maxSize]`
   * is invalid.
   */
  function SequenceViolation(v: Option<Element>, minSize: int, maxSize: int): (r: Option<Violation>)
    ensures r == Some(MissingAttribute) <==> v.None? && minSize >= 0
    ensures r == Some(MissingAttributeValue) <==> v.Some? && IsEmptyValue(v.value) && minSize >= 0
    ensures r == Some(InvalidAttributeValue) <==>
      v.Some? && !IsEmptyValue(v.value) &&
      !(v.value.SequenceValue? && minSize <= v.value.size <= maxSize)
  {
    match v
    case None => if minSize >= 0 then Some(MissingAttribute) else None
    case Some(e) =>
      if IsEmptyValue(e) then
        if minSize >= 0 then Some(MissingAttributeValue) else None
      else if e.SequenceValue? && minSize <= e.size <= maxSize then None
      else Some(InvalidAttributeValue)
  }

  /** What a sequence check returns: the sequence when it is acceptable, otherwise `null`. */
  function SequenceResult(v: Option<Element>, minSize: int, maxSize: int): (r: Option<Element>)
    ensures r.Some? <==> v.Some? && v.value.SequenceValue? && 1 <= v.value.size && minSize <= v.value.size <= maxSize
    ensures r.Some? ==> r == v && SequenceViolation(v, minSize, maxSize).None?
  {
    match v
    case Some(SequenceValue(n)) => if n != 0 && minSize <= n <= maxSize then v else None
    case _ => None
  }

  /**
   * Type 1 and Type 2 sequence checks behave alike: emptiness is decided
   * before the size range, so a lower bound of 1 or of 0 never decides.
   */
  lemma Type1AndType2SequencesAgree(v: Option<Element>, maxSize: int)
    ensures SequenceViolation(v, MinSize(Type1), maxSize) == SequenceViolation(v, MinSize(Type2), maxSize)
    ensures SequenceResult(v, MinSize(Type1), maxSize) == SequenceResult(v, MinSize(Type2), maxSize)
  {
  }
}
