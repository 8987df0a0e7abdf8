# dcm4che attribute conformance validator, in Dafny

A model of `org.dcm4che.util.AttributesValidator` from dcm4che. The validator
wraps one DICOM attribute set. It checks single elements against the presence
types of DICOM PS3.5 section 7.4:

- Type 1: present with a value.
- Type 2: present, possibly empty.
- Type 3: optional.

A check also tests the value multiplicity, an optional list of enumerated
values, or the size of a sequence. Violations are never thrown. They are
recorded in three accumulators:

- the tags of absent elements, in an `int[]` that grows by copying;
- the missing-value elements, copied into an `Attributes` set;
- the invalid-value elements, copied into an `Attributes` set.

Each recorded violation also replaces a single error comment.

Files:

- `wrappers.dfy`: `Option`, standing for Java's `null`.
- `attributes.dfy` (module `Data`): tags (32-bit), element values, and the
  `Attributes` container as a class. Its contents are a map. Its key order is
  a sequence.
- `validator_spec.dfy` (module `ValidatorSpec`): the state of a validator as a
  `Report` value, and what one check decides, per presence type:
  - `StringViolation` and `StringResult` for string checks;
  - `SequenceViolation` and `SequenceResult` for sequence checks;
  - `Record`, for how a violation changes the report.
- `validator.dfy` (module `Util`): the class `AttributesValidator`, written
  imperatively like the Java. Every method ties the new state to `Record`
  applied to the old state. The enumeration loop of `checkValue`, the array
  copy of `addTo` and the three filling loops of `getOffendingElements` are
  loops with invariants. The closing client `ModalityScenario` shows how the
  contracts are used.
- `validation_pass.dfy` (module `ValidationPass`): a caller's pass of many
  checks as a fold (`Run`). Lemmas about it, by induction:
  - accumulators only grow;
  - missing tags come in check order;
  - at most one offending element is added per check;
  - the accumulators hold the wrapped set's own elements;
  - the report ends empty exactly when every check passed.

Behaviour worth knowing, all following the Java:

- A string check reads `getStrings`, which is `null` for an element that
  holds a sequence or another non-string value. So a Type 1 or Type 2 string
  check on such an element records "Missing Attribute", although the tag is
  present.
- In a sequence check, emptiness is tested before the size range. So Type 1
  (`minSize` 1) and Type 2 (`minSize` 0) behave identically, and an empty
  Type 2 sequence is reported as a missing value
  (`Type1AndType2SequencesAgree`).
- When a multiplicity or enumeration check fails, the offending value is
  still returned.

Helpers without a row of their own:

- `Data.GetValue` models `attrs.getValue(tag)` (dcm4che-core/src/main/java/org/dcm4che/util/AttributesValidator.java:100).
- `Data.GetStrings` models `attrs.getStrings(tag)` (dcm4che-core/src/main/java/org/dcm4che/util/AttributesValidator.java:71, 125, 141).
- `Data.IsEmptyValue` models the test `value instanceof Value && ((Value) value).isEmpty()` (dcm4che-core/src/main/java/org/dcm4che/util/AttributesValidator.java:106-107).
- `ValidatorSpec.Prompt` holds the three comment prefixes (dcm4che-core/src/main/java/org/dcm4che/util/AttributesValidator.java:168, 173, 178).
- `ValidatorSpec.MinSize` holds the `minSize` constants 1, 0 and -1 (dcm4che-core/src/main/java/org/dcm4che/util/AttributesValidator.java:88, 92, 96).
- `Util.AttributesValidator.OrdersKept` states that a call leaves the key order of each value accumulator it does not record into unchanged.

## Model

| member | source | states |
|---|---|---|
| `Data.Selected` | dcm4che-core/src/main/java/org/dcm4che/util/AttributesValidator.java:171-179 | `addSelected(attrs, null, tag)` on contents: after the copy, the accumulator holds the wrapped set's element under `tag` (if there is one); every other entry is kept; it grows by at most one element |
| `Data.Attributes.Size` | dcm4che-core/src/main/java/org/dcm4che/util/AttributesValidator.java:216-218 | `size()` is the number of distinct elements held, although it is computed from the key sequence |
| `Data.Attributes.IsEmpty` | dcm4che-core/src/main/java/org/dcm4che/util/AttributesValidator.java:201-207 | `isEmpty()` holds exactly when the set holds no element |
| `Data.Attributes.Tags` | dcm4che-core/src/main/java/org/dcm4che/util/AttributesValidator.java:222-225 | `tags()` lists every held tag exactly once, and nothing else |
| `Data.Attributes.AddSelected` | dcm4che-core/src/main/java/org/dcm4che/util/AttributesValidator.java:172 | the accumulator's contents become `Selected` of the old contents and the source's; when the source lacks the tag, `tags()` is unchanged; the container's invariant is kept |
| `ValidatorSpec.Record` | dcm4che-core/src/main/java/org/dcm4che/util/AttributesValidator.java:166-183 | recording a violation appends to `missingAttributes` only for a missing attribute and changes only its own accumulator; it sets the comment to the kind's prompt plus the formatted tag; it adds at most one offending element; it keeps "something listed implies a comment" and "value accumulators hold the wrapped set's elements" |
| `ValidatorSpec.StringViolation` | dcm4che-core/src/main/java/org/dcm4che/util/AttributesValidator.java:69-158 | per presence type: missing attribute iff `getStrings` is null and the type is not 3; missing value iff too few values and Type 1; invalid iff the index is in range and either the multiplicity exceeds `maxvm` or a non-empty enumeration lacks the value |
| `ValidatorSpec.StringResult` | dcm4che-core/src/main/java/org/dcm4che/util/AttributesValidator.java:69-149 | a string check returns `ss[index]` whenever the index is in range, even when the value was flagged invalid; otherwise it returns the default (`null` for Type 1) |
| `ValidatorSpec.SequenceViolation` | dcm4che-core/src/main/java/org/dcm4che/util/AttributesValidator.java:99-121 | missing attribute iff absent and `minSize >= 0`; missing value iff an empty `Value` and `minSize >= 0`; invalid iff a non-empty value that is not a `Sequence` with size in `[minSize, maxSize]` |
| `ValidatorSpec.SequenceResult` | dcm4che-core/src/main/java/org/dcm4che/util/AttributesValidator.java:99-121 | the sequence is returned exactly when it is non-empty and its size lies in `[minSize, maxSize]`, and then nothing is recorded; otherwise `null` |
| `ValidatorSpec.Type1AndType2SequencesAgree` | dcm4che-core/src/main/java/org/dcm4che/util/AttributesValidator.java:87-121 | Type 1 and Type 2 sequence checks record the same violation and return the same result for every value and `maxSize` |
| `Util.AttributesValidator.constructor` | dcm4che-core/src/main/java/org/dcm4che/util/AttributesValidator.java:53-63 | the validator wraps the given set; all three accumulators are empty and there is no comment; the `missingAttributes` array and the two value accumulators are new objects |
| `Util.AttributesValidator.OffendingElements` | dcm4che-core/src/main/java/org/dcm4che/util/AttributesValidator.java:215-228 | the offending list has one entry per missing tag and per element of each value accumulator; a tag is on it iff it is in one of the three accumulators |
| `Util.AttributesValidator.GetType1String` | dcm4che-core/src/main/java/org/dcm4che/util/AttributesValidator.java:69-85 | returns `StringResult` for Type 1; the new state is `Record` of the old state with `StringViolation` for Type 1; an accumulator not recorded into keeps its tag order; the index may be negative unless string values are present (where the Java throws) |
| `Util.AttributesValidator.GetType2String` | dcm4che-core/src/main/java/org/dcm4che/util/AttributesValidator.java:123-137 | the same for Type 2, with the caller's default |
| `Util.AttributesValidator.GetType3String` | dcm4che-core/src/main/java/org/dcm4che/util/AttributesValidator.java:139-149 | the same for Type 3, with the caller's default |
| `Util.AttributesValidator.GetType1Sequence` | dcm4che-core/src/main/java/org/dcm4che/util/AttributesValidator.java:87-89 | returns `SequenceResult` with `minSize` 1; the new state is `Record` of the old state with `SequenceViolation`; an accumulator not recorded into keeps its tag order |
| `Util.AttributesValidator.GetType2Sequence` | dcm4che-core/src/main/java/org/dcm4che/util/AttributesValidator.java:91-93 | the same with `minSize` 0 |
| `Util.AttributesValidator.GetType3Sequence` | dcm4che-core/src/main/java/org/dcm4che/util/AttributesValidator.java:95-97 | the same with `minSize` -1 |
| `Util.AttributesValidator.GetSequence` | dcm4che-core/src/main/java/org/dcm4che/util/AttributesValidator.java:99-121 | for any `minSize` and `maxSize`, returns `SequenceResult`; the new state is `Record` of the old state with `SequenceViolation`; an accumulator not recorded into keeps its tag order |
| `Util.AttributesValidator.CheckValue` | dcm4che-core/src/main/java/org/dcm4che/util/AttributesValidator.java:151-158 | records an invalid value iff the enumeration is non-empty and does not contain the value; otherwise the state and both accumulators' tag orders are unchanged |
| `Util.AttributesValidator.AddTo` | dcm4che-core/src/main/java/org/dcm4che/util/AttributesValidator.java:160-164 | the new array is newly allocated and holds the old contents with `tag` appended |
| `Util.AttributesValidator.AddMissingAttribute` | dcm4che-core/src/main/java/org/dcm4che/util/AttributesValidator.java:166-169 | the new state is `Record` of the old state with a missing attribute; `missingAttributes` is a newly allocated array |
| `Util.AttributesValidator.AddMissingAttributeValue` | dcm4che-core/src/main/java/org/dcm4che/util/AttributesValidator.java:171-174 | the new state is `Record` of the old state with a missing value; the invalid-value accumulator's tag order and the `missingAttributes` array are untouched |
| `Util.AttributesValidator.AddInvalidAttributeValue` | dcm4che-core/src/main/java/org/dcm4che/util/AttributesValidator.java:176-179 | the new state is `Record` of the old state with an invalid value; the missing-value accumulator's tag order and the `missingAttributes` array are untouched (the Java spells it `addInvalidAttribueValue`) |
| `Util.AttributesValidator.SetErrorComment` | dcm4che-core/src/main/java/org/dcm4che/util/AttributesValidator.java:181-183 | the comment becomes the prompt followed by the formatted tag; nothing else changes |
| `Util.AttributesValidator.HasMissingAttributes` | dcm4che-core/src/main/java/org/dcm4che/util/AttributesValidator.java:197-199 | true iff some missing tag is recorded |
| `Util.AttributesValidator.HasMissingAttributeValues` | dcm4che-core/src/main/java/org/dcm4che/util/AttributesValidator.java:201-203 | true iff the missing-value accumulator holds an element |
| `Util.AttributesValidator.HasInvalidAttributeValues` | dcm4che-core/src/main/java/org/dcm4che/util/AttributesValidator.java:205-207 | true iff the invalid-value accumulator holds an element |
| `Util.AttributesValidator.HasOffendingElements` | dcm4che-core/src/main/java/org/dcm4che/util/AttributesValidator.java:209-213 | true iff the offending count is positive, iff the list `getOffendingElements` returns is non-empty |
| `Util.AttributesValidator.GetErrorComment` | dcm4che-core/src/main/java/org/dcm4che/util/AttributesValidator.java:230-232 | once any offending element is recorded, the comment is not null |
| `Util.AttributesValidator.GetOffendingElements` | dcm4che-core/src/main/java/org/dcm4che/util/AttributesValidator.java:215-228 | returns a newly allocated array: the missing tags in recorded order, then the missing-value tags, then the invalid-value tags; its length is `missingAttributes.length` plus the sizes of the two accumulators |
| `ValidationPass.Verdict` | dcm4che-core/src/main/java/org/dcm4che/util/AttributesValidator.java:69-158 | a check that records a missing value or an invalid value is about a tag present in the wrapped set |
| `ValidationPass.RunMissingInOrder` | dcm4che-core/src/main/java/org/dcm4che/util/AttributesValidator.java:160-169 | after any sequence of checks, `missingAttributes` is its old contents followed by the absent tags, in check order and with repeats |
| `ValidationPass.RunOnlyGrows` | dcm4che-core/src/main/java/org/dcm4che/util/AttributesValidator.java:166-179 | after any sequence of checks, each accumulator only grows (`missingAttributes` keeps its old contents as a prefix) and the offending count rises by at most one per check |
| `ValidationPass.RunKeepsInvariants` | dcm4che-core/src/main/java/org/dcm4che/util/AttributesValidator.java:171-183 | after any sequence of checks, the value accumulators hold the wrapped set's elements verbatim, and a listed offending element always comes with an error comment |
| `ValidationPass.RunCleanIff` | dcm4che-core/src/main/java/org/dcm4che/util/AttributesValidator.java:209-228 | a pass ends with nothing offending iff it started with nothing offending and every check in it passed |

## Left out

- `Xml2Dcm` (the xml2dcm command-line tool) is not part of this model. It does not use the validator, and it is made of option parsing, XML parsing and DICOM stream I/O.
- Getters: `getAttributes`, `getMissingAttributes`, `getMissingAttributeValues` and `getInvalidAttributeValues` return fields. The model reads those fields directly.
- The constructor's `NullPointerException` is not modelled. Dafny's non-null reference type for the wrapped set stands in for it.
- `TagUtils.toString` is not modelled. The validator takes the formatter as the constructor parameter `formatTag`: an opaque, deterministic function from tag to string.
- Negative index with string values present: the string checks require `index >= 0` only when `getStrings` returns an array. There the Java throws `ArrayIndexOutOfBoundsException` at `ss[index]`, after first recording an invalid value when the multiplicity is too large. That exception path is not modelled. For an absent or non-string element, a negative index is accepted and behaves as in the Java. `ValidationPass.Check` keeps `index` a `nat`; for those elements the verdict does not depend on the index.
- Other integers: `maxvm`, `minSize` and `maxSize` are unbounded integers, which compare as Java's `int` do for every `int` value. The overflow of `length + 1` in `addTo` at the maximum array length is not modelled.
- Null strings: strings are never `null` in the model. In the Java, a `null` value at `ss[index]` throws `NullPointerException` in `checkValue` when `enumvals` is non-empty. A `null` `enumvals` array throws there too. A `null` entry inside `enumvals` matches nothing, because `s.equals(null)` is false, and the model cannot express such an entry. None of these paths is modelled.
- Data.Attributes.AddSelected: does not state where a newly copied tag appears in `tags()`. The library's `Attributes` decides that, and it is not part of this model. The contract says that `tags()` lists each held tag once, and that it is unchanged when the source lacks the tag.
- The internals of `Attributes`, `Sequence` and `Value` are not modelled. That covers private creators, deep copies of nested sequences, and how an element with no value is stored (`Value` empty, or an empty string array). Elements are abstracted as: string values, a `Sequence` of a given size, another `Value` that may be empty, or another object.
- Duplicate tags: a value accumulator is modelled as a map. Recording the same tag twice therefore keeps one entry, holding the wrapped set's element. Whether the library's `Attributes` keeps duplicates is not part of this model. `missingAttributes` does keep repeats, as the Java appends unconditionally.
- Thread safety is out of scope: the validator is single-threaded.
