/**
 * A validation pass: a caller runs one check per attribute of interest, in
 * order, against one wrapped set. These lemmas state what the accumulated
 * report says after any such sequence of checks.
 */
module ValidationPass {
  import opened Wrappers
  import opened Data
  import opened ValidatorSpec

  /** One call of a `getTypeNString` or `getTypeNSequence` check. */
  datatype Check =
    | StringCheck(t: PresenceType, tag: Tag, index: nat, maxvm: int, enumvals: seq<string>)
    | SequenceCheck(t: PresenceType, tag: Tag, maxSize: int)

  /** The violation the check records against the wrapped set's contents `attrs`. */
  function Verdict(attrs: map<Tag, Element>, c: Check): (v: Option<Violation>)
    ensures v.Some? && v != Some(MissingAttribute) ==> c.tag in attrs
  {
    match c
    case StringCheck(t, tag, index, maxvm, enumvals) =>
      StringViolation(t, StringsOf(Lookup(attrs, tag)), index, maxvm, enumvals)
    case SequenceCheck(t, tag, maxSize) =>
      SequenceViolation(Lookup(attrs, tag), MinSize(t), maxSize)
  }

  /** The report after running `checks` in order, starting from `r`. */
  function Run(attrs: map<Tag, Element>, formatTag: Tag -> string, r: Report, checks: seq<Check>): Report
    decreases |checks|
  {
    if checks == [] then r
    else Run(attrs, formatTag, Record(r, attrs, formatTag, checks[0].tag, Verdict(attrs, checks[0])), checks[1..])
  }

  /** The tags of the checks that found their element absent, in check order. */
  function MissingTags(attrs: map<Tag, Element>, checks: seq<Check>): seq<Tag>
    decreases |checks|
  {
    if checks == [] then []
    else (if Verdict(attrs, checks[0]) == Some(MissingAttribute) then [checks[0].tag] else [])
         + MissingTags(attrs, checks[1..])
  }

  /** Regrouping a concatenation, proved apart from the larger contexts that use it. */
  lemma AppendAssociates(a: seq<Tag>, b: seq<Tag>, c: seq<Tag>)
    ensures (a + b) + c == a + (b + c)
  {
  }

  /** `missingAttributes` grows by exactly the absent tags, in the order they were checked. */
  lemma {:induction false} RunMissingInOrder(attrs: map<Tag, Element>, formatTag: Tag -> string, r: Report, checks: seq<Check>)
    ensures Run(attrs, formatTag, r, checks).missingAttributes == r.missingAttributes + MissingTags(attrs, checks)
    decreases |checks|
  {
    if checks != [] {
      var v := Verdict(attrs, checks[0]);
      var head := if v == Some(MissingAttribute) then [checks[0].tag] else [];
      var r1 := Record(r, attrs, formatTag, checks[0].tag, v);
      assert r1.missingAttributes == r.missingAttributes + head;
      assert MissingTags(attrs, checks) == head + MissingTags(attrs, checks[1..]);
      RunMissingInOrder(attrs, formatTag, r1, checks[1..]);
      assert Run(attrs, formatTag, r, checks) == Run(attrs, formatTag, r1, checks[1..]);
      AppendAssociates(r.missingAttributes, head, MissingTags(attrs, checks[1..]));
    } else {
      assert MissingTags(attrs, checks) == [];
    }
  }

  /** The accumulators only grow, by at most one offending element per check. */
  lemma {:induction false} RunOnlyGrows(attrs: map<Tag, Element>, formatTag: Tag -> string, r: Report, checks: seq<Check>)
    ensures var r' := Run(attrs, formatTag, r, checks);
      r.missingAttributes <= r'.missingAttributes &&
      r.missingAttributeValues.Keys <= r'.missingAttributeValues.Keys &&
      r.invalidAttributeValues.Keys <= r'.invalidAttributeValues.Keys &&
      Count(r) <= Count(r') <= Count(r) + |checks|
    decreases |checks|
  {
    if checks != [] {
      var r1 := Record(r, attrs, formatTag, checks[0].tag, Verdict(attrs, checks[0]));
      RunOnlyGrows(attrs, formatTag, r1, checks[1..]);
    }
  }

  /**
   * Whatever the checks, the value accumulators hold the wrapped set's own
   * elements, and an offending element never comes without an error comment.
   */
  lemma {:induction false} RunKeepsInvariants(attrs: map<Tag, Element>, formatTag: Tag -> string, r: Report, checks: seq<Check>)
    requires Commented(r) && CopiedFrom(r, attrs)
    ensures Commented(Run(attrs, formatTag, r, checks))
    ensures CopiedFrom(Run(attrs, formatTag, r, checks), attrs)
    decreases |checks|
  {
    if checks != [] {
      var r1 := Record(r, attrs, formatTag, checks[0].tag, Verdict(attrs, checks[0]));
      RunKeepsInvariants(attrs, formatTag, r1, checks[1..]);
    }
  }

  /**
   * A pass from an empty report ends with no offending element exactly when
   * every check passed: violations are never lost, and nothing is listed
   * without one.
   */
  lemma {:induction false} RunCleanIff(attrs: map<Tag, Element>, formatTag: Tag -> string, r: Report, checks: seq<Check>)
    ensures Count(Run(attrs, formatTag, r, checks)) == 0 <==>
      Count(r) == 0 && forall i :: 0 <= i < |checks| ==> Verdict(attrs, checks[i]).None?
    decreases |checks|
  {
    if checks != [] {
      var v := Verdict(attrs, checks[0]);
      var r1 := Record(r, attrs, formatTag, checks[0].tag, v);
      RunCleanIff(attrs, formatTag, r1, checks[1..]);
      if v.Some? {
        assert v == Some(MissingAttributeValue) ==> checks[0].tag in r1.missingAttributeValues;
        assert v == Some(InvalidAttributeValue) ==> checks[0].tag in r1.invalidAttributeValues;
        RunOnlyGrows(attrs, formatTag, r1, checks[1..]);
      } else {
        assert r1 == r;
        assert forall i :: 1 <= i < |checks| ==> checks[i] == checks[1..][i - 1];
      }
    }
  }
}
