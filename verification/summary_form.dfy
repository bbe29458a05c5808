/**
 * The summary editor: the text area that replaces the summary payload, and the
 * generator's guards with the parsing of its comma-separated skills input.
 */
module SummaryForm {
  import opened Common
  import opened ResumeTypes
  import opened ResumeStore
  import opened Text

  /** `handleChange`: the payload becomes exactly `{ summary: value }`. */
  function HandleChange(st: ResumeState, sectionId: string, value: string): (r: ResumeState)
    ensures ContentReplaced(st, r, sectionId, SummaryContent(value))
  {
    UpdateSection(st, sectionId, ContentPatch(SummaryContent(value)))
  }

  /** `skills.split(',').map((s) => s.trim()).filter((s) => s)`. */
  function ParseSkills(s: string): (r: seq<string>)
    ensures forall i :: 0 <= i < |r| ==> r[i] != "" && ',' !in r[i] && Trimmed(r[i])
  {
    var pieces := TrimAll(Split(s, ','));
    forall i | 0 <= i < |pieces| ensures ',' !in pieces[i] && Trimmed(pieces[i]) {
    }
    DropBlank(pieces)
  }

  /** A string without commas parses to its trim, or to nothing when that is empty. */
  lemma ParseSkillsPiece(s: string)
    requires ',' !in s
    ensures ParseSkills(s) == if Trim(s) == "" then [] else [Trim(s)]
  {
    JoinSplit(s, ',');
    SplitJoin([s], ',');
    assert Split(s, ',') == [s];
    assert DropBlank([Trim(s)]) == (if Trim(s) == "" then [] else [Trim(s)]) + DropBlank([]);
  }

  /** The parse keeps the comma-separated pieces in their order: it distributes over a comma. */
  lemma ParseSkillsAppend(a: string, b: string)
    ensures ParseSkills(a + [','] + b) == ParseSkills(a) + ParseSkills(b)
  {
    var pa, pb := Split(a, ','), Split(b, ',');
    SplitAtSeparator(a, b, ',');
    TrimAllAppend(pa, pb);
    DropBlankAppend(TrimAll(pa), TrimAll(pb));
    assert ParseSkills(a + [','] + b) == DropBlank(TrimAll(pa + pb));
  }

  /** Nothing but white space. */
  predicate AllSpace(s: string) {
    forall i :: 0 <= i < |s| ==> IsSpace(s[i])
  }

  /** Skills the parse gives back unchanged: non-empty, trimmed and comma-free. */
  predicate Parseable(skills: seq<string>) {
    forall i :: 0 <= i < |skills| ==> skills[i] != "" && Trimmed(skills[i]) && ',' !in skills[i]
  }

  /** Regrouping `pre + (p + ", " + j)` around the comma. */
  lemma CommaRegroup(pre: string, p: string, j: string)
    ensures pre + (p + ", " + j) == (pre + p) + [','] + (" " + j)
  {
    assert ", " == [','] + " ";
  }

  /** The joined text after the first skill starts with the comma and the padding. */
  lemma JoinedShape(pre: string, skills: seq<string>)
    requires |skills| >= 2
    ensures pre + Join(skills, ", ") == (pre + skills[0]) + [','] + (" " + Join(skills[1..], ", "))
  {
    assert Join(skills, ", ") == skills[0] + ", " + Join(skills[1..], ", ");
    CommaRegroup(pre, skills[0], Join(skills[1..], ", "));
  }

  /** White space holds no comma. */
  lemma NoCommaInPadding(pre: string, p: string)
    requires AllSpace(pre) && ',' !in p
    ensures ',' !in pre + p
  {
    assert !IsSpace(',');
  }

  /** White space alone parses to no skills. */
  lemma ParseBlank(pre: string)
    requires AllSpace(pre)
    ensures ParseSkills(pre) == []
  {
    NoCommaInPadding(pre, "");
    assert pre + "" == pre;
    ParseSkillsPiece(pre);
  }

  /** One skill behind white space parses to that skill. */
  lemma ParsePadded(pre: string, p: string)
    requires AllSpace(pre) && p != "" && Trimmed(p) && ',' !in p
    ensures ParseSkills(pre + p) == [p]
  {
    TrimSkipsLeadingSpace(pre, p);
    NoCommaInPadding(pre, p);
    ParseSkillsPiece(pre + p);
  }

  /** One step of the round trip: the first skill comes off the front of the joined text. */
  lemma ParseJoinedStep(pre: string, skills: seq<string>)
    requires AllSpace(pre) && |skills| >= 2
    requires skills[0] != "" && Trimmed(skills[0]) && ',' !in skills[0]
    ensures ParseSkills(pre + Join(skills, ", ")) == [skills[0]] + ParseSkills(" " + Join(skills[1..], ", "))
  {
    JoinedShape(pre, skills);
    ParseSkillsAppend(pre + skills[0], " " + Join(skills[1..], ", "));
    ParsePadded(pre, skills[0]);
  }

  /**
   * Round trip with the preview's `join(', ')`: a list of non-empty, trimmed,
   * comma-free skills, joined and then parsed, comes back unchanged, also behind
   * leading white space.
   */
  lemma {:induction false} ParseJoined(pre: string, skills: seq<string>)
    requires AllSpace(pre) && Parseable(skills)
    ensures ParseSkills(pre + Join(skills, ", ")) == skills
    decreases |skills|
  {
    if |skills| == 0 {
      ParseJoinedNil(pre, skills);
    } else if |skills| == 1 {
      ParseJoinedOne(pre, skills);
    } else {
      ParseableTail(skills);
      assert AllSpace(" ") by {
        assert IsSpace(' ');
      }
      ParseJoined(" ", skills[1..]);
      ParseJoinedMore(pre, skills);
    }
  }

  lemma ParseJoinedNil(pre: string, skills: seq<string>)
    requires AllSpace(pre) && |skills| == 0
    ensures ParseSkills(pre + Join(skills, ", ")) == skills
  {
    assert pre + Join(skills, ", ") == pre;
    ParseBlank(pre);
  }

  lemma ParseJoinedOne(pre: string, skills: seq<string>)
    requires AllSpace(pre) && Parseable(skills) && |skills| == 1
    ensures ParseSkills(pre + Join(skills, ", ")) == skills
  {
    assert Join(skills, ", ") == skills[0];
    ParsePadded(pre, skills[0]);
  }

  lemma ParseableTail(skills: seq<string>)
    requires Parseable(skills) && |skills| >= 1
    ensures Parseable(skills[1..])
  {
    assert forall i :: 0 <= i < |skills[1..]| ==> skills[1..][i] == skills[i + 1];
  }

  /** The inductive step of the round trip, with the rest of the list already parsed back. */
  lemma ParseJoinedMore(pre: string, skills: seq<string>)
    requires AllSpace(pre) && Parseable(skills) && |skills| >= 2
    requires ParseSkills(" " + Join(skills[1..], ", ")) == skills[1..]
    ensures ParseSkills(pre + Join(skills, ", ")) == skills
  {
    ParseJoinedStep(pre, skills);
    assert skills == [skills[0]] + skills[1..];
  }

  /** What the generator is asked for: the title, the raw years text and the parsed skills. */
  datatype SummaryRequest = SummaryRequest(jobTitle: string, years: string, skills: seq<string>)

  /** The guards of `handleGenerateSummary`: a missing API key first, then an empty title or years. */
  function SummaryGate(hasKey: bool, jobTitle: string, years: string, skills: string): (r: Gate<SummaryRequest>)
    ensures !r.Silent?
    ensures r == Refused(ApiKeyNotSet) <==> !hasKey
    ensures r == Refused(MissingInformation) <==> hasKey && (jobTitle == "" || years == "")
    ensures r.Proceed? <==> hasKey && jobTitle != "" && years != ""
    ensures r.Proceed? ==> r.request == SummaryRequest(jobTitle, years, ParseSkills(skills))
  {
    if !hasKey then Refused(ApiKeyNotSet)
    else if jobTitle == "" || years == "" then Refused(MissingInformation)
    else Proceed(SummaryRequest(jobTitle, years, ParseSkills(skills)))
  }

  /**
   * `handleGenerateSummary` given whether a key is stored and the service's reply: the
   * summary changes only when both guards pass and the reply is a text, and then it
   * becomes that text through `handleChange`.
   */
  function GenerateSummary(st: ResumeState, sectionId: string, hasKey: bool, jobTitle: string, years: string,
                           skills: string, reply: Result<string>): (r: (ResumeState, Notice))
    ensures SummaryGate(hasKey, jobTitle, years, skills).Refused? ==>
      r == (st, SummaryGate(hasKey, jobTitle, years, skills).notice)
    ensures SummaryGate(hasKey, jobTitle, years, skills).Proceed? && reply.Failure? ==>
      r == (st, FailureNotice(reply.message))
    ensures SummaryGate(hasKey, jobTitle, years, skills).Proceed? && reply.Success? ==>
      r.1 == Generated && ContentReplaced(st, r.0, sectionId, SummaryContent(reply.value))
    ensures r.0 != st ==> hasKey && jobTitle != "" && years != "" && reply.Success?
  {
    var gate := SummaryGate(hasKey, jobTitle, years, skills);
    if gate.Refused? then (st, gate.notice)
    else
      match reply
      case Success(text) => (HandleChange(st, sectionId, text), Generated)
      case Failure(message) => (st, FailureNotice(message))
  }
}
