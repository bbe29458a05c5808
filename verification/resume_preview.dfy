/**
 * The live preview: which sections render, in what order, and what each one shows.
 * Date formatting is left out, so dates appear as the stored strings; markup is
 * reduced to the blocks below.
 */
module ResumePreview {
  import opened Common
  import opened ResumeTypes
  import opened ItemLists
  import opened SectionSort
  import opened ResumeStore
  import opened ResumeForm
  import opened MoveFacts
  import opened Reorder
  import opened Text
  import ContactForm
  import SkillsForm
  import SummaryForm

  /** The right-hand side of a date range: the word "Present" or the end date. */
  datatype EndLabel = Present | Until(date: string)

  /** `item.current ? 'Present' : formatDate(item.endDate)`. */
  function EndOf(current: bool, endDate: string): (r: EndLabel)
    ensures r == Present <==> current
    ensures r.Until? ==> r.date == endDate
  {
    if current then Present else Until(endDate)
  }

  datatype ExperienceEntry = ExperienceEntry(
    position: string, company: string, startDate: string, end: EndLabel, description: string)

  datatype EducationEntry = EducationEntry(
    institution: string, degreeLine: string, startDate: string, end: EndLabel, description: Option<string>)

  /** A category heading and its skills on one line. */
  datatype SkillLine = SkillLine(name: string, skills: string)

  /** What a section puts on the page. */
  datatype Block =
    | ContactBlock(name: string, details: seq<string>)
    | SummaryBlock(title: string, text: string)
    | ExperienceBlock(title: string, entries: seq<ExperienceEntry>)
    | EducationBlock(title: string, schools: seq<EducationEntry>)
    | SkillsBlock(title: string, lines: seq<SkillLine>)

  /** The section type a block is drawn for. */
  function BlockKind(b: Block): SectionType {
    match b
    case ContactBlock(_, _) => Contact
    case SummaryBlock(_, _) => Summary
    case ExperienceBlock(_, _) => Experience
    case EducationBlock(_, _) => Education
    case SkillsBlock(_, _) => Skills
  }

  /** The filter keeps every non-empty entry of a list. */
  lemma DropBlankKeepsAll(pieces: seq<string>)
    ensures forall i :: 0 <= i < |pieces| && pieces[i] != "" ==> pieces[i] in DropBlank(pieces)
  {
    forall i | 0 <= i < |pieces| && pieces[i] != "" ensures pieces[i] in DropBlank(pieces) {
      DropBlankKeeps(pieces, i);
    }
  }

  /**
   * The line under the name: email, phone, location, LinkedIn and website, each only
   * when it is non-empty, in that order.
   */
  function ContactDetails(c: Content): (r: seq<string>)
    requires c.ContactContent?
    ensures forall i :: 0 <= i < |r| ==> r[i] != ""
    ensures forall f :: f != ContactForm.Name && ContactForm.Shown(c, f) != "" ==> ContactForm.Shown(c, f) in r
    ensures forall d :: d in r ==> d in {c.email, c.phone, c.location, c.linkedin.GetOr(""), c.website.GetOr("")}
    ensures c.email != "" ==> |r| > 0 && r[0] == c.email
    ensures c.email != "" && c.phone != "" && c.location != "" && c.linkedin.GetOr("") != "" && c.website.GetOr("") != "" ==>
      r == [c.email, c.phone, c.location, c.linkedin.GetOr(""), c.website.GetOr("")]
  {
    var fields := [c.email, c.phone, c.location, c.linkedin.GetOr(""), c.website.GetOr("")];
    DropBlankKeepsAll(fields);
    ShownAmongFields(c);
    DropBlank(fields)
  }

  /** Every field but the name is one of the five detail fields, as the form shows it. */
  lemma ShownAmongFields(c: Content)
    requires c.ContactContent?
    ensures forall f :: f != ContactForm.Name ==>
      ContactForm.Shown(c, f) in [c.email, c.phone, c.location, c.linkedin.GetOr(""), c.website.GetOr("")]
  {
    var fields := [c.email, c.phone, c.location, c.linkedin.GetOr(""), c.website.GetOr("")];
    forall f | f != ContactForm.Name ensures ContactForm.Shown(c, f) in fields {
      match f
      case Email => assert fields[0] == ContactForm.Shown(c, f);
      case Phone => assert fields[1] == ContactForm.Shown(c, f);
      case Location => assert fields[2] == ContactForm.Shown(c, f);
      case LinkedIn => assert fields[3] == ContactForm.Shown(c, f);
      case Website => assert fields[4] == ContactForm.Shown(c, f);
    }
  }

  function ExperienceEntries(items: seq<ExperienceItem>): (r: seq<ExperienceEntry>)
    ensures |r| == |items|
    ensures forall i :: 0 <= i < |items| ==>
      && r[i].position == items[i].position && r[i].company == items[i].company
      && r[i].startDate == items[i].startDate && r[i].description == items[i].description
      && (r[i].end == Present <==> items[i].current)
      && (!items[i].current ==> r[i].end == Until(items[i].endDate))
  {
    seq(|items|, i requires 0 <= i < |items| =>
      var e := items[i];
      ExperienceEntry(e.position, e.company, e.startDate, EndOf(e.current, e.endDate), e.description))
  }

  /** An education entry shows "degree in field", and its description only when non-empty. */
  function EducationEntries(items: seq<EducationItem>): (r: seq<EducationEntry>)
    ensures |r| == |items|
    ensures forall i :: 0 <= i < |items| ==>
      && r[i].institution == items[i].institution
      && r[i].degreeLine == items[i].degree + " in " + items[i].field
      && r[i].startDate == items[i].startDate
      && (r[i].end == Present <==> items[i].current)
      && (!items[i].current ==> r[i].end == Until(items[i].endDate))
      && (r[i].description.Some? <==> items[i].description != "")
      && (r[i].description.Some? ==> r[i].description.value == items[i].description)
  {
    seq(|items|, i requires 0 <= i < |items| =>
      var e := items[i];
      EducationEntry(e.institution, e.degree + " in " + e.field, e.startDate, EndOf(e.current, e.endDate),
        if e.description == "" then None else Some(e.description)))
  }

  /** One line per category: its name and `skills.join(', ')`. */
  function SkillLines(categories: seq<SkillCategory>): (r: seq<SkillLine>)
    ensures |r| == |categories|
    ensures forall i :: 0 <= i < |categories| ==>
      r[i].name == categories[i].name && r[i].skills == Join(categories[i].skills, ", ")
  {
    seq(|categories|, i requires 0 <= i < |categories| =>
      SkillLine(categories[i].name, Join(categories[i].skills, ", ")))
  }

  /**
   * `renderSection`: contact always renders; summary, experience, education and
   * skills render nothing when empty; projects and custom sections render nothing.
   */
  function RenderSection(s: Section): (r: Option<Block>)
    requires WellTyped(s)
    ensures r.None? <==>
      || s.kind in {Projects, Custom}
      || (s.kind == Summary && s.content.summary == "")
      || (s.kind == Experience && |s.content.experienceItems| == 0)
      || (s.kind == Education && |s.content.educationItems| == 0)
      || (s.kind == Skills && |s.content.categories| == 0)
    ensures r.Some? ==> BlockKind(r.value) == s.kind
    ensures r.Some? && s.kind != Contact ==> r.value.title == s.title
    ensures s.kind == Contact ==> r == Some(ContactBlock(s.content.name, ContactDetails(s.content)))
    ensures r.Some? && s.kind == Summary ==> r.value.text == s.content.summary
    ensures r.Some? && s.kind == Experience ==> r.value.entries == ExperienceEntries(s.content.experienceItems)
    ensures r.Some? && s.kind == Education ==> r.value.schools == EducationEntries(s.content.educationItems)
    ensures r.Some? && s.kind == Skills ==> r.value.lines == SkillLines(s.content.categories)
  {
    match s.content
    case ContactContent(name, _, _, _, _, _) => Some(ContactBlock(name, ContactDetails(s.content)))
    case SummaryContent(text) => if text == "" then None else Some(SummaryBlock(s.title, text))
    case ExperienceContent(items) =>
      if |items| == 0 then None else Some(ExperienceBlock(s.title, ExperienceEntries(items)))
    case EducationContent(items) =>
      if |items| == 0 then None else Some(EducationBlock(s.title, EducationEntries(items)))
    case SkillsContent(categories) =>
      if |categories| == 0 then None else Some(SkillsBlock(s.title, SkillLines(categories)))
    case ProjectsContent(_) => None
    case CustomContent(_) => None
  }

  /** One entry of the preview: the section's key and what it renders. */
  datatype Rendered = Rendered(key: string, block: Option<Block>)

  /** The sorted copy keeps every section well typed. */
  lemma SortedWellTyped(st: ResumeState)
    requires forall i :: 0 <= i < |st.sections| ==> WellTyped(st.sections[i])
    ensures forall i :: 0 <= i < |SortedSections(st)| ==> WellTyped(SortedSections(st)[i])
  {
    var sorted := SortedSections(st);
    forall i | 0 <= i < |sorted| ensures WellTyped(sorted[i]) {
      assert sorted[i] in multiset(st.sections);
    }
  }

  /** `sortedSections.map(renderSection)`: every section, in ascending order, with its rendering. */
  function Preview(st: ResumeState): (r: seq<Rendered>)
    requires forall i :: 0 <= i < |st.sections| ==> WellTyped(st.sections[i])
    ensures forall i :: 0 <= i < |SortedSections(st)| ==> WellTyped(SortedSections(st)[i])
    ensures |r| == |st.sections|
    ensures forall i :: 0 <= i < |r| ==>
      r[i] == Rendered(SortedSections(st)[i].id, RenderSection(SortedSections(st)[i]))
  {
    var sorted := SortedSections(st);
    SortedWellTyped(st);
    seq(|sorted|, i requires 0 <= i < |sorted| => Rendered(sorted[i].id, RenderSection(sorted[i])))
  }

  /** The keys of a preview, top to bottom. */
  function Keys(r: seq<Rendered>): (ks: seq<string>)
    ensures |ks| == |r| && forall i :: 0 <= i < |r| ==> ks[i] == r[i].key
  {
    seq(|r|, i requires 0 <= i < |r| => r[i].key)
  }

  /** A consistent store previews in its own order, section by section. */
  lemma PreviewOfConsistent(st: ResumeState)
    requires Consistent(st)
    ensures Keys(Preview(st)) == Ids(st.sections, SectionId)
    ensures forall i :: 0 <= i < |st.sections| ==> Preview(st)[i].block == RenderSection(st.sections[i])
  {
    SortedSectionsOfConsistent(st);
  }

  /**
   * The preview reads no order numbers: two stores whose sorted sections agree up to
   * their orders show the same preview.
   */
  lemma PreviewIgnoresOrders(a: ResumeState, b: ResumeState)
    requires forall i :: 0 <= i < |a.sections| ==> WellTyped(a.sections[i])
    requires forall i :: 0 <= i < |b.sections| ==> WellTyped(b.sections[i])
    requires Erased(SortedSections(a)) == Erased(SortedSections(b))
    ensures Preview(a) == Preview(b)
  {
    var sa, sb := SortedSections(a), SortedSections(b);
    SortedWellTyped(b);
    forall i | 0 <= i < |sa| ensures Preview(a)[i] == Preview(b)[i] {
      assert Erased(sa)[i] == Erased(sb)[i];
      assert sa[i] == sb[i].(order := sa[i].order);
      RenderIgnoresOrder(sb[i], sa[i].order);
    }
  }

  /** A section renders the same whatever its order. */
  lemma RenderIgnoresOrder(x: Section, n: int)
    requires WellTyped(x)
    ensures WellTyped(x.(order := n)) && RenderSection(x.(order := n)) == RenderSection(x)
  {
  }

  predicate ShowsContact(r: Rendered) {
    r.block.Some? && r.block.value.ContactBlock?
  }

  /**
   * Up to orders, the list `moveSection` produces is the others with the moved section
   * put back at the split point.
   */
  lemma ErasedCut(o: seq<Section>, p: nat, m: Section, m0: Section, n: int)
    requires p <= |o| && m.(order := 0) == m0.(order := 0)
    ensures Erased(Cut(o, p, m, n)) == Erased(InsertAt(o, m0, p))
  {
    var a, b := Cut(o, p, m, n), InsertAt(o, m0, p);
    forall i | 0 <= i < |a| ensures Erased(a)[i] == Erased(b)[i] {
      if i > p {
        var x := o[i - 1];
        assert Bumped(x, n).(order := 0) == x.(order := 0);
      }
    }
  }

  /** Moving a section one place down yields, up to orders, the sorted list itself. */
  lemma MovedDownErased(s: seq<Section>, k0: nat)
    requires Contiguous(s) && k0 < |s| && s[k0].order < |s| - 1
    ensures Erased(Landed(s, k0, s[k0].order + 1)) == Erased(SortByOrder(s))
  {
    var k := s[k0].order;
    var sorted := SortByOrder(s);
    ContiguousOthers(s, k0);
    ContiguousSplitPoint(s, k0, k + 1);
    assert LandingIndex(k, k + 1, |s|) == k;
    SortedAtOrder(s, k0);
    ErasedCut(Others(s, k0), k, s[k0].(order := k + 1), sorted[k], k + 1);
    InsertAtWithout(sorted, k);
  }

  /** Two well-typed stores that show the same preview. */
  predicate SamePreview(a: ResumeState, b: ResumeState) {
    && (forall i :: 0 <= i < |a.sections| ==> WellTyped(a.sections[i]))
    && (forall i :: 0 <= i < |b.sections| ==> WellTyped(b.sections[i]))
    && Preview(a) == Preview(b)
  }

  /**
   * The down arrow changes nothing on the page: with contiguous orders, the move
   * `handleMoveDown` asks for leaves the preview exactly as it was.
   */
  lemma MoveDownPreviewUnchanged(st: ResumeState, id: string)
    requires Consistent(st) && Contiguous(st.sections)
    requires HandleMoveDown(st, id).Some?
    ensures SamePreview(MoveSection(st, id, HandleMoveDown(st, id).value), st)
  {
    var k0 := FindFirst(st.sections, SectionId, id).value;
    MoveDownAt(st, id, k0, HandleMoveDown(st, id).value);
  }

  lemma MoveDownAt(st: ResumeState, id: string, k0: nat, n: int)
    requires Consistent(st) && Contiguous(st.sections) && HasId(st.sections, SectionId, id)
    requires k0 == FindFirst(st.sections, SectionId, id).value
    requires n == st.sections[k0].order + 1 && n < |st.sections|
    ensures SamePreview(MoveSection(st, id, n), st)
  {
    MoveKeepsConsistent(st, id, n);
    MoveAsInsertion(st, id, n);
    MovedDownErased(st.sections, k0);
    ErasedSamePreview(MoveSection(st, id, n), st);
  }

  /** A sorted consistent store that matches another's sorted sections up to orders shows the same preview. */
  lemma ErasedSamePreview(a: ResumeState, b: ResumeState)
    requires Consistent(a) && Consistent(b)
    requires Erased(a.sections) == Erased(SortByOrder(b.sections))
    ensures SamePreview(a, b)
  {
    SortedSectionsOfConsistent(a);
    PreviewIgnoresOrders(a, b);
  }

  /** A store holding a contact section shows a contact block, whatever its fields hold. */
  lemma ContactAlwaysShown(st: ResumeState, i: nat)
    requires forall j :: 0 <= j < |st.sections| ==> WellTyped(st.sections[j])
    requires i < |st.sections| && st.sections[i].kind == Contact
    ensures exists j :: 0 <= j < |Preview(st)| && ShowsContact(Preview(st)[j])
  {
    var sorted := SortedSections(st);
    assert st.sections[i] in multiset(sorted);
    var j :| 0 <= j < |sorted| && sorted[j] == st.sections[i];
    SortedWellTyped(st);
    assert Preview(st)[j].block == RenderSection(sorted[j]);
  }

  /**
   * Skills typed through the skills editor and free of commas read back from their
   * preview line: parsing `join(', ')` with the summary editor's parser gives the list.
   */
  lemma SkillLineReadsBack(categories: seq<SkillCategory>, k: nat)
    requires SkillsForm.CleanSkills(categories) && k < |categories|
    requires forall j :: 0 <= j < |categories[k].skills| ==> ',' !in categories[k].skills[j]
    ensures SummaryForm.ParseSkills(SkillLines(categories)[k].skills) == categories[k].skills
  {
    var skills := categories[k].skills;
    assert SummaryForm.Parseable(skills) by {
      forall j | 0 <= j < |skills| ensures skills[j] != "" && Trimmed(skills[j]) {
        assert SkillsForm.CleanSkill(categories[k].skills[j]);
      }
    }
    assert "" + Join(skills, ", ") == Join(skills, ", ");
    SummaryForm.ParseJoined("", skills);
  }
}
