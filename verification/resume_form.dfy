/**
 * The section list of the editor: the sorted copy it displays, the arrow and
 * delete handlers with their guards, the buttons' disabled conditions, and the
 * choice of the form shown for the selected section.
 */
module ResumeForm {
  import opened Common
  import opened ResumeTypes
  import opened ItemLists
  import opened SectionSort
  import opened ResumeStore
  import opened MoveFacts

  /** `sortedSections`: a copy of the store's list sorted by order. */
  function SortedSections(st: ResumeState): (r: seq<Section>)
    ensures SortedByOrder(r)
    ensures multiset(r) == multiset(st.sections)
    ensures forall k :: WithOrder(r, k) == WithOrder(st.sections, k)
  {
    SortIsStable(st.sections);
    SortByOrder(st.sections)
  }

  /** A consistent store is already sorted, so the displayed list is the store's list. */
  lemma SortedSectionsOfConsistent(st: ResumeState)
    requires Consistent(st)
    ensures SortedSections(st) == st.sections
  {
    SortOfSorted(st.sections);
  }

  /** `sections.find((s) => s.id === id)`. */
  function FindSection(st: ResumeState, id: string): (r: Option<Section>)
    ensures r.None? <==> !HasId(st.sections, SectionId, id)
    ensures r.Some? ==> r.value == st.sections[FindFirst(st.sections, SectionId, id).value]
  {
    match FindFirst(st.sections, SectionId, id)
    case None => None
    case Some(k) => Some(st.sections[k])
  }

  /**
   * `handleMoveUp`: the order it asks `moveSection` for, `order - 1`, when the
   * section exists and is not at order 0; `None` when it does nothing.
   */
  function HandleMoveUp(st: ResumeState, id: string): (r: Option<int>)
    ensures r.Some? <==> FindSection(st, id).Some? && FindSection(st, id).value.order > 0
    ensures r.Some? ==> r.value == FindSection(st, id).value.order - 1
  {
    match FindSection(st, id)
    case Some(section) => if section.order > 0 then Some(section.order - 1) else None
    case None => None
  }

  /**
   * `handleMoveDown`: asks for `order + 1` when the section exists and its order is
   * below `length - 1`.
   */
  function HandleMoveDown(st: ResumeState, id: string): (r: Option<int>)
    ensures r.Some? <==> FindSection(st, id).Some? && FindSection(st, id).value.order < |st.sections| - 1
    ensures r.Some? ==> r.value == FindSection(st, id).value.order + 1
  {
    match FindSection(st, id)
    case Some(section) =>
      if section.order < |st.sections| - 1 then Some(section.order + 1) else None
    case None => None
  }

  /** What the delete button reports. */
  datatype DeleteNotice = SectionRemoved(title: string) | CannotRemove

  /**
   * `handleDelete`: remove an existing section other than contact. Anything else,
   * an unknown id included, only reports that the contact section cannot be removed.
   */
  function HandleDelete(st: ResumeState, id: string): (r: (ResumeState, DeleteNotice))
    ensures HasId(st.sections, SectionId, ContactId) ==> HasId(r.0.sections, SectionId, ContactId)
    ensures r.1.CannotRemove? <==> id == ContactId || !HasId(st.sections, SectionId, id)
    ensures r.1.CannotRemove? ==> r.0 == st
    ensures r.1.SectionRemoved? ==>
      && r.0 == RemoveSection(st, id)
      && !HasId(r.0.sections, SectionId, id)
      && r.1.title == FindSection(st, id).value.title
  {
    match FindSection(st, id)
    case Some(section) =>
      if section.id != ContactId then
        var after := RemoveSection(st, id);
        RemoveWhereKeepsOtherIds(st.sections, SectionId, id, ContactId);
        (after, SectionRemoved(section.title))
      else (st, CannotRemove)
    case None => (st, CannotRemove)
  }

  /** The up arrow is disabled at order 0. */
  predicate UpDisabled(section: Section) {
    section.order == 0
  }

  /** The down arrow is disabled at order `length - 1`. */
  predicate DownDisabled(st: ResumeState, section: Section) {
    section.order == |st.sections| - 1
  }

  /** The delete button is disabled for the contact section. */
  predicate DeleteDisabled(section: Section) {
    section.id == ContactId
  }

  /** With unique ids, the handlers find the displayed section itself. */
  lemma FindsDisplayed(st: ResumeState, i: nat)
    requires Distinct(st.sections, SectionId) && i < |st.sections|
    ensures FindSection(st, st.sections[i].id).Some?
    ensures FindSection(st, st.sections[i].id).value == st.sections[i]
  {
    FindFirstUnique(st.sections, SectionId, i);
  }

  /**
   * While the ids are unique, the up arrow is enabled exactly when `handleMoveUp`
   * asks for a move, and the move it asks for is one place up.
   */
  lemma UpButtonMatchesGuard(st: ResumeState, i: nat)
    requires Distinct(st.sections, SectionId) && i < |st.sections|
    requires st.sections[i].order >= 0
    ensures !UpDisabled(st.sections[i]) <==> HandleMoveUp(st, st.sections[i].id).Some?
    ensures !UpDisabled(st.sections[i]) ==>
      HandleMoveUp(st, st.sections[i].id).value == st.sections[i].order - 1
  {
    FindsDisplayed(st, i);
  }

  /** The same for the down arrow and `handleMoveDown`, for orders below the length. */
  lemma DownButtonMatchesGuard(st: ResumeState, i: nat)
    requires Distinct(st.sections, SectionId) && i < |st.sections|
    requires st.sections[i].order < |st.sections|
    ensures !DownDisabled(st, st.sections[i]) <==> HandleMoveDown(st, st.sections[i].id).Some?
    ensures !DownDisabled(st, st.sections[i]) ==>
      HandleMoveDown(st, st.sections[i].id).value == st.sections[i].order + 1
  {
    FindsDisplayed(st, i);
  }

  /** The delete button is enabled exactly when `handleDelete` removes the section. */
  lemma DeleteButtonMatchesGuard(st: ResumeState, i: nat)
    requires Distinct(st.sections, SectionId) && i < |st.sections|
    ensures var section := st.sections[i];
      !DeleteDisabled(section) <==> HandleDelete(st, section.id).1.SectionRemoved?
  {
    FindsDisplayed(st, i);
  }

  /** Moving a section to an order other than its own always changes the document. */
  lemma MoveIsNotIdentity(st: ResumeState, id: string, newOrder: int)
    requires Distinct(st.sections, OrderOf) && Distinct(st.sections, SectionId)
    requires HasId(st.sections, SectionId, id)
    requires st.sections[FindFirst(st.sections, SectionId, id).value].order != newOrder
    ensures MoveSection(st, id, newOrder) != st
  {
    var s := st.sections;
    var k := FindFirst(s, SectionId, id).value;
    var moved := s[k].(order := newOrder);
    var m := MovedInPlace(s, k, newOrder);
    var r := MoveSection(st, id, newOrder).sections;
    assert moved == m[k];
    assert moved in multiset(r);
    assert moved in r;
    MovedNotInOriginal(s, k, newOrder);
  }

  /** The moved section with its new order is not one of the old sections. */
  lemma MovedNotInOriginal(s: seq<Section>, k: nat, newOrder: int)
    requires Distinct(s, SectionId) && k < |s| && s[k].order != newOrder
    ensures s[k].(order := newOrder) !in s
  {
    forall j | 0 <= j < |s| ensures s[j] != s[k].(order := newOrder) {
      if j < k {
        assert SectionId(s[j]) != SectionId(s[k]);
      } else if j > k {
        assert SectionId(s[k]) != SectionId(s[j]);
      }
    }
  }

  /** The last displayed section's down arrow is enabled, yet its handler asks for no move. */
  predicate DeadDownArrow(st: ResumeState) {
    && |st.sections| > 0
    && var last := SortedSections(st)[|st.sections| - 1];
      && !DownDisabled(st, last)
      && HandleMoveDown(st, last.id).None?
  }

  /** A last section whose order is N has an enabled down arrow whose handler does nothing. */
  lemma LastSectionStuck(st: ResumeState)
    requires Consistent(st) && GapAtEnd(st.sections)
    ensures DeadDownArrow(st)
  {
    SortedSectionsOfConsistent(st);
    FindsDisplayed(st, |st.sections| - 1);
    StuckAt(st, st.sections[|st.sections| - 1]);
  }

  lemma StuckAt(st: ResumeState, last: Section)
    requires |st.sections| > 0 && SortedSections(st)[|st.sections| - 1] == last
    requires FindSection(st, last.id) == Some(last) && last.order == |st.sections|
    ensures DeadDownArrow(st)
  {
  }

  /**
   * The down button of the last section stays enabled after a move up, yet does
   * nothing. Moving up from any order but the last (`1 <= k <= N - 2`) leaves the last
   * displayed section with order N. Its down arrow is therefore not disabled, but
   * `handleMoveDown` refuses it because N is not below N - 1.
   */
  lemma DeadDownButton(st: ResumeState, id: string)
    requires Consistent(st) && Contiguous(st.sections) && HasId(st.sections, SectionId, id)
    requires var s := st.sections; 0 < s[FindFirst(s, SectionId, id).value].order < |s| - 1
    ensures HandleMoveUp(st, id).Some?
    ensures DeadDownArrow(MoveSection(st, id, HandleMoveUp(st, id).value))
  {
    var k0 := FindFirst(st.sections, SectionId, id).value;
    var n := HandleMoveUp(st, id).value;
    assert n == st.sections[k0].order - 1;
    MoveUpLeavesGap(st, id, k0, n + 1);
    MoveKeepsConsistent(st, id, n);
    LastSectionStuck(MoveSection(st, id, n));
  }

  /**
   * The same up press, on a section at order 1..N-3, also disables the down arrow of
   * the second-to-last section shown, although a section is still shown below it.
   */
  lemma DisabledDownAboveLast(st: ResumeState, id: string)
    requires Consistent(st) && Contiguous(st.sections) && HasId(st.sections, SectionId, id)
    requires var s := st.sections; 0 < s[FindFirst(s, SectionId, id).value].order < |s| - 2
    ensures HandleMoveUp(st, id).Some?
    ensures DisabledAboveLast(MoveSection(st, id, HandleMoveUp(st, id).value))
  {
    var k0 := FindFirst(st.sections, SectionId, id).value;
    var n := HandleMoveUp(st, id).value;
    assert n == st.sections[k0].order - 1;
    MoveUpEndsAtLastOrder(st, id, k0, n + 1);
    MoveKeepsConsistent(st, id, n);
    PenultimateDisabled(MoveSection(st, id, n));
  }

  predicate DisabledAboveLast(st: ResumeState) {
    && |st.sections| >= 2
    && var shown := SortedSections(st);
      DownDisabled(st, shown[|st.sections| - 2])
  }

  /** With the second-to-last stored section at order N - 1, its down arrow is disabled. */
  lemma PenultimateDisabled(m: ResumeState)
    requires Consistent(m) && LastOrderAboveEnd(m.sections)
    ensures DisabledAboveLast(m)
  {
    SortedSectionsOfConsistent(m);
  }

  /** The editor shown for the selected section. */
  datatype FormView =
    | SelectPrompt
    | ContactEditor(section: Section)
    | SummaryEditor(section: Section)
    | ExperienceEditor(section: Section)
    | EducationEditor(section: Section)
    | SkillsEditor(section: Section)
    | Unsupported

  /** The section type an editor is built for. */
  function EditorKind(v: FormView): SectionType
    requires !v.SelectPrompt? && !v.Unsupported?
  {
    match v
    case ContactEditor(_) => Contact
    case SummaryEditor(_) => Summary
    case ExperienceEditor(_) => Experience
    case EducationEditor(_) => Education
    case SkillsEditor(_) => Skills
  }

  /**
   * `renderForm`: the editor for the selected section's type, a prompt when nothing
   * (or an unknown id) is selected, and a notice for projects and custom sections.
   */
  function SelectedForm(st: ResumeState): (r: FormView)
    ensures r.SelectPrompt? <==> st.activeSection.None? || !HasId(st.sections, SectionId, st.activeSection.value)
    ensures r.Unsupported? <==>
      && st.activeSection.Some?
      && FindSection(st, st.activeSection.value).Some?
      && FindSection(st, st.activeSection.value).value.kind in {Projects, Custom}
    ensures !r.SelectPrompt? && !r.Unsupported? ==>
      && st.activeSection.Some? && r.section == FindSection(st, st.activeSection.value).value
      && r.section.id == st.activeSection.value
      && EditorKind(r) == r.section.kind
  {
    match st.activeSection
    case None => SelectPrompt
    case Some(id) =>
      match FindSection(st, id)
      case None => SelectPrompt
      case Some(section) =>
        match section.kind
        case Contact => ContactEditor(section)
        case Summary => SummaryEditor(section)
        case Experience => ExperienceEditor(section)
        case Education => EducationEditor(section)
        case Skills => SkillsEditor(section)
        case _ => Unsupported
  }

  /**
   * Selecting a section of an editable type, as the section list's click does, opens
   * that section's own editor.
   */
  lemma SelectingOpensEditor(st: ResumeState, i: nat)
    requires Distinct(st.sections, SectionId) && i < |st.sections|
    requires st.sections[i].kind !in {Projects, Custom}
    ensures var r := SelectedForm(SetActiveSection(st, Some(st.sections[i].id)));
      && !r.SelectPrompt? && !r.Unsupported?
      && r.section == st.sections[i] && EditorKind(r) == st.sections[i].kind
  {
    FindsDisplayed(SetActiveSection(st, Some(st.sections[i].id)), i);
  }
}
