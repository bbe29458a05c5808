/**
 * The education editor: the same list edits as the work-experience editor over
 * education entries, with the "currently studying" checkbox and no generator.
 */
module EducationForm {
  import opened Common
  import opened ResumeTypes
  import opened ItemLists
  import opened ResumeStore

  function EducationId(e: EducationItem): string { e.id }

  /** The entry `addEducation` appends: every text field empty, not current. */
  function BlankEducation(id: string): EducationItem {
    EducationItem(id, "", "", "", "", "", false, "")
  }

  /** The cursor the editor opens with: the first entry, or none. */
  function InitialActive(items: seq<EducationItem>): (r: Option<string>)
    ensures r.None? <==> |items| == 0
    ensures r.Some? ==> ActiveValid(Selection(items, r), EducationId)
  {
    FirstId(items, EducationId)
  }

  /** `Partial<EducationItem>`. */
  datatype EducationPatch = EducationPatch(
    id: Option<string>,
    institution: Option<string>,
    degree: Option<string>,
    field: Option<string>,
    startDate: Option<string>,
    endDate: Option<string>,
    current: Option<bool>,
    description: Option<string>)

  const EmptyPatch := EducationPatch(None, None, None, None, None, None, None, None)

  /** `{ ...item, ...updates }`. */
  function MergeEducation(e: EducationItem, p: EducationPatch): EducationItem {
    EducationItem(
      p.id.GetOr(e.id),
      p.institution.GetOr(e.institution),
      p.degree.GetOr(e.degree),
      p.field.GetOr(e.field),
      p.startDate.GetOr(e.startDate),
      p.endDate.GetOr(e.endDate),
      p.current.GetOr(e.current),
      p.description.GetOr(e.description))
  }

  /** The "currently studying" checkbox: the same rule as the current-position box. */
  function CurrentPatch(e: EducationItem, checked: bool): (p: EducationPatch)
    ensures MergeEducation(e, p).current == checked
    ensures checked ==> MergeEducation(e, p).endDate == ""
    ensures !checked ==> MergeEducation(e, p).endDate == e.endDate
    ensures MergeEducation(e, p).(current := e.current, endDate := e.endDate) == e
  {
    EmptyPatch.(current := Some(checked), endDate := Some(if checked then "" else e.endDate))
  }

  /** Checking and then unchecking loses the end date. */
  lemma CheckThenUncheck(e: EducationItem)
    ensures var checked := MergeEducation(e, CurrentPatch(e, true));
      var unchecked := MergeEducation(checked, CurrentPatch(checked, false));
      && !unchecked.current && unchecked.endDate == ""
      && (unchecked == e <==> !e.current && e.endDate == "")
  {
  }

  /** `addEducation`: append a blank entry with the fresh id and make it the one being edited. */
  function AddEducation(st: ResumeState, sectionId: string, sel: Selection<EducationItem>, newId: string)
    : (r: (ResumeState, Selection<EducationItem>))
    requires !HasId(sel.items, EducationId, newId)
    ensures r.1.items == sel.items + [BlankEducation(newId)]
    ensures r.1.active == Some(newId) && ActiveValid(r.1, EducationId)
    ensures Distinct(sel.items, EducationId) ==> Distinct(r.1.items, EducationId)
    ensures ContentReplaced(st, r.0, sectionId, EducationContent(r.1.items))
  {
    var next := AppendActive(sel, EducationId, BlankEducation(newId));
    assert next.items == sel.items + [BlankEducation(newId)];
    (UpdateSection(st, sectionId, ContentPatch(EducationContent(next.items))), next)
  }

  /** `updateEducation`: merge the patch into the entries with that id. */
  function UpdateEducation(st: ResumeState, sectionId: string, items: seq<EducationItem>, id: string, patch: EducationPatch)
    : (r: (ResumeState, seq<EducationItem>))
    ensures |r.1| == |items|
    ensures forall i :: 0 <= i < |items| && items[i].id != id ==> r.1[i] == items[i]
    ensures forall i :: 0 <= i < |items| && items[i].id == id ==> r.1[i] == MergeEducation(items[i], patch)
    ensures patch.id.None? ==> Ids(r.1, EducationId) == Ids(items, EducationId)
    ensures ContentReplaced(st, r.0, sectionId, EducationContent(r.1))
  {
    var next := UpdateWhere(items, EducationId, id, (e: EducationItem) => MergeEducation(e, patch));
    (UpdateSection(st, sectionId, ContentPatch(EducationContent(next))), next)
  }

  /** Patching an entry nobody carries writes the list back unchanged. */
  lemma UpdateUnknownEntry(st: ResumeState, sectionId: string, items: seq<EducationItem>, id: string, patch: EducationPatch)
    requires !HasId(items, EducationId, id)
    ensures UpdateEducation(st, sectionId, items, id, patch).1 == items
  {
    UpdateWhereMissing(items, EducationId, id, (e: EducationItem) => MergeEducation(e, patch));
  }

  /**
   * `removeEducation`: drop the entries with that id, keeping the others in order; a
   * removed cursor falls back to the first remaining entry, or to none.
   */
  function RemoveEducation(st: ResumeState, sectionId: string, sel: Selection<EducationItem>, id: string)
    : (r: (ResumeState, Selection<EducationItem>))
    ensures r.1.items == RemoveWhere(sel.items, EducationId, id)
    ensures !HasId(r.1.items, EducationId, id)
    ensures sel.active == Some(id) ==> r.1.active == FirstId(r.1.items, EducationId)
    ensures sel.active != Some(id) ==> r.1.active == sel.active
    ensures ActiveValid(sel, EducationId) ==> ActiveValid(r.1, EducationId)
    ensures ContentReplaced(st, r.0, sectionId, EducationContent(r.1.items))
  {
    var next := RemoveActive(sel, EducationId, id);
    (UpdateSection(st, sectionId, ContentPatch(EducationContent(next.items))), next)
  }

  /** Removing the entry just added restores the store exactly. */
  lemma AddThenRemoveRestores(st: ResumeState, sectionId: string, sel: Selection<EducationItem>, newId: string)
    requires !HasId(sel.items, EducationId, newId)
    requires forall i :: 0 <= i < |st.sections| && st.sections[i].id == sectionId ==>
      st.sections[i].content == EducationContent(sel.items)
    ensures var added := AddEducation(st, sectionId, sel, newId);
      var removed := RemoveEducation(added.0, sectionId, added.1, newId);
      && removed.0 == st
      && removed.1.items == sel.items
      && removed.1.active == FirstId(sel.items, EducationId)
  {
    var added := AddEducation(st, sectionId, sel, newId);
    var removed := RemoveEducation(added.0, sectionId, added.1, newId);
    AppendThenRemove(sel, EducationId, BlankEducation(newId));
    ReplaceBack(st, added.0, removed.0, sectionId, EducationContent(added.1.items), EducationContent(sel.items));
  }
}
