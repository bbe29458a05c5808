/**
 * The work-experience editor: appending, patching and removing entries of the
 * section's item list, the cursor on the entry being edited, the "current position"
 * checkbox, and the guards in front of the description generator. Every edit is
 * written back through the store's `updateSection` with a content-only patch.
 */
module ExperienceForm {
  import opened Common
  import opened ResumeTypes
  import opened ItemLists
  import opened ResumeStore

  function ExperienceId(e: ExperienceItem): string { e.id }

  /** The entry `addExperience` appends: every text field empty, not current. */
  function BlankExperience(id: string): ExperienceItem {
    ExperienceItem(id, "", "", "", "", false, "")
  }

  /** The cursor the editor opens with: the first entry, or none. */
  function InitialActive(items: seq<ExperienceItem>): (r: Option<string>)
    ensures r.None? <==> |items| == 0
    ensures r.Some? ==> ActiveValid(Selection(items, r), ExperienceId)
  {
    FirstId(items, ExperienceId)
  }

  /** `Partial<ExperienceItem>`: a field is replaced only when the patch carries it. */
  datatype ExperiencePatch = ExperiencePatch(
    id: Option<string>,
    company: Option<string>,
    position: Option<string>,
    startDate: Option<string>,
    endDate: Option<string>,
    current: Option<bool>,
    description: Option<string>)

  const EmptyPatch := ExperiencePatch(None, None, None, None, None, None, None)

  /** `{ ...item, ...updates }`. */
  function MergeExperience(e: ExperienceItem, p: ExperiencePatch): ExperienceItem {
    ExperienceItem(
      p.id.GetOr(e.id),
      p.company.GetOr(e.company),
      p.position.GetOr(e.position),
      p.startDate.GetOr(e.startDate),
      p.endDate.GetOr(e.endDate),
      p.current.GetOr(e.current),
      p.description.GetOr(e.description))
  }

  /**
   * The patch the "current position" checkbox sends for the shown entry `e`:
   * checking sets `current` and empties the end date, unchecking clears `current`
   * and keeps whatever end date `e` has.
   */
  function CurrentPatch(e: ExperienceItem, checked: bool): (p: ExperiencePatch)
    ensures MergeExperience(e, p).current == checked
    ensures checked ==> MergeExperience(e, p).endDate == ""
    ensures !checked ==> MergeExperience(e, p).endDate == e.endDate
    ensures MergeExperience(e, p).(current := e.current, endDate := e.endDate) == e
  {
    EmptyPatch.(current := Some(checked), endDate := Some(if checked then "" else e.endDate))
  }

  /**
   * Checking and then unchecking the box gives the entry back only when it was not
   * current and had no end date: any end date is lost on the way.
   */
  lemma CheckThenUncheck(e: ExperienceItem)
    ensures var checked := MergeExperience(e, CurrentPatch(e, true));
      var unchecked := MergeExperience(checked, CurrentPatch(checked, false));
      && !unchecked.current && unchecked.endDate == ""
      && (unchecked == e <==> !e.current && e.endDate == "")
  {
  }

  /** The patch a generated description is written back with. */
  function DescriptionPatch(text: string): (p: ExperiencePatch)
    ensures forall e :: MergeExperience(e, p) == e.(description := text)
  {
    EmptyPatch.(description := Some(text))
  }

  /**
   * `addExperience`: append a blank entry with the fresh id, write the list back and
   * make the new entry the one being edited.
   */
  function AddExperience(st: ResumeState, sectionId: string, sel: Selection<ExperienceItem>, newId: string)
    : (r: (ResumeState, Selection<ExperienceItem>))
    requires !HasId(sel.items, ExperienceId, newId)
    ensures r.1.items == sel.items + [BlankExperience(newId)]
    ensures r.1.active == Some(newId) && ActiveValid(r.1, ExperienceId)
    ensures Distinct(sel.items, ExperienceId) ==> Distinct(r.1.items, ExperienceId)
    ensures ContentReplaced(st, r.0, sectionId, ExperienceContent(r.1.items))
  {
    var next := AppendActive(sel, ExperienceId, BlankExperience(newId));
    assert next.items == sel.items + [BlankExperience(newId)];
    (UpdateSection(st, sectionId, ContentPatch(ExperienceContent(next.items))), next)
  }

  /**
   * `updateExperience`: merge the patch into the entries with that id; the list keeps
   * its length and order.
   */
  function UpdateExperience(st: ResumeState, sectionId: string, items: seq<ExperienceItem>, id: string, patch: ExperiencePatch)
    : (r: (ResumeState, seq<ExperienceItem>))
    ensures |r.1| == |items|
    ensures forall i :: 0 <= i < |items| && items[i].id != id ==> r.1[i] == items[i]
    ensures forall i :: 0 <= i < |items| && items[i].id == id ==> r.1[i] == MergeExperience(items[i], patch)
    ensures patch.id.None? ==> Ids(r.1, ExperienceId) == Ids(items, ExperienceId)
    ensures ContentReplaced(st, r.0, sectionId, ExperienceContent(r.1))
  {
    var next := UpdateWhere(items, ExperienceId, id, (e: ExperienceItem) => MergeExperience(e, patch));
    (UpdateSection(st, sectionId, ContentPatch(ExperienceContent(next))), next)
  }

  /** Patching an entry nobody carries writes the list back unchanged. */
  lemma UpdateUnknownEntry(st: ResumeState, sectionId: string, items: seq<ExperienceItem>, id: string, patch: ExperiencePatch)
    requires !HasId(items, ExperienceId, id)
    ensures UpdateExperience(st, sectionId, items, id, patch).1 == items
  {
    UpdateWhereMissing(items, ExperienceId, id, (e: ExperienceItem) => MergeExperience(e, patch));
  }

  /** Sending the same patch twice is sending it once. */
  lemma UpdateExperienceIdempotent(st: ResumeState, sectionId: string, items: seq<ExperienceItem>, id: string, patch: ExperiencePatch)
    requires patch.id.None?
    ensures var once := UpdateExperience(st, sectionId, items, id, patch);
      UpdateExperience(once.0, sectionId, once.1, id, patch) == once
  {
    var once := UpdateExperience(st, sectionId, items, id, patch);
    var twice := UpdateExperience(once.0, sectionId, once.1, id, patch);
    assert twice.1 == once.1;
    assert twice.0.sections == once.0.sections;
  }

  /**
   * `removeExperience`: drop the entries with that id, keeping the others in order; if
   * the removed entry was being edited, move to the first remaining entry, or to none.
   */
  function RemoveExperience(st: ResumeState, sectionId: string, sel: Selection<ExperienceItem>, id: string)
    : (r: (ResumeState, Selection<ExperienceItem>))
    ensures r.1.items == RemoveWhere(sel.items, ExperienceId, id)
    ensures !HasId(r.1.items, ExperienceId, id)
    ensures sel.active == Some(id) ==> r.1.active == FirstId(r.1.items, ExperienceId)
    ensures sel.active != Some(id) ==> r.1.active == sel.active
    ensures ActiveValid(sel, ExperienceId) ==> ActiveValid(r.1, ExperienceId)
    ensures ContentReplaced(st, r.0, sectionId, ExperienceContent(r.1.items))
  {
    var next := RemoveActive(sel, ExperienceId, id);
    (UpdateSection(st, sectionId, ContentPatch(ExperienceContent(next.items))), next)
  }

  /**
   * Removing the entry just added restores the store exactly, provided the form's list
   * was what the store held for the section.
   */
  lemma AddThenRemoveRestores(st: ResumeState, sectionId: string, sel: Selection<ExperienceItem>, newId: string)
    requires !HasId(sel.items, ExperienceId, newId)
    requires forall i :: 0 <= i < |st.sections| && st.sections[i].id == sectionId ==>
      st.sections[i].content == ExperienceContent(sel.items)
    ensures var added := AddExperience(st, sectionId, sel, newId);
      var removed := RemoveExperience(added.0, sectionId, added.1, newId);
      && removed.0 == st
      && removed.1.items == sel.items
      && removed.1.active == FirstId(sel.items, ExperienceId)
  {
    var added := AddExperience(st, sectionId, sel, newId);
    var removed := RemoveExperience(added.0, sectionId, added.1, newId);
    AppendThenRemove(sel, ExperienceId, BlankExperience(newId));
    ReplaceBack(st, added.0, removed.0, sectionId, ExperienceContent(added.1.items), ExperienceContent(sel.items));
  }

  /** The generator's inputs: the entry's title and company. */
  datatype DescriptionRequest = DescriptionRequest(position: string, company: string)

  /**
   * The guards of `generateDescription`, in order: an unknown entry returns silently,
   * a missing API key and then an empty title or company are refused with a notice.
   * The first entry with the id is the one `find` returns.
   */
  function DescriptionGate(items: seq<ExperienceItem>, id: string, hasKey: bool): (r: Gate<DescriptionRequest>)
    ensures r.Silent? <==> !HasId(items, ExperienceId, id)
    ensures r == Refused(ApiKeyNotSet) <==> HasId(items, ExperienceId, id) && !hasKey
    ensures r == Refused(MissingInformation) <==>
      && HasId(items, ExperienceId, id) && hasKey
      && var e := items[FindFirst(items, ExperienceId, id).value]; e.position == "" || e.company == ""
    ensures r.Refused? ==> r.notice in {ApiKeyNotSet, MissingInformation}
    ensures r.Proceed? ==>
      && var e := items[FindFirst(items, ExperienceId, id).value];
      && r.request == DescriptionRequest(e.position, e.company)
      && e.position != "" && e.company != ""
  {
    match FindFirst(items, ExperienceId, id)
    case None => Silent
    case Some(k) =>
      if !hasKey then Refused(ApiKeyNotSet)
      else if items[k].position == "" || items[k].company == "" then Refused(MissingInformation)
      else Proceed(DescriptionRequest(items[k].position, items[k].company))
  }

  /**
   * `generateDescription` given whether a key is stored and the service's reply: the
   * store changes only when every guard passes and the reply is a text, and then only
   * the entry's description changes, through `updateExperience`.
   */
  function GenerateDescription(st: ResumeState, sectionId: string, items: seq<ExperienceItem>, id: string,
                               hasKey: bool, reply: Result<string>): (r: (ResumeState, Option<Notice>))
    ensures DescriptionGate(items, id, hasKey).Silent? ==> r == (st, None)
    ensures DescriptionGate(items, id, hasKey).Refused? ==> r == (st, Some(DescriptionGate(items, id, hasKey).notice))
    ensures DescriptionGate(items, id, hasKey).Proceed? && reply.Failure? ==>
      r == (st, Some(FailureNotice(reply.message)))
    ensures DescriptionGate(items, id, hasKey).Proceed? && reply.Success? ==>
      && r.1 == Some(Generated)
      && r.0 == UpdateExperience(st, sectionId, items, id, DescriptionPatch(reply.value)).0
    ensures r.0 != st ==> reply.Success? && HasId(items, ExperienceId, id)
  {
    match DescriptionGate(items, id, hasKey)
    case Silent => (st, None)
    case Refused(n) => (st, Some(n))
    case Proceed(_) =>
      match reply
      case Failure(message) => (st, Some(FailureNotice(message)))
      case Success(text) => (UpdateExperience(st, sectionId, items, id, DescriptionPatch(text)).0, Some(Generated))
  }

  /** A successful generation replaces only the description of the entries with that id. */
  lemma GeneratedDescriptionOnly(st: ResumeState, sectionId: string, items: seq<ExperienceItem>, id: string,
                                 hasKey: bool, text: string)
    requires DescriptionGate(items, id, hasKey).Proceed?
    ensures var after := UpdateExperience(st, sectionId, items, id, DescriptionPatch(text)).1;
      && |after| == |items|
      && forall i :: 0 <= i < |items| ==>
           after[i] == if items[i].id == id then items[i].(description := text) else items[i]
  {
  }

  /** Every edit of the entry list keeps a consistent store consistent when it targets an experience section. */
  lemma ExperienceEditKeepsConsistent(st: ResumeState, r: ResumeState, sectionId: string, items: seq<ExperienceItem>)
    requires Consistent(st) && ContentReplaced(st, r, sectionId, ExperienceContent(items))
    requires forall i :: 0 <= i < |st.sections| && st.sections[i].id == sectionId ==> st.sections[i].kind == Experience
    ensures Consistent(r)
  {
    ReplacedKeepsConsistent(st, r, sectionId, ExperienceContent(items));
  }
}
