/**
 * The resume store: the document state and its eight transitions, each a pure
 * function from the old state to the new one. Persistence is left out.
 */
module ResumeStore {
  import opened Common
  import opened ResumeTypes
  import opened ItemLists
  import opened SectionSort

  /** The id of the contact section, the one the section list refuses to delete. */
  const ContactId: string := "contact"

  /** The section ids of a fresh document, in order. */
  const InitialIds: seq<string> := ["contact", "summary", "experience", "education", "skills"]

  function InitialSections(): seq<Section> {
    [ Section("contact", Contact, "Contact Information",
        ContactContent("", "", "", "", Some(""), Some("")), 0),
      Section("summary", Summary, "Professional Summary", SummaryContent(""), 1),
      Section("experience", Experience, "Work Experience", ExperienceContent([]), 2),
      Section("education", Education, "Education", EducationContent([]), 3),
      Section("skills", Skills, "Skills",
        SkillsContent([SkillCategory("technical", "Technical Skills", [])]), 4) ]
  }

  function InitialState(): ResumeState {
    ResumeState(InitialSections(), Some(ContactId), Modern, "My Resume")
  }

  /**
   * What the store's documents keep: unique ids, unique orders, storage sorted by
   * order, and every payload matching its section type.
   */
  predicate Consistent(st: ResumeState) {
    && Distinct(st.sections, SectionId)
    && Distinct(st.sections, OrderOf)
    && SortedByOrder(st.sections)
    && forall i :: 0 <= i < |st.sections| ==> WellTyped(st.sections[i])
  }

  /** The fresh document: five well-typed sections with orders 0..4, contact selected. */
  lemma InitialStateFacts()
    ensures Ids(InitialState().sections, SectionId) == InitialIds
    ensures forall j :: 0 <= j < |InitialState().sections| ==> InitialState().sections[j].order == j
    ensures Consistent(InitialState()) && Contiguous(InitialState().sections)
    ensures InitialState().activeSection == Some(ContactId)
    ensures InitialState().template == Modern && InitialState().resumeName == "My Resume"
  {
    InitialIdsDistinct();
    InitialWellTyped();
    IndexOrdersAreContiguous(InitialSections());
  }

  lemma InitialWellTyped()
    ensures forall i :: 0 <= i < |InitialSections()| ==> WellTyped(InitialSections()[i])
  {
    var s := InitialSections();
    assert WellTyped(s[0]) && WellTyped(s[1]) && WellTyped(s[2]) && WellTyped(s[3]) && WellTyped(s[4]);
  }

  lemma InitialIdsDistinct()
    ensures Ids(InitialSections(), SectionId) == InitialIds
    ensures Distinct(InitialSections(), SectionId)
  {
    var s := InitialSections();
    assert Ids(s, SectionId) == InitialIds;
    forall i, j | 0 <= i < j < |s| ensures SectionId(s[i]) != SectionId(s[j]) {
      assert SectionId(s[i]) == InitialIds[i] && SectionId(s[j]) == InitialIds[j];
    }
  }

  /** `addSection`: append, then sort the whole list by order. */
  function AddSection(st: ResumeState, section: Section): (r: ResumeState)
    ensures |r.sections| == |st.sections| + 1
    ensures multiset(r.sections) == multiset(st.sections) + multiset{section}
    ensures SortedByOrder(r.sections)
    ensures r.activeSection == st.activeSection && r.template == st.template
    ensures r.resumeName == st.resumeName
  {
    st.(sections := SortByOrder(st.sections + [section]))
  }

  /** A section with a fresh id and a fresh order keeps a consistent document consistent. */
  lemma AddSectionKeepsConsistent(st: ResumeState, section: Section)
    requires Consistent(st) && WellTyped(section)
    requires !HasId(st.sections, SectionId, section.id)
    requires forall i :: 0 <= i < |st.sections| ==> st.sections[i].order != section.order
    ensures Consistent(AddSection(st, section))
  {
    var t := st.sections + [section];
    var r := AddSection(st, section).sections;
    assert multiset(t) == multiset(r);
    assert Distinct(t, SectionId) by {
      AppendKeepsDistinct(st.sections, section, SectionId);
    }
    assert Distinct(t, OrderOf) by {
      AppendKeepsDistinct(st.sections, section, OrderOf);
    }
    PermutationKeepsDistinct(t, r, SectionId);
    PermutationKeepsDistinct(t, r, OrderOf);
    assert forall i :: 0 <= i < |t| ==> WellTyped(t[i]);
    PermutationKeepsTyped(t, r);
  }

  /** Appending an element whose key no element carries keeps the keys distinct. */
  lemma AppendKeepsDistinct<K>(s: seq<Section>, x: Section, key: Section -> K)
    requires Distinct(s, key) && forall i :: 0 <= i < |s| ==> key(s[i]) != key(x)
    ensures Distinct(s + [x], key)
  {
    var t := s + [x];
    forall i, j | 0 <= i < j < |t| ensures key(t[i]) != key(t[j]) {
      if j < |s| {
        assert t[i] == s[i] && t[j] == s[j];
      } else {
        assert t[i] == s[i] && t[j] == x;
      }
    }
  }

  /** Reordering sections keeps every payload matching its type. */
  lemma PermutationKeepsTyped(a: seq<Section>, b: seq<Section>)
    requires multiset(a) == multiset(b)
    requires forall i :: 0 <= i < |a| ==> WellTyped(a[i])
    ensures forall i :: 0 <= i < |b| ==> WellTyped(b[i])
  {
    forall i | 0 <= i < |b| ensures WellTyped(b[i]) {
      assert b[i] in multiset(a);
      var j :| 0 <= j < |a| && a[j] == b[i];
    }
  }

  /** `updateSection`: shallow-merge the patch into every section with that id. */
  function UpdateSection(st: ResumeState, id: string, patch: SectionPatch): (r: ResumeState)
    ensures |r.sections| == |st.sections|
    ensures forall i :: 0 <= i < |st.sections| && st.sections[i].id != id ==> r.sections[i] == st.sections[i]
    ensures forall i :: 0 <= i < |st.sections| && st.sections[i].id == id ==>
      r.sections[i] == Merge(st.sections[i], patch)
    ensures r.activeSection == st.activeSection && r.template == st.template
    ensures r.resumeName == st.resumeName
  {
    st.(sections := UpdateWhere(st.sections, SectionId, id, (x: Section) => Merge(x, patch)))
  }

  /** An id no section carries leaves the document as it was. */
  lemma UpdateSectionUnknownId(st: ResumeState, id: string, patch: SectionPatch)
    requires !HasId(st.sections, SectionId, id)
    ensures UpdateSection(st, id, patch) == st
  {
    UpdateWhereMissing(st.sections, SectionId, id, (x: Section) => Merge(x, patch));
  }

  /**
   * Applying the same update twice is applying it once; a patch that renames the
   * section leaves nothing under the old id for the second update to touch.
   */
  lemma UpdateSectionIdempotent(st: ResumeState, id: string, patch: SectionPatch)
    ensures UpdateSection(UpdateSection(st, id, patch), id, patch) == UpdateSection(st, id, patch)
  {
    var once := UpdateSection(st, id, patch);
    var twice := UpdateSection(once, id, patch);
    forall i | 0 <= i < |st.sections| ensures twice.sections[i] == once.sections[i] {
      MergeIdempotent(st.sections[i], patch);
    }
  }

  /**
   * A content-only patch of the section's own type keeps a consistent document
   * consistent: ids, orders and positions are untouched.
   */
  lemma ContentUpdateKeepsConsistent(st: ResumeState, id: string, c: Content)
    requires Consistent(st)
    requires forall i :: 0 <= i < |st.sections| && st.sections[i].id == id ==> st.sections[i].kind == KindOf(c)
    ensures Consistent(UpdateSection(st, id, ContentPatch(c)))
    ensures Ids(UpdateSection(st, id, ContentPatch(c)).sections, SectionId) == Ids(st.sections, SectionId)
    ensures forall i :: 0 <= i < |st.sections| ==>
      UpdateSection(st, id, ContentPatch(c)).sections[i].order == st.sections[i].order
  {
    var r := UpdateSection(st, id, ContentPatch(c)).sections;
    assert forall i :: 0 <= i < |r| ==> r[i].id == st.sections[i].id && r[i].order == st.sections[i].order;
    assert Distinct(r, SectionId) by {
      forall i, j | 0 <= i < j < |r| ensures SectionId(r[i]) != SectionId(r[j]) {
        assert SectionId(st.sections[i]) != SectionId(st.sections[j]);
      }
    }
    assert Distinct(r, OrderOf) by {
      forall i, j | 0 <= i < j < |r| ensures OrderOf(r[i]) != OrderOf(r[j]) {
        assert OrderOf(st.sections[i]) != OrderOf(st.sections[j]);
      }
    }
  }

  /**
   * What a form's `updateSection(section.id, { content })` does to the store: every
   * section carrying `id` gets payload `c` and keeps its id, type, title and order;
   * every other section and the rest of the state are as before.
   */
  predicate ContentReplaced(st: ResumeState, r: ResumeState, id: string, c: Content) {
    && |r.sections| == |st.sections|
    && (forall i :: 0 <= i < |st.sections| && st.sections[i].id != id ==> r.sections[i] == st.sections[i])
    && (forall i :: 0 <= i < |st.sections| && st.sections[i].id == id ==>
          r.sections[i] == st.sections[i].(content := c))
    && r.activeSection == st.activeSection && r.template == st.template
    && r.resumeName == st.resumeName
  }

  /** A content-only patch replaces the payload and nothing else. */
  lemma ContentPatchReplaces(st: ResumeState, id: string, c: Content)
    ensures ContentReplaced(st, UpdateSection(st, id, ContentPatch(c)), id, c)
  {
  }

  /**
   * Writing back the payload the sections already had undoes a replacement: a form
   * edit followed by its inverse edit leaves the store exactly as it was.
   */
  lemma ReplaceBack(st: ResumeState, mid: ResumeState, r: ResumeState, id: string, c: Content, c0: Content)
    requires forall i :: 0 <= i < |st.sections| && st.sections[i].id == id ==> st.sections[i].content == c0
    requires ContentReplaced(st, mid, id, c) && ContentReplaced(mid, r, id, c0)
    ensures r == st
  {
    assert r.sections == st.sections by {
      forall i | 0 <= i < |st.sections| ensures r.sections[i] == st.sections[i] {
        assert mid.sections[i].id == st.sections[i].id;
      }
    }
  }

  /** A replacement by a payload of the section's own type keeps a consistent store consistent. */
  lemma ReplacedKeepsConsistent(st: ResumeState, r: ResumeState, id: string, c: Content)
    requires Consistent(st) && ContentReplaced(st, r, id, c)
    requires forall i :: 0 <= i < |st.sections| && st.sections[i].id == id ==> st.sections[i].kind == KindOf(c)
    ensures Consistent(r)
  {
    ContentUpdateKeepsConsistent(st, id, c);
    var u := UpdateSection(st, id, ContentPatch(c));
    assert r.sections == u.sections;
  }

  /** `removeSection`: drop every section with that id; clear the cursor if it pointed there. */
  function RemoveSection(st: ResumeState, id: string): (r: ResumeState)
    ensures forall i :: 0 <= i < |r.sections| ==> r.sections[i] in st.sections && r.sections[i].id != id
    ensures forall i :: 0 <= i < |st.sections| && st.sections[i].id != id ==> st.sections[i] in r.sections
    ensures r.activeSection == (if st.activeSection == Some(id) then None else st.activeSection)
    ensures r.template == st.template && r.resumeName == st.resumeName
  {
    RemoveWhereMembers(st.sections, SectionId, id);
    ResumeState(
      RemoveWhere(st.sections, SectionId, id),
      if st.activeSection == Some(id) then None else st.activeSection,
      st.template,
      st.resumeName)
  }

  /**
   * With unique ids, removing the section at position `k` leaves the others in place
   * with their orders as they were: there is no renumbering.
   */
  lemma RemoveSectionAt(st: ResumeState, k: nat)
    requires Distinct(st.sections, SectionId) && k < |st.sections|
    ensures RemoveSection(st, st.sections[k].id).sections == st.sections[..k] + st.sections[k + 1..]
  {
    RemoveWhereAt(st.sections, SectionId, k);
  }

  /** Removal keeps a consistent document consistent. */
  lemma RemoveSectionKeepsConsistent(st: ResumeState, id: string)
    requires Consistent(st)
    ensures Consistent(RemoveSection(st, id))
  {
    var s := st.sections;
    var r := RemoveSection(st, id).sections;
    RemoveWhereKeepsDistinct(s, SectionId, id, SectionId);
    RemoveWhereKeepsDistinct(s, SectionId, id, OrderOf);
    RemoveWhereSorted(s, id);
  }

  lemma {:induction false} RemoveWhereSorted(s: seq<Section>, id: string)
    requires SortedByOrder(s)
    ensures SortedByOrder(RemoveWhere(s, SectionId, id))
    decreases |s|
  {
    if |s| > 0 {
      RemoveWhereSorted(s[1..], id);
      RemoveWhereMembers(s[1..], SectionId, id);
    }
  }

  /** The store itself removes the contact section when asked: the guard lives in the section list. */
  lemma StoreRemovesContact()
    ensures !HasId(RemoveSection(InitialState(), ContactId).sections, SectionId, ContactId)
    ensures RemoveSection(InitialState(), ContactId).activeSection == None
  {
  }

  function SetActiveSection(st: ResumeState, id: Option<string>): ResumeState {
    st.(activeSection := id)
  }

  function SetTemplate(st: ResumeState, t: Template): ResumeState {
    st.(template := t)
  }

  function SetResumeName(st: ResumeState, name: string): ResumeState {
    st.(resumeName := name)
  }

  /** `resetStore`: back to the fresh document, whatever came before. */
  function ResetStore(st: ResumeState): ResumeState {
    InitialState()
  }

  /**
   * The three setters each replace their own field and nothing else, so they commute
   * with one another and a second write to the same field wins.
   */
  lemma SettersAreIndependent(st: ResumeState, a: Option<string>, t: Template, name: string)
    ensures SetActiveSection(st, a).sections == st.sections && SetActiveSection(st, a).activeSection == a
    ensures SetActiveSection(st, a).(activeSection := st.activeSection) == st
    ensures SetTemplate(st, t).sections == st.sections && SetTemplate(st, t).template == t
    ensures SetTemplate(st, t).(template := st.template) == st
    ensures SetResumeName(st, name).sections == st.sections && SetResumeName(st, name).resumeName == name
    ensures SetResumeName(st, name).(resumeName := st.resumeName) == st
    ensures SetTemplate(SetActiveSection(st, a), t) == SetActiveSection(SetTemplate(st, t), a)
    ensures SetResumeName(SetTemplate(st, t), name) == SetTemplate(SetResumeName(st, name), t)
    ensures SetResumeName(SetActiveSection(st, a), name) == SetActiveSection(SetResumeName(st, name), a)
  {
  }

  lemma ResetStoreRestoresInitial(st: ResumeState)
    ensures ResetStore(st) == InitialState()
    ensures Consistent(ResetStore(st))
    ensures Ids(ResetStore(st).sections, SectionId) == InitialIds
  {
    InitialStateFacts();
  }

  /** The order a section other than the moved one gets: bumped by one when at or past the target. */
  function Bumped(x: Section, newOrder: int): (r: Section)
    ensures r.id == x.id && r.kind == x.kind && r.title == x.title && r.content == x.content
    ensures r.order >= newOrder <==> x.order >= newOrder
    ensures r.order != newOrder
    ensures x.order != newOrder ==> r.order >= x.order
  {
    if x.order >= newOrder then x.(order := x.order + 1) else x
  }

  /** Bumping is strictly monotone on orders, so it keeps distinct orders distinct. */
  lemma BumpedMonotone(x: Section, y: Section, newOrder: int)
    ensures x.order < y.order ==> Bumped(x, newOrder).order < Bumped(y, newOrder).order
    ensures x.order == y.order <==> Bumped(x, newOrder).order == Bumped(y, newOrder).order
  {
  }

  function BumpOrders(s: seq<Section>, newOrder: int): (r: seq<Section>)
    ensures |r| == |s|
    ensures forall i :: 0 <= i < |s| ==> r[i] == Bumped(s[i], newOrder)
  {
    seq(|s|, i requires 0 <= i < |s| => Bumped(s[i], newOrder))
  }

  /**
   * The orders `moveSection` assigns, stated in place: position `k` gets the new
   * order, every other position is bumped. The store's result is this list, sorted.
   */
  function MovedInPlace(s: seq<Section>, k: nat, newOrder: int): (r: seq<Section>)
    requires k < |s|
    ensures |r| == |s|
    ensures r[k] == s[k].(order := newOrder)
    ensures forall i :: 0 <= i < |s| && i != k ==> r[i] == Bumped(s[i], newOrder)
    ensures forall i :: 0 <= i < |s| ==> r[i].id == s[i].id && r[i].content == s[i].content && r[i].kind == s[i].kind
  {
    seq(|s|, i requires 0 <= i < |s| => if i == k then s[k].(order := newOrder) else Bumped(s[i], newOrder))
  }

  /** The list `moveSection` sorts: the others, bumped, with the moved section pushed at the end. */
  function MoveWorkList(s: seq<Section>, k: nat, newOrder: int): (r: seq<Section>)
    requires k < |s|
    ensures multiset(r) == multiset(MovedInPlace(s, k, newOrder))
  {
    MovedInPlaceSplit(s, k, newOrder);
    BumpOrders(s[..k] + s[k + 1..], newOrder) + [s[k].(order := newOrder)]
  }

  /** The in-place list is the bumped prefix, the moved section, and the bumped suffix. */
  lemma MovedInPlaceSplit(s: seq<Section>, k: nat, newOrder: int)
    requires k < |s|
    ensures var pre, post := BumpOrders(s[..k], newOrder), BumpOrders(s[k + 1..], newOrder);
      && BumpOrders(s[..k] + s[k + 1..], newOrder) == pre + post
      && MovedInPlace(s, k, newOrder) == pre + [s[k].(order := newOrder)] + post
  {
  }

  /**
   * `moveSection`: find the first section with that id; if there is none, nothing
   * changes. Otherwise give it the new order, bump every other section at or past
   * that order, and sort.
   */
  function MoveSection(st: ResumeState, id: string, newOrder: int): (r: ResumeState)
    ensures !HasId(st.sections, SectionId, id) ==> r == st
    ensures r.activeSection == st.activeSection && r.template == st.template
    ensures r.resumeName == st.resumeName
    ensures |r.sections| == |st.sections|
    ensures HasId(st.sections, SectionId, id) ==>
      var k := FindFirst(st.sections, SectionId, id).value;
      && SortedByOrder(r.sections)
      && multiset(r.sections) == multiset(MovedInPlace(st.sections, k, newOrder))
  {
    match FindFirst(st.sections, SectionId, id)
    case None => st
    case Some(k) => st.(sections := SortByOrder(MoveWorkList(st.sections, k, newOrder)))
  }
}
