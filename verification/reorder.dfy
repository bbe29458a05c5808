/**
 * The reordering the arrows evidently intend: a section moves to a position of
 * the displayed list, every section is renumbered to its position, so the orders
 * stay 0..N-1 and one step up or down swaps the section with its neighbour. The
 * store's `moveSection` agrees with it on upward moves of a 0..N-1 document
 * (`MoveToAgreesUpward`) and differs on the step down (`MoveDownKeepsVisualOrder`).
 */
module Reorder {
  import opened Common
  import opened ResumeTypes
  import opened ItemLists
  import opened SectionSort
  import opened ResumeStore
  import opened MoveFacts
  import opened ResumeForm

  /** Every section gets its position as its order. */
  function Renumber(u: seq<Section>): (r: seq<Section>)
    ensures |r| == |u|
    ensures forall i :: 0 <= i < |r| ==> r[i] == u[i].(order := i)
  {
    seq(|u|, i requires 0 <= i < |u| => u[i].(order := i))
  }

  /** The sections with their orders erased: what a reordering must leave alone. */
  function Erased(s: seq<Section>): (r: seq<Section>)
    ensures |r| == |s|
    ensures forall i :: 0 <= i < |r| ==> r[i] == s[i].(order := 0)
  {
    seq(|s|, i requires 0 <= i < |s| => s[i].(order := 0))
  }

  /** `n` brought into `0 .. hi`. */
  function Clamp(n: int, hi: nat): (p: nat)
    ensures p <= hi
    ensures 0 <= n <= hi ==> p == n
    ensures n < 0 ==> p == 0
    ensures n > hi ==> p == hi
  {
    if n < 0 then 0 else if n > hi then hi else n
  }

  /** Where a section is displayed: its index in the list sorted by order. */
  function DisplayIndex(st: ResumeState, id: string): (r: Option<nat>)
    ensures r.None? <==> !HasId(st.sections, SectionId, id)
    ensures r.Some? ==> r.value < |st.sections| && SortByOrder(st.sections)[r.value].id == id
  {
    HasIdPermutation(SortByOrder(st.sections), st.sections, SectionId, id);
    FindFirst(SortByOrder(st.sections), SectionId, id)
  }

  /**
   * Move a section to position `target` (clamped to the list) of the displayed
   * order and renumber everything 0..N-1. An unknown id changes nothing.
   */
  function MoveTo(st: ResumeState, id: string, target: int): (r: ResumeState)
    ensures r.activeSection == st.activeSection && r.template == st.template
    ensures r.resumeName == st.resumeName
    ensures |r.sections| == |st.sections|
    ensures !HasId(st.sections, SectionId, id) ==> r == st
    ensures HasId(st.sections, SectionId, id) ==>
      && (forall i :: 0 <= i < |r.sections| ==> r.sections[i].order == i)
      && Contiguous(r.sections) && StrictlyOrdered(r.sections)
  {
    var v := SortByOrder(st.sections);
    match DisplayIndex(st, id)
    case None => st
    case Some(k) =>
      var r := Renumber(InsertAt(Without(v, k), v[k], Clamp(target, |v| - 1)));
      IndexOrdersAreContiguous(r);
      st.(sections := r)
  }

  /** The list `MoveTo` builds before renumbering. */
  function Placed(st: ResumeState, id: string, target: int): (u: seq<Section>)
    requires HasId(st.sections, SectionId, id)
    ensures |u| == |st.sections|
    ensures multiset(u) == multiset(st.sections)
  {
    var v := SortByOrder(st.sections);
    var k := DisplayIndex(st, id).value;
    InsertAtWithoutMultiset(v, k, Clamp(target, |v| - 1));
    InsertAt(Without(v, k), v[k], Clamp(target, |v| - 1))
  }

  lemma MoveToPlaced(st: ResumeState, id: string, target: int)
    requires HasId(st.sections, SectionId, id)
    ensures MoveTo(st, id, target).sections == Renumber(Placed(st, id, target))
  {
  }

  lemma IdsOfRenumber(u: seq<Section>)
    ensures Ids(Renumber(u), SectionId) == Ids(u, SectionId)
  {
  }

  /**
   * The displayed ids after `MoveTo`: the id is taken out of its displayed position
   * and put back at the clamped target.
   */
  lemma MoveToVisualOrder(st: ResumeState, id: string, target: int)
    requires HasId(st.sections, SectionId, id)
    ensures var k := DisplayIndex(st, id).value;
      Ids(MoveTo(st, id, target).sections, SectionId)
        == InsertAt(Without(SortedIds(st.sections), k), id, Clamp(target, |st.sections| - 1))
  {
    var v := SortByOrder(st.sections);
    var k := DisplayIndex(st, id).value;
    var p := Clamp(target, |v| - 1);
    var w := Without(v, k);
    IdsOfRenumber(InsertAt(w, v[k], p));
    IdsOfInsertAt(w, v[k], p, SectionId);
    IdsOfWithout(v, k, SectionId);
  }

  /** `MoveTo` only renumbers: with orders erased, the sections are the same. */
  lemma MoveToKeepsSections(st: ResumeState, id: string, target: int)
    ensures multiset(Erased(MoveTo(st, id, target).sections)) == multiset(Erased(st.sections))
  {
    if HasId(st.sections, SectionId, id) {
      var u := Placed(st, id, target);
      MoveToPlaced(st, id, target);
      assert Erased(Renumber(u)) == Erased(u);
      ErasedPermutation(u, st.sections);
    }
  }

  /** Erasing orders commutes with permuting. */
  lemma {:induction false} ErasedPermutation(a: seq<Section>, b: seq<Section>)
    requires multiset(a) == multiset(b)
    ensures multiset(Erased(a)) == multiset(Erased(b))
    decreases |a|
  {
    if |a| > 0 {
      var x := a[0];
      assert x in multiset(b);
      var j :| 0 <= j < |b| && b[j] == x;
      WithoutMultiset(a, 0);
      WithoutMultiset(b, j);
      ErasedPermutation(Without(a, 0), Without(b, j));
      ErasedWithout(a, 0);
      ErasedWithout(b, j);
    }
  }

  lemma ErasedWithout(s: seq<Section>, k: nat)
    requires k < |s|
    ensures multiset(Erased(s)) == multiset(Erased(Without(s, k))) + multiset{s[k].(order := 0)}
  {
    var e := Erased(s);
    assert Erased(Without(s, k)) == Without(e, k);
    WithoutMultiset(e, k);
    AddBack(multiset(e), e[k]);
  }

  /** `MoveTo` keeps the ids unique. */
  lemma MoveToKeepsIds(st: ResumeState, id: string, target: int)
    requires Distinct(st.sections, SectionId)
    ensures Distinct(MoveTo(st, id, target).sections, SectionId)
  {
    if HasId(st.sections, SectionId, id) {
      var u := Placed(st, id, target);
      MoveToPlaced(st, id, target);
      PermutationKeepsDistinct(st.sections, u, SectionId);
      RenumberKeepsDistinct(u);
    }
  }

  lemma RenumberKeepsDistinct(u: seq<Section>)
    requires Distinct(u, SectionId)
    ensures Distinct(Renumber(u), SectionId)
  {
    var r := Renumber(u);
    forall i, j | 0 <= i < j < |r| ensures SectionId(r[i]) != SectionId(r[j]) {
      assert SectionId(u[i]) != SectionId(u[j]);
    }
  }

  /** `MoveTo` keeps every section's payload matching its type. */
  lemma MoveToKeepsTyped(st: ResumeState, id: string, target: int)
    requires forall i :: 0 <= i < |st.sections| ==> WellTyped(st.sections[i])
    ensures var r := MoveTo(st, id, target).sections;
      forall i :: 0 <= i < |r| ==> WellTyped(r[i])
  {
    if HasId(st.sections, SectionId, id) {
      var u := Placed(st, id, target);
      MoveToPlaced(st, id, target);
      PermutationKeepsTyped(st.sections, u);
    }
  }

  /** A consistent document stays consistent under `MoveTo`, and its orders become 0..N-1. */
  lemma MoveToKeepsConsistent(st: ResumeState, id: string, target: int)
    requires Consistent(st)
    ensures Consistent(MoveTo(st, id, target))
    ensures HasId(st.sections, SectionId, id) ==> Contiguous(MoveTo(st, id, target).sections)
  {
    MoveToKeepsIds(st, id, target);
    MoveToKeepsTyped(st, id, target);
  }

  /** The corrected up arrow: one place up in the displayed order, nothing at the top. */
  function MoveUpFixed(st: ResumeState, id: string): (r: ResumeState)
    ensures DisplayIndex(st, id).None? ==> r == st
    ensures DisplayIndex(st, id).Some? && DisplayIndex(st, id).value == 0 ==> r == st
    ensures DisplayIndex(st, id).Some? && DisplayIndex(st, id).value > 0 ==>
      var k := DisplayIndex(st, id).value;
      var ids := SortedIds(st.sections);
      var after := Ids(r.sections, SectionId);
      && Contiguous(r.sections) && StrictlyOrdered(r.sections)
      && SwappedAt(ids, after, k - 1) && after[k - 1] == id
  {
    match DisplayIndex(st, id)
    case None => st
    case Some(k) =>
      if k == 0 then st
      else
        var r := MoveTo(st, id, k - 1);
        MoveToVisualOrder(st, id, k - 1);
        InsertAtWithoutEarlier(SortedIds(st.sections), k);
        r
  }

  /** The corrected down arrow: one place down in the displayed order, nothing at the bottom. */
  function MoveDownFixed(st: ResumeState, id: string): (r: ResumeState)
    ensures DisplayIndex(st, id).None? ==> r == st
    ensures DisplayIndex(st, id).Some? && DisplayIndex(st, id).value == |st.sections| - 1 ==> r == st
    ensures DisplayIndex(st, id).Some? && DisplayIndex(st, id).value < |st.sections| - 1 ==>
      var k := DisplayIndex(st, id).value;
      var ids := SortedIds(st.sections);
      var after := Ids(r.sections, SectionId);
      && Contiguous(r.sections) && StrictlyOrdered(r.sections)
      && SwappedAt(ids, after, k) && after[k + 1] == id
  {
    match DisplayIndex(st, id)
    case None => st
    case Some(k) =>
      if k == |st.sections| - 1 then st
      else
        var r := MoveTo(st, id, k + 1);
        MoveToVisualOrder(st, id, k + 1);
        InsertAtWithoutLater(SortedIds(st.sections), k);
        r
  }

  /** A document `MoveTo` produced is displayed as it is stored. */
  lemma MovedIsDisplayed(st: ResumeState, id: string, target: int)
    requires HasId(st.sections, SectionId, id)
    ensures var r := MoveTo(st, id, target).sections;
      SortByOrder(r) == r && SortedIds(r) == Ids(r, SectionId)
  {
    SortOfSorted(MoveTo(st, id, target).sections);
  }

  /** With unique ids, an id at position `j` of a sorted list is displayed at `j`. */
  lemma DisplayedAt(st: ResumeState, j: nat)
    requires j < |st.sections| && SortedByOrder(st.sections)
    requires Distinct(st.sections, SectionId)
    ensures DisplayIndex(st, st.sections[j].id) == Some(j)
  {
    SortOfSorted(st.sections);
    FindFirstUnique(st.sections, SectionId, j);
  }

  /** After a step down the section is displayed one place lower, and ids stay unique. */
  lemma AfterStepDown(st: ResumeState, id: string)
    requires Distinct(st.sections, SectionId)
    requires DisplayIndex(st, id).Some? && DisplayIndex(st, id).value < |st.sections| - 1
    ensures var once := MoveDownFixed(st, id);
      && Distinct(once.sections, SectionId)
      && DisplayIndex(once, id) == Some(DisplayIndex(st, id).value + 1)
      && SortedIds(once.sections) == Ids(once.sections, SectionId)
  {
    var k := DisplayIndex(st, id).value;
    var once := MoveTo(st, id, k + 1);
    assert MoveDownFixed(st, id) == once;
    MoveToKeepsIds(st, id, k + 1);
    MovedIsDisplayed(st, id, k + 1);
    assert Ids(once.sections, SectionId)[k + 1] == id;
    DisplayedAt(once, k + 1);
  }

  /** Moving down then up again restores the displayed order. */
  lemma DownThenUpRestores(st: ResumeState, id: string)
    requires Distinct(st.sections, SectionId)
    requires DisplayIndex(st, id).Some? && DisplayIndex(st, id).value < |st.sections| - 1
    ensures SortedIds(MoveUpFixed(MoveDownFixed(st, id), id).sections) == SortedIds(st.sections)
  {
    var k := DisplayIndex(st, id).value;
    var ids := SortedIds(st.sections);
    var once := MoveDownFixed(st, id);
    AfterStepDown(st, id);
    var twice := MoveUpFixed(once, id);
    assert SortedByOrder(twice.sections);
    SortOfSorted(twice.sections);
    SwappedTwice(ids, Ids(once.sections, SectionId), Ids(twice.sections, SectionId), k);
  }

  /**
   * On a document whose orders are 0..N-1 and whose ids are unique, the store's
   * `moveSection` and `MoveTo` give the same displayed order for every move up
   * (a target at or above the current order).
   */
  lemma MoveToAgreesUpward(st: ResumeState, id: string, newOrder: int)
    requires Contiguous(st.sections) && Distinct(st.sections, SectionId)
    requires HasId(st.sections, SectionId, id)
    requires newOrder <= st.sections[FindFirst(st.sections, SectionId, id).value].order
    ensures Ids(MoveSection(st, id, newOrder).sections, SectionId)
      == Ids(MoveTo(st, id, newOrder).sections, SectionId)
  {
    var s := st.sections;
    var k0 := FindFirst(s, SectionId, id).value;
    var k := s[k0].order;
    DisplayIndexIsOrder(st, id);
    MoveVisualOrder(st, id, newOrder);
    MoveToVisualOrder(st, id, newOrder);
    assert LandingIndex(k, newOrder, |s|) == Clamp(newOrder, |s| - 1);
  }

  /** With 0..N-1 orders and unique ids, a section is displayed at the position of its order. */
  lemma DisplayIndexIsOrder(st: ResumeState, id: string)
    requires Contiguous(st.sections) && Distinct(st.sections, SectionId)
    requires HasId(st.sections, SectionId, id)
    ensures DisplayIndex(st, id) == Some(st.sections[FindFirst(st.sections, SectionId, id).value].order)
  {
    var s := st.sections;
    var k0 := FindFirst(s, SectionId, id).value;
    var v := SortByOrder(s);
    SortedAtOrder(s, k0);
    PermutationKeepsDistinct(s, v, SectionId);
    FindFirstUnique(v, SectionId, s[k0].order);
  }

  /**
   * After a corrected move, the arrows' disabled conditions match the displayed
   * position: up is disabled only at the top, down only at the bottom.
   */
  lemma FixedButtonsMatchPosition(st: ResumeState, id: string, target: int)
    requires HasId(st.sections, SectionId, id)
    ensures var r := MoveTo(st, id, target);
      forall i :: 0 <= i < |r.sections| ==>
        && (UpDisabled(r.sections[i]) <==> i == 0)
        && (DownDisabled(r, r.sections[i]) <==> i == |r.sections| - 1)
  {
  }
}
