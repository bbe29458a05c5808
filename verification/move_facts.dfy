/**
 * What `moveSection` does and does not guarantee. With distinct orders, the
 * result is the other sections in sorted order with the moved one inserted where
 * its new order falls. With the orders 0..N-1, that place is `LandingIndex`. From
 * there follow the arrow-button facts: moving down by one changes nothing on
 * screen, and moving up swaps with the predecessor but leaves a gap in the orders.
 */
module MoveFacts {
  import opened Common
  import opened ResumeTypes
  import opened ItemLists
  import opened SectionSort
  import opened ResumeStore

  /** How many leading sections have an order below `n`: where a section of order `n` goes. */
  function SplitPoint(v: seq<Section>, n: int): (p: nat)
    ensures p <= |v|
    ensures forall i :: 0 <= i < p ==> v[i].order < n
    ensures p < |v| ==> v[p].order >= n
  {
    if |v| == 0 || v[0].order >= n then 0 else 1 + SplitPoint(v[1..], n)
  }

  /** In a sorted list, everything from the split point on has an order of at least `n`. */
  lemma SplitPointSorted(v: seq<Section>, n: int)
    requires SortedByOrder(v)
    ensures forall i :: SplitPoint(v, n) <= i < |v| ==> v[i].order >= n
  {
  }

  /** The split point is the only index that separates the orders below `n` from the rest. */
  lemma {:induction false} SplitPointExact(v: seq<Section>, n: int, p: nat)
    requires p <= |v|
    requires forall i :: 0 <= i < p ==> v[i].order < n
    requires forall i :: p <= i < |v| ==> v[i].order >= n
    ensures SplitPoint(v, n) == p
    decreases p
  {
    if p > 0 {
      SplitPointExact(v[1..], n, p - 1);
    }
  }

  /** Bumping the orders at or past `n` keeps a strictly increasing list strictly increasing. */
  lemma BumpKeepsStrict(v: seq<Section>, n: int)
    requires StrictlyOrdered(v)
    ensures StrictlyOrdered(BumpOrders(v, n))
  {
    var b := BumpOrders(v, n);
    forall i, j | 0 <= i < j < |b| ensures b[i].order < b[j].order {
      BumpedMonotone(v[i], v[j], n);
    }
  }

  /** Orders below `n` are left alone by the bump. */
  lemma BumpBelowIsIdentity(v: seq<Section>, n: int)
    requires forall i :: 0 <= i < |v| ==> v[i].order < n
    ensures BumpOrders(v, n) == v
  {
  }

  lemma BumpAppend(a: seq<Section>, b: seq<Section>, n: int)
    ensures BumpOrders(a + b, n) == BumpOrders(a, n) + BumpOrders(b, n)
  {
  }

  /** Bumping lists with the same members gives lists with the same members. */
  lemma BumpMembers(a: seq<Section>, b: seq<Section>, n: int)
    requires forall x :: x in a <==> x in b
    ensures forall y :: y in BumpOrders(a, n) <==> y in BumpOrders(b, n)
  {
    forall y | y in BumpOrders(a, n) ensures y in BumpOrders(b, n) {
      var i :| 0 <= i < |a| && BumpOrders(a, n)[i] == y;
      assert a[i] in b;
      var j :| 0 <= j < |b| && b[j] == a[i];
      assert BumpOrders(b, n)[j] == y;
    }
    forall y | y in BumpOrders(b, n) ensures y in BumpOrders(a, n) {
      var j :| 0 <= j < |b| && BumpOrders(b, n)[j] == y;
      assert b[j] in a;
      var i :| 0 <= i < |a| && a[i] == b[j];
      assert BumpOrders(a, n)[i] == y;
    }
  }

  lemma StrictAround(a: seq<Section>, x: Section, b: seq<Section>)
    requires StrictlyOrdered(a) && StrictlyOrdered(b)
    requires forall i :: 0 <= i < |a| ==> a[i].order < x.order
    requires forall i :: 0 <= i < |b| ==> x.order < b[i].order
    ensures StrictlyOrdered(a + [x] + b)
  {
  }

  lemma SameMultisetSameMembers(a: seq<Section>, b: seq<Section>)
    requires multiset(a) == multiset(b)
    ensures forall x :: x in a <==> x in b
  {
    forall x ensures x in a <==> x in b {
      assert x in a <==> x in multiset(a);
      assert x in b <==> x in multiset(b);
    }
  }

  /** Giving one section a new order and bumping the rest keeps distinct orders distinct. */
  lemma MovedInPlaceDistinct(s: seq<Section>, k: nat, newOrder: int)
    requires Distinct(s, OrderOf) && k < |s|
    ensures Distinct(MovedInPlace(s, k, newOrder), OrderOf)
  {
    var m := MovedInPlace(s, k, newOrder);
    forall i, j | 0 <= i < j < |m| ensures OrderOf(m[i]) != OrderOf(m[j]) {
      assert OrderOf(s[i]) != OrderOf(s[j]);
      BumpedMonotone(s[i], s[j], newOrder);
    }
  }

  /**
   * `moveSection` keeps distinct orders distinct, and afterwards the moved section is
   * the only one holding the new order.
   */
  lemma MoveKeepsOrdersDistinct(st: ResumeState, id: string, newOrder: int)
    requires Distinct(st.sections, OrderOf) && HasId(st.sections, SectionId, id)
    ensures Distinct(MoveSection(st, id, newOrder).sections, OrderOf)
    ensures var r := MoveSection(st, id, newOrder).sections;
      forall i :: 0 <= i < |r| && r[i].order == newOrder ==> r[i].id == id
  {
    var s := st.sections;
    var k := FindFirst(s, SectionId, id).value;
    var m := MovedInPlace(s, k, newOrder);
    var r := MoveSection(st, id, newOrder).sections;
    MovedInPlaceDistinct(s, k, newOrder);
    PermutationKeepsDistinct(m, r, OrderOf);
    forall i | 0 <= i < |r| && r[i].order == newOrder ensures r[i].id == id {
      assert r[i] in multiset(m);
    }
  }

  /** `moveSection` keeps the ids: the same ids, as many times each. */
  lemma MoveKeepsIds(st: ResumeState, id: string, newOrder: int)
    ensures multiset(Ids(MoveSection(st, id, newOrder).sections, SectionId)) == multiset(Ids(st.sections, SectionId))
  {
    if HasId(st.sections, SectionId, id) {
      var s := st.sections;
      var k := FindFirst(s, SectionId, id).value;
      var m := MovedInPlace(s, k, newOrder);
      IdsPermutation(MoveSection(st, id, newOrder).sections, m, SectionId);
      assert Ids(m, SectionId) == Ids(s, SectionId);
    }
  }

  /** A consistent document stays consistent under `moveSection`. */
  lemma MoveKeepsConsistent(st: ResumeState, id: string, newOrder: int)
    requires Consistent(st)
    ensures Consistent(MoveSection(st, id, newOrder))
  {
    if HasId(st.sections, SectionId, id) {
      var s := st.sections;
      var k := FindFirst(s, SectionId, id).value;
      var m := MovedInPlace(s, k, newOrder);
      var r := MoveSection(st, id, newOrder).sections;
      MoveKeepsOrdersDistinct(st, id, newOrder);
      assert Distinct(m, SectionId) by {
        forall i, j | 0 <= i < j < |m| ensures SectionId(m[i]) != SectionId(m[j]) {
          assert SectionId(s[i]) != SectionId(s[j]);
        }
      }
      PermutationKeepsDistinct(m, r, SectionId);
      forall i | 0 <= i < |r| ensures WellTyped(r[i]) {
        assert r[i] in multiset(m);
        var j :| 0 <= j < |m| && m[j] == r[i];
        assert WellTyped(s[j]);
      }
    }
  }

  /** The other sections in sorted order, when the section at `k` is the one moving. */
  function Others(s: seq<Section>, k: nat): seq<Section>
    requires k < |s|
  {
    SortByOrder(Without(s, k))
  }

  /** `o` cut at `p`: the front kept, `m` in between, the back with its orders bumped. */
  function Cut(o: seq<Section>, p: nat, m: Section, newOrder: int): (l: seq<Section>)
    requires p <= |o|
    ensures |l| == |o| + 1 && l[p] == m
    ensures forall i :: 0 <= i < p ==> l[i] == o[i]
    ensures forall i :: p < i < |l| ==> l[i] == Bumped(o[i - 1], newOrder)
  {
    var l := o[..p] + [m] + BumpOrders(o[p..], newOrder);
    assert forall i :: p < i < |l| ==> l[i] == BumpOrders(o[p..], newOrder)[i - p - 1];
    l
  }

  /** The claimed result: the others cut at the split point, the moved section in between. */
  function Landed(s: seq<Section>, k: nat, newOrder: int): seq<Section>
    requires k < |s|
  {
    var others := Others(s, k);
    Cut(others, SplitPoint(others, newOrder), s[k].(order := newOrder), newOrder)
  }

  lemma OthersStrict(s: seq<Section>, k: nat)
    requires Distinct(s, OrderOf) && k < |s|
    ensures StrictlyOrdered(Others(s, k))
  {
    WithoutKeepsDistinct(s, k, OrderOf);
    PermutationKeepsDistinct(Without(s, k), Others(s, k), OrderOf);
    SortedDistinctIsStrict(Others(s, k));
  }

  lemma LandedStrict(s: seq<Section>, k: nat, newOrder: int)
    requires Distinct(s, OrderOf) && k < |s|
    ensures StrictlyOrdered(Landed(s, k, newOrder))
  {
    var others := Others(s, k);
    var p := SplitPoint(others, newOrder);
    OthersStrict(s, k);
    SplitPointSorted(others, newOrder);
    BumpKeepsStrict(others[p..], newOrder);
    StrictAround(others[..p], s[k].(order := newOrder), BumpOrders(others[p..], newOrder));
    assert Landed(s, k, newOrder) == others[..p] + [s[k].(order := newOrder)] + BumpOrders(others[p..], newOrder);
  }

  /** Cutting a list at its split point and bumping the back part only reorders the bumped list. */
  lemma CutMultiset(o: seq<Section>, p: nat, m: Section, newOrder: int)
    requires p == SplitPoint(o, newOrder)
    ensures multiset(Cut(o, p, m, newOrder)) == multiset(BumpOrders(o, newOrder)) + multiset{m}
  {
    var front, back := o[..p], o[p..];
    BumpBelowIsIdentity(front, newOrder);
    assert o == front + back;
    BumpAppend(front, back, newOrder);
    assert Cut(o, p, m, newOrder) == front + [m] + BumpOrders(back, newOrder);
  }

  lemma LandedAsBump(s: seq<Section>, k: nat, newOrder: int)
    requires k < |s|
    ensures multiset(Landed(s, k, newOrder))
      == multiset(BumpOrders(Others(s, k), newOrder)) + multiset{s[k].(order := newOrder)}
  {
    var others := Others(s, k);
    CutMultiset(others, SplitPoint(others, newOrder), s[k].(order := newOrder), newOrder);
  }

  lemma LandedMembers(s: seq<Section>, k: nat, newOrder: int)
    requires k < |s|
    ensures forall y :: y in Landed(s, k, newOrder) <==> y in MoveWorkList(s, k, newOrder)
  {
    var w := Without(s, k);
    var moved := s[k].(order := newOrder);
    LandedAsBump(s, k, newOrder);
    SameMultisetSameMembers(w, Others(s, k));
    BumpMembers(w, Others(s, k), newOrder);
    var a, b := BumpOrders(Others(s, k), newOrder), BumpOrders(w, newOrder);
    assert MoveWorkList(s, k, newOrder) == b + [moved];
    SameMultisetSameMembers(Landed(s, k, newOrder), a + [moved]);
    forall y ensures y in a + [moved] <==> y in b + [moved] {
      assert y in a + [moved] <==> y in a || y == moved;
      assert y in b + [moved] <==> y in b || y == moved;
    }
  }

  lemma MoveResultStrict(s: seq<Section>, k: nat, newOrder: int)
    requires Distinct(s, OrderOf) && k < |s|
    ensures StrictlyOrdered(SortByOrder(MoveWorkList(s, k, newOrder)))
  {
    var r := SortByOrder(MoveWorkList(s, k, newOrder));
    MovedInPlaceDistinct(s, k, newOrder);
    PermutationKeepsDistinct(MovedInPlace(s, k, newOrder), r, OrderOf);
    SortedDistinctIsStrict(r);
  }

  /**
   * The shape of `moveSection`'s result when orders are distinct. Take the other
   * sections in sorted order and cut them where the new order falls. The front part
   * is kept, the moved section comes next with its new order, and the rest follows
   * with each order bumped by one.
   */
  lemma MoveAsInsertion(st: ResumeState, id: string, newOrder: int)
    requires Distinct(st.sections, OrderOf) && HasId(st.sections, SectionId, id)
    ensures MoveSection(st, id, newOrder).sections
      == Landed(st.sections, FindFirst(st.sections, SectionId, id).value, newOrder)
  {
    var s := st.sections;
    var k := FindFirst(s, SectionId, id).value;
    var r := SortByOrder(MoveWorkList(s, k, newOrder));
    assert MoveSection(st, id, newOrder).sections == r;
    LandedStrict(s, k, newOrder);
    MoveResultStrict(s, k, newOrder);
    LandedMembers(s, k, newOrder);
    SameMultisetSameMembers(r, MoveWorkList(s, k, newOrder));
    StrictUnique(r, Landed(s, k, newOrder));
  }

  function Min(a: int, b: int): int {
    if a <= b then a else b
  }

  /**
   * With the orders 0..N-1, where a section at position `k` of the sorted list lands
   * when it is given order `n`: at position `n` when moving up, and one place short of
   * `n` when moving down, since it has left a hole behind it. The result is clamped
   * to the list.
   */
  function LandingIndex(k: int, n: int, count: int): int {
    if n <= 0 then 0 else if n <= k then n else Min(n - 1, count - 1)
  }

  lemma LandingBounds(k: int, n: int, count: int)
    requires 0 <= k < count
    ensures 0 <= LandingIndex(k, n, count) < count
  {
  }

  /** With contiguous orders, the section at `k0` sits at position `order` of the sorted list. */
  lemma SortedAtOrder(s: seq<Section>, k0: nat)
    requires Contiguous(s) && k0 < |s|
    ensures SortByOrder(s)[s[k0].order] == s[k0]
  {
    var v := SortByOrder(s);
    var kk := s[k0].order;
    ContiguousSortedView(s);
    assert v[kk] in multiset(s);
    assert v[kk] in s;
    var i :| 0 <= i < |s| && s[i] == v[kk];
    assert s[i].order == kk;
    SameKeySameIndex(s, OrderOf, i, k0);
  }

  /** Under distinct keys, two positions with the same key are the same position. */
  lemma SameKeySameIndex<K>(s: seq<Section>, key: Section -> K, i: nat, j: nat)
    requires Distinct(s, key) && i < |s| && j < |s| && key(s[i]) == key(s[j])
    ensures i == j
  {
  }

  lemma WithoutKeepsStrict(v: seq<Section>, k: nat)
    requires StrictlyOrdered(v) && k < |v|
    ensures StrictlyOrdered(Without(v, k))
  {
  }

  /** With contiguous orders, the other sections sorted are the sorted list with position `order` taken out. */
  lemma ContiguousOthers(s: seq<Section>, k0: nat)
    requires Contiguous(s) && k0 < |s|
    ensures Others(s, k0) == Without(SortByOrder(s), s[k0].order)
  {
    var v := SortByOrder(s);
    var kk := s[k0].order;
    ContiguousSortedView(s);
    SortedAtOrder(s, k0);
    WithoutMultiset(s, k0);
    WithoutMultiset(v, kk);
    assert multiset(Others(s, k0)) == multiset(Without(v, kk));
    SameMultisetSameMembers(Others(s, k0), Without(v, kk));
    OthersStrict(s, k0);
    WithoutKeepsStrict(v, kk);
    StrictUnique(Others(s, k0), Without(v, kk));
  }

  /** With contiguous orders, the others have orders `0..k-1, k+1..N-1`. */
  lemma ContiguousOthersOrders(s: seq<Section>, k0: nat)
    requires Contiguous(s) && k0 < |s|
    ensures |Others(s, k0)| == |s| - 1
    ensures forall i :: 0 <= i < |s| - 1 ==>
      Others(s, k0)[i].order == (if i < s[k0].order then i else i + 1)
  {
    ContiguousSortedView(s);
    ContiguousOthers(s, k0);
  }

  /** On orders `0..k-1, k+1..count-1`, the split point for `n` is the landing index. */
  lemma SplitPointOfGap(o: seq<Section>, k: int, n: int, count: int)
    requires |o| == count - 1 && 0 <= k < count
    requires forall i :: 0 <= i < |o| ==> o[i].order == (if i < k then i else i + 1)
    ensures SplitPoint(o, n) == LandingIndex(k, n, count)
  {
    SplitPointExact(o, n, LandingIndex(k, n, count));
  }

  /** With contiguous orders, the split point of the others is the landing index. */
  lemma ContiguousSplitPoint(s: seq<Section>, k0: nat, newOrder: int)
    requires Contiguous(s) && k0 < |s|
    ensures SplitPoint(Others(s, k0), newOrder) == LandingIndex(s[k0].order, newOrder, |s|)
    ensures forall i :: 0 <= i < |s| - 1 ==>
      Others(s, k0)[i].order == (if i < s[k0].order then i else i + 1)
  {
    ContiguousOthersOrders(s, k0);
    SplitPointOfGap(Others(s, k0), s[k0].order, newOrder, |s|);
  }

  /** The ids of a cut list built from a list with one position taken out. */
  lemma CutIds(v: seq<Section>, k: nat, p: nat, m: Section, newOrder: int)
    requires k < |v| && p <= |v| - 1
    ensures Ids(Cut(Without(v, k), p, m, newOrder), SectionId)
      == InsertAt(Without(Ids(v, SectionId), k), m.id, p)
  {
    var o := Without(v, k);
    var l := Cut(o, p, m, newOrder);
    var ids := Ids(l, SectionId);
    var want := InsertAt(Without(Ids(v, SectionId), k), m.id, p);
    forall i | 0 <= i < |l| ensures ids[i] == want[i] {
      if i < p {
        assert want[i] == Without(Ids(v, SectionId), k)[i];
      } else if i > p {
        assert want[i] == Without(Ids(v, SectionId), k)[i - 1];
      }
    }
  }

  /** With contiguous orders, the ids of the claimed result: the moved id re-inserted at its landing index. */
  lemma LandedIds(s: seq<Section>, k0: nat, newOrder: int)
    requires Contiguous(s) && k0 < |s|
    ensures var k := s[k0].order;
      Ids(Landed(s, k0, newOrder), SectionId)
        == InsertAt(Without(Ids(SortByOrder(s), SectionId), k), s[k0].id, LandingIndex(k, newOrder, |s|))
  {
    var k := s[k0].order;
    ContiguousOthers(s, k0);
    ContiguousSplitPoint(s, k0, newOrder);
    CutIds(SortByOrder(s), k, LandingIndex(k, newOrder, |s|), s[k0].(order := newOrder), newOrder);
  }

  /** With contiguous orders, the orders of the claimed result, position by position. */
  lemma LandedOrders(s: seq<Section>, k0: nat, newOrder: int)
    requires Contiguous(s) && k0 < |s|
    ensures OrdersAfterMove(Landed(s, k0, newOrder), s[k0].order, LandingIndex(s[k0].order, newOrder, |s|), newOrder)
  {
    ContiguousSplitPoint(s, k0, newOrder);
    LandingBounds(s[k0].order, newOrder, |s|);
  }

  /**
   * The orders after a move on a 0..N-1 document: the moved section, at position
   * `p`, holds the new order; the others hold their old order `j` (their position `j`
   * in the list without the moved one), plus one if it was at or after the old
   * position `k`, and the ones after `p` are bumped once more.
   */
  predicate OrdersAfterMove(r: seq<Section>, k: int, p: int, newOrder: int) {
    && 0 <= p < |r|
    && r[p].order == newOrder
    && (forall i :: 0 <= i < p ==> r[i].order == (if i < k then i else i + 1))
    && (forall i :: p < i < |r| ==> r[i].order == (if i - 1 < k then i - 1 else i) + 1)
  }

  /**
   * The visible effect of `moveSection` on a document whose orders are 0..N-1. The
   * sorted ids lose the moved id at its old position `k` and get it back at
   * `LandingIndex(k, newOrder, N)`.
   */
  lemma MoveVisualOrder(st: ResumeState, id: string, newOrder: int)
    requires Contiguous(st.sections) && HasId(st.sections, SectionId, id)
    ensures var s := st.sections;
      var k := s[FindFirst(s, SectionId, id).value].order;
      && 0 <= k < |s| && 0 <= LandingIndex(k, newOrder, |s|) < |s|
      && Ids(MoveSection(st, id, newOrder).sections, SectionId)
        == InsertAt(Without(Ids(SortByOrder(s), SectionId), k), id, LandingIndex(k, newOrder, |s|))
  {
    LandingBounds(st.sections[FindFirst(st.sections, SectionId, id).value].order, newOrder, |st.sections|);
    MoveAsInsertion(st, id, newOrder);
    LandedIds(st.sections, FindFirst(st.sections, SectionId, id).value, newOrder);
  }

  /**
   * The orders `moveSection` leaves on a document whose orders are 0..N-1, position
   * by position in the result: the moved section holds the new order, and the rest
   * keep their old order or one more, depending on which side of it they fall.
   */
  lemma MoveResultOrders(st: ResumeState, id: string, newOrder: int)
    requires Contiguous(st.sections) && HasId(st.sections, SectionId, id)
    ensures var s := st.sections;
      var k := s[FindFirst(s, SectionId, id).value].order;
      OrdersAfterMove(MoveSection(st, id, newOrder).sections, k, LandingIndex(k, newOrder, |s|), newOrder)
  {
    MoveAsInsertion(st, id, newOrder);
    LandedOrders(st.sections, FindFirst(st.sections, SectionId, id).value, newOrder);
  }

  /** `MoveVisualOrder` with the moved section's position and order named. */
  lemma MoveVisualOrderAt(st: ResumeState, id: string, newOrder: int, k0: nat, k: nat)
    requires Contiguous(st.sections) && HasId(st.sections, SectionId, id)
    requires k0 == FindFirst(st.sections, SectionId, id).value && k == st.sections[k0].order
    ensures k < |st.sections| && 0 <= LandingIndex(k, newOrder, |st.sections|) < |st.sections|
    ensures Ids(MoveSection(st, id, newOrder).sections, SectionId)
      == InsertAt(Without(SortedIds(st.sections), k), id, LandingIndex(k, newOrder, |st.sections|))
  {
    LandingBounds(k, newOrder, |st.sections|);
    MoveVisualOrder(st, id, newOrder);
  }

  /** `MovedIdInSortedIds` with the moved section's position and order named. */
  lemma MovedIdAt(st: ResumeState, id: string, k0: nat, k: nat)
    requires Contiguous(st.sections) && HasId(st.sections, SectionId, id)
    requires k0 == FindFirst(st.sections, SectionId, id).value && k == st.sections[k0].order
    ensures k < |st.sections| && SortedIds(st.sections)[k] == id
  {
    SortedAtOrder(st.sections, k0);
  }

  /** The sorted ids of a document: what the section list and the preview show, top to bottom. */
  function SortedIds(s: seq<Section>): (r: seq<string>)
    ensures |r| == |s|
  {
    Ids(SortByOrder(s), SectionId)
  }

  /** The moved section's id sits at position `order` of the sorted ids. */
  lemma MovedIdInSortedIds(st: ResumeState, id: string)
    requires Contiguous(st.sections) && HasId(st.sections, SectionId, id)
    ensures var s := st.sections;
      SortedIds(s)[s[FindFirst(s, SectionId, id).value].order] == id
  {
    SortedAtOrder(st.sections, FindFirst(st.sections, SectionId, id).value);
  }

  /**
   * Moving a section from order `k` to `k + 1` (the down arrow) changes nothing on
   * screen: the sorted ids are the same.
   */
  lemma MoveDownKeepsVisualOrder(st: ResumeState, id: string, k0: nat, k: nat)
    requires Contiguous(st.sections) && HasId(st.sections, SectionId, id)
    requires k0 == FindFirst(st.sections, SectionId, id).value
    requires k == st.sections[k0].order && k < |st.sections| - 1
    ensures Ids(MoveSection(st, id, k + 1).sections, SectionId) == SortedIds(st.sections)
  {
    MovedIdInSortedIds(st, id);
    assert LandingIndex(k, k + 1, |st.sections|) == k;
    MoveVisualOrder(st, id, k + 1);
    InsertAtWithout(SortedIds(st.sections), k);
  }

  /** The down arrow instead raises by one the order of the moved section and of everything after it. */
  lemma MoveDownShiftsOrders(st: ResumeState, id: string, k0: nat, k: nat)
    requires Contiguous(st.sections) && HasId(st.sections, SectionId, id)
    requires k0 == FindFirst(st.sections, SectionId, id).value
    requires k == st.sections[k0].order && k < |st.sections| - 1
    ensures ShiftedFrom(MoveSection(st, id, k + 1).sections, k)
  {
    MoveResultOrders(st, id, k + 1);
    DownOrders(MoveSection(st, id, k + 1).sections, k, |st.sections|);
  }

  lemma DownOrders(r: seq<Section>, k: nat, count: int)
    requires k + 1 < count
    requires OrdersAfterMove(r, k, LandingIndex(k, k + 1, count), k + 1)
    ensures ShiftedFrom(r, k)
  {
    assert LandingIndex(k, k + 1, count) == k;
  }

  /** Positions before `k` hold their index as order, positions from `k` on one more. */
  predicate ShiftedFrom(r: seq<Section>, k: int) {
    forall i :: 0 <= i < |r| ==> r[i].order == (if i < k then i else i + 1)
  }

  /**
   * Moving a section from order `k` to `k - 1` (the up arrow) swaps it with the
   * section shown just above it.
   */
  lemma MoveUpSwaps(st: ResumeState, id: string, k0: nat, k: nat)
    requires Contiguous(st.sections) && HasId(st.sections, SectionId, id)
    requires k0 == FindFirst(st.sections, SectionId, id).value
    requires k == st.sections[k0].order && k > 0
    ensures var ids := SortedIds(st.sections);
      var after := Ids(MoveSection(st, id, k - 1).sections, SectionId);
      && |after| == |ids|
      && after[k - 1] == ids[k] == id && after[k] == ids[k - 1]
      && forall i :: 0 <= i < |ids| && i != k - 1 && i != k ==> after[i] == ids[i]
  {
    MovedIdAt(st, id, k0, k);
    MoveVisualOrderAt(st, id, k - 1, k0, k);
    assert LandingIndex(k, k - 1, |st.sections|) == k - 1;
    SwapFromInsert(SortedIds(st.sections), Ids(MoveSection(st, id, k - 1).sections, SectionId), k, id);
  }

  /** Re-inserting the element at `k` one place earlier swaps it with its predecessor. */
  lemma SwapFromInsert<T>(ids: seq<T>, after: seq<T>, k: nat, x: T)
    requires 0 < k < |ids| && ids[k] == x && after == InsertAt(Without(ids, k), x, k - 1)
    ensures && |after| == |ids|
      && after[k - 1] == ids[k] == x && after[k] == ids[k - 1]
      && forall i :: 0 <= i < |ids| && i != k - 1 && i != k ==> after[i] == ids[i]
  {
    InsertAtWithoutEarlier(ids, k);
  }

  /**
   * Moving up from any order but the last leaves the orders with a gap: the last
   * section shown now has order N, so the orders are no longer 0..N-1.
   */
  lemma MoveUpLeavesGap(st: ResumeState, id: string, k0: nat, k: nat)
    requires Contiguous(st.sections) && HasId(st.sections, SectionId, id)
    requires k0 == FindFirst(st.sections, SectionId, id).value
    requires k == st.sections[k0].order && 0 < k < |st.sections| - 1
    ensures GapAtEnd(MoveSection(st, id, k - 1).sections)
    ensures !Contiguous(MoveSection(st, id, k - 1).sections)
  {
    MoveResultOrders(st, id, k - 1);
    assert LandingIndex(k, k - 1, |st.sections|) == k - 1;
    GapOrders(MoveSection(st, id, k - 1).sections, k);
  }

  lemma GapOrders(r: seq<Section>, k: int)
    requires 0 < k < |r| - 1 && OrdersAfterMove(r, k, k - 1, k - 1)
    ensures GapAtEnd(r) && !Contiguous(r)
  {
    assert |r| - 1 > k - 1;
  }

  /**
   * The same up move, from an order below N - 2, also leaves the second-to-last
   * section shown with order N - 1, the order at which the down arrow is disabled.
   */
  lemma MoveUpEndsAtLastOrder(st: ResumeState, id: string, k0: nat, k: nat)
    requires Contiguous(st.sections) && HasId(st.sections, SectionId, id)
    requires k0 == FindFirst(st.sections, SectionId, id).value
    requires k == st.sections[k0].order && 0 < k < |st.sections| - 2
    ensures LastOrderAboveEnd(MoveSection(st, id, k - 1).sections)
  {
    MoveResultOrders(st, id, k - 1);
    assert LandingIndex(k, k - 1, |st.sections|) == k - 1;
    PenultimateOrder(MoveSection(st, id, k - 1).sections, k);
  }

  lemma PenultimateOrder(r: seq<Section>, k: int)
    requires 0 < k < |r| - 2 && OrdersAfterMove(r, k, k - 1, k - 1)
    ensures LastOrderAboveEnd(r)
  {
    assert |r| - 2 > k - 1;
  }

  /** The last position holds order N, one past the 0..N-1 range. */
  /** The section second from the end carries the order that belongs to the last one. */
  predicate LastOrderAboveEnd(r: seq<Section>) {
    |r| >= 2 && r[|r| - 2].order == |r| - 1
  }

  predicate GapAtEnd(r: seq<Section>) {
    |r| > 0 && r[|r| - 1].order == |r|
  }

  lemma FreshEducationFound()
    ensures HasId(InitialState().sections, SectionId, "education")
    ensures FindFirst(InitialState().sections, SectionId, "education") == Some(3)
    ensures InitialState().sections[3].order == 3
  {
    InitialStateFacts();
    FindFirstUnique(InitialState().sections, SectionId, 3);
  }

  lemma FreshSortedIds()
    ensures SortedIds(InitialState().sections) == InitialIds
  {
    InitialStateFacts();
    SortOfSorted(InitialState().sections);
  }

  lemma ExampleIds()
    ensures InsertAt(Without(InitialIds, 3), "education", 1)
      == ["contact", "education", "summary", "experience", "skills"]
  {
    var w := Without(InitialIds, 3);
    assert w == ["contact", "summary", "experience", "skills"];
    assert InsertAt(w, "education", 1) == w[..1] + ["education"] + w[1..];
  }

  /** Giving order 1 to the section at order 3 of five, when it is Education. */
  lemma MoveEducationToOne(st: ResumeState)
    requires Contiguous(st.sections) && |st.sections| == 5
    requires HasId(st.sections, SectionId, "education")
    requires FindFirst(st.sections, SectionId, "education") == Some(3) && st.sections[3].order == 3
    requires SortedIds(st.sections) == InitialIds
    ensures var r := MoveSection(st, "education", 1).sections;
      && Ids(r, SectionId) == ["contact", "education", "summary", "experience", "skills"]
      && r[0].order == 0 && r[1].order == 1 && r[2].order == 2 && r[3].order == 3 && r[4].order == 5
  {
    MoveVisualOrder(st, "education", 1);
    MoveResultOrders(st, "education", 1);
    assert LandingIndex(3, 1, 5) == 1;
    ExampleIds();
    ExampleOrders(MoveSection(st, "education", 1).sections);
  }

  lemma ExampleOrders(r: seq<Section>)
    requires |r| == 5 && OrdersAfterMove(r, 3, 1, 1)
    ensures r[0].order == 0 && r[1].order == 1 && r[2].order == 2 && r[3].order == 3 && r[4].order == 5
  {
    assert r[2].order == (if 1 < 3 then 1 else 2) + 1;
    assert r[3].order == (if 2 < 3 then 2 else 3) + 1;
    assert r[4].order == (if 3 < 3 then 3 else 4) + 1;
  }

  /** On the fresh document, giving Education (order 3) the order 1 yields the orders 0, 1, 2, 3, 5. */
  lemma FreshDocumentMoveExample()
    ensures var r := MoveSection(InitialState(), "education", 1).sections;
      && Ids(r, SectionId) == ["contact", "education", "summary", "experience", "skills"]
      && r[0].order == 0 && r[1].order == 1 && r[2].order == 2 && r[3].order == 3 && r[4].order == 5
  {
    InitialStateFacts();
    FreshEducationFound();
    FreshSortedIds();
    MoveEducationToOne(InitialState());
  }
}
