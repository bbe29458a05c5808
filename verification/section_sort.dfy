/**
 * `[...sections].sort((a, b) => a.order - b.order)`. ECMAScript requires
 * `Array.prototype.sort` to be stable, so the result is fully determined: it is
 * modelled as an insertion sort that keeps equal orders in their input order, and
 * `StableSortUnique` shows that any other stable sort would give the same list.
 */
module SectionSort {
  import opened ResumeTypes
  import opened ItemLists

  predicate SortedByOrder(s: seq<Section>) {
    forall i, j :: 0 <= i < j < |s| ==> s[i].order <= s[j].order
  }

  predicate StrictlyOrdered(s: seq<Section>) {
    forall i, j :: 0 <= i < j < |s| ==> s[i].order < s[j].order
  }

  /** Orders are distinct and fill exactly `0 .. |s| - 1`. */
  predicate Contiguous(s: seq<Section>) {
    && Distinct(s, OrderOf)
    && forall i :: 0 <= i < |s| ==> 0 <= s[i].order < |s|
  }

  /** Insert before the first element whose order is not smaller, i.e. after all smaller ones. */
  function Insert(x: Section, s: seq<Section>): (r: seq<Section>)
    requires SortedByOrder(s)
    ensures SortedByOrder(r)
    ensures multiset(r) == multiset(s) + multiset{x}
    ensures |r| == |s| + 1
    ensures r[0] == x || (|s| > 0 && r[0] == s[0])
  {
    if |s| == 0 || x.order <= s[0].order then [x] + s
    else
      assert s == [s[0]] + s[1..];
      [s[0]] + Insert(x, s[1..])
  }

  /** The stable sort by `order`. */
  function SortByOrder(s: seq<Section>): (r: seq<Section>)
    ensures SortedByOrder(r)
    ensures multiset(r) == multiset(s)
    ensures |r| == |s|
  {
    if |s| == 0 then []
    else
      assert s == [s[0]] + s[1..];
      Insert(s[0], SortByOrder(s[1..]))
  }

  /** The elements whose order is `k`, in list order. */
  function WithOrder(s: seq<Section>, k: int): seq<Section> {
    if |s| == 0 then []
    else (if s[0].order == k then [s[0]] else []) + WithOrder(s[1..], k)
  }

  lemma {:induction false} WithOrderAppend(a: seq<Section>, b: seq<Section>, k: int)
    ensures WithOrder(a + b, k) == WithOrder(a, k) + WithOrder(b, k)
    decreases |a|
  {
    if |a| == 0 {
      assert a + b == b;
    } else {
      var c := if a[0].order == k then [a[0]] else [];
      assert a + b == [a[0]] + (a[1..] + b);
      WithOrderCons(a[0], a[1..] + b, k);
      WithOrderAppend(a[1..], b, k);
      assert WithOrder(a + b, k) == c + (WithOrder(a[1..], k) + WithOrder(b, k));
      assert a == [a[0]] + a[1..];
      WithOrderCons(a[0], a[1..], k);
      assert WithOrder(a, k) == c + WithOrder(a[1..], k);
      assert c + (WithOrder(a[1..], k) + WithOrder(b, k)) == (c + WithOrder(a[1..], k)) + WithOrder(b, k);
    }
  }

  lemma {:induction false} InsertStable(x: Section, s: seq<Section>, k: int)
    requires SortedByOrder(s)
    ensures WithOrder(Insert(x, s), k) == (if x.order == k then [x] else []) + WithOrder(s, k)
    decreases |s|
  {
    if |s| == 0 || x.order <= s[0].order {
      assert Insert(x, s) == [x] + s;
      WithOrderCons(x, s, k);
    } else {
      var rest := Insert(x, s[1..]);
      assert Insert(x, s) == [s[0]] + rest;
      WithOrderCons(s[0], rest, k);
      InsertStable(x, s[1..], k);
      assert s == [s[0]] + s[1..];
      WithOrderCons(s[0], s[1..], k);
      if x.order == k {
        assert s[0].order != k;
        assert WithOrder(Insert(x, s), k) == WithOrder(rest, k);
        assert WithOrder(s, k) == WithOrder(s[1..], k);
      } else if s[0].order == k {
        assert WithOrder(rest, k) == WithOrder(s[1..], k);
      } else {
        assert WithOrder(Insert(x, s), k) == WithOrder(rest, k) == WithOrder(s[1..], k) == WithOrder(s, k);
      }
    }
  }

  lemma WithOrderCons(h: Section, t: seq<Section>, k: int)
    ensures WithOrder([h] + t, k) == (if h.order == k then [h] else []) + WithOrder(t, k)
  {
    assert ([h] + t)[1..] == t;
  }

  /** Stability: for every order value, the elements carrying it keep their relative order. */
  lemma {:induction false} SortIsStable(s: seq<Section>)
    ensures forall k :: WithOrder(SortByOrder(s), k) == WithOrder(s, k)
    decreases |s|
  {
    if |s| > 0 {
      SortIsStable(s[1..]);
      forall k ensures WithOrder(SortByOrder(s), k) == WithOrder(s, k) {
        InsertStable(s[0], SortByOrder(s[1..]), k);
      }
    }
  }

  /** A list that is already sorted by order is left as it is. */
  lemma {:induction false} SortOfSorted(s: seq<Section>)
    requires SortedByOrder(s)
    ensures SortByOrder(s) == s
    decreases |s|
  {
    if |s| > 0 {
      SortOfSorted(s[1..]);
      assert s == [s[0]] + s[1..];
    }
  }

  lemma WithOrderHead(s: seq<Section>)
    requires |s| > 0
    ensures WithOrder(s, s[0].order) == [s[0]] + WithOrder(s[1..], s[0].order)
    ensures forall k :: k != s[0].order ==> WithOrder(s, k) == WithOrder(s[1..], k)
  {
  }

  /** A non-empty list has a non-empty class for the order of its head. */
  lemma HeadClassNonEmpty(s: seq<Section>)
    ensures |s| > 0 ==> WithOrder(s, s[0].order) != []
  {
  }

  /** In a sorted list, no element has an order smaller than the head's. */
  lemma {:induction false} WithOrderBelowHead(s: seq<Section>, k: int)
    requires SortedByOrder(s) && |s| > 0
    ensures k < s[0].order ==> WithOrder(s, k) == []
    decreases |s|
  {
    if |s| > 1 {
      WithOrderBelowHead(s[1..], k);
    }
  }

  /** Two sorted lists that agree on every order class are equal: a stable sort is unique. */
  lemma {:induction false} StableSortUnique(a: seq<Section>, b: seq<Section>)
    requires SortedByOrder(a) && SortedByOrder(b)
    requires forall k :: WithOrder(a, k) == WithOrder(b, k)
    ensures a == b
    decreases |a| + |b|
  {
    HeadClassNonEmpty(a);
    HeadClassNonEmpty(b);
    if |a| > 0 && |b| > 0 {
      WithOrderHead(a);
      WithOrderHead(b);
      var ka, kb := a[0].order, b[0].order;
      WithOrderBelowHead(b, ka);
      WithOrderBelowHead(a, kb);
      assert ka == kb;
      assert a[0] == WithOrder(a, ka)[0] == WithOrder(b, ka)[0] == b[0];
      forall k ensures WithOrder(a[1..], k) == WithOrder(b[1..], k) {
        if k == ka {
          assert WithOrder(a, k)[1..] == WithOrder(a[1..], k);
        }
      }
      StableSortUnique(a[1..], b[1..]);
      assert a == [a[0]] + a[1..] && b == [b[0]] + b[1..];
    }
  }

  /** Any sorted list with the same order classes as `s` is `SortByOrder(s)`. */
  lemma SortIsTheStableSort(s: seq<Section>, r: seq<Section>)
    requires SortedByOrder(r)
    requires forall k :: WithOrder(r, k) == WithOrder(s, k)
    ensures r == SortByOrder(s)
  {
    SortIsStable(s);
    StableSortUnique(r, SortByOrder(s));
  }

  /** Sorted with distinct orders means strictly increasing. */
  lemma SortedDistinctIsStrict(s: seq<Section>)
    requires SortedByOrder(s) && Distinct(s, OrderOf)
    ensures StrictlyOrdered(s)
  {
    forall i, j | 0 <= i < j < |s| ensures s[i].order < s[j].order {
      assert OrderOf(s[i]) != OrderOf(s[j]);
    }
  }

  /** The head of a strictly increasing list has the least order, and only the head has it. */
  lemma StrictHead(s: seq<Section>, i: int)
    requires StrictlyOrdered(s) && 0 <= i < |s|
    ensures s[0].order <= s[i].order
    ensures s[i].order == s[0].order ==> i == 0
  {
  }

  lemma SameMembersSameEmptiness(a: seq<Section>, b: seq<Section>)
    requires forall x :: x in a <==> x in b
    ensures |a| == 0 <==> |b| == 0
  {
    if |a| > 0 {
      assert a[0] in b;
    }
    if |b| > 0 {
      assert b[0] in a;
    }
  }

  /** Strictly increasing lists with the same elements are equal. */
  lemma {:induction false} StrictUnique(a: seq<Section>, b: seq<Section>)
    requires StrictlyOrdered(a) && StrictlyOrdered(b)
    requires forall x :: x in a <==> x in b
    ensures a == b
    decreases |a|
  {
    SameMembersSameEmptiness(a, b);
    if |a| > 0 {
      SameHead(a, b);
      forall x ensures x in a[1..] <==> x in b[1..] {
        if x in a[1..] {
          TailMember(a, b, x);
        }
        if x in b[1..] {
          TailMember(b, a, x);
        }
      }
      StrictUnique(a[1..], b[1..]);
      assert a == [a[0]] + a[1..] && b == [b[0]] + b[1..];
    }
  }

  /** Non-empty strictly increasing lists with the same elements start alike. */
  lemma SameHead(a: seq<Section>, b: seq<Section>)
    requires StrictlyOrdered(a) && StrictlyOrdered(b) && |a| > 0 && |b| > 0
    requires forall x :: x in a <==> x in b
    ensures a[0] == b[0]
  {
    assert a[0] in b;
    var p :| 0 <= p < |b| && b[p] == a[0];
    assert b[0] in a;
    var q :| 0 <= q < |a| && a[q] == b[0];
    StrictHead(a, q);
    StrictHead(b, p);
  }

  /** Past a shared head, what follows in one list follows in the other. */
  lemma TailMember(a: seq<Section>, b: seq<Section>, x: Section)
    requires StrictlyOrdered(a) && StrictlyOrdered(b) && |a| > 0 && |b| > 0 && a[0] == b[0]
    requires forall y :: y in a <==> y in b
    requires x in a[1..]
    ensures x in b[1..]
  {
    var i :| 0 <= i < |a[1..]| && a[1..][i] == x;
    assert a[0].order < a[i + 1].order;
    assert x in b;
    var j :| 0 <= j < |b| && b[j] == x;
    assert j != 0;
    assert b[1..][j - 1] == x;
  }

  lemma {:induction false} OrdersAtLeastIndex(v: seq<Section>, j: nat)
    requires StrictlyOrdered(v) && j < |v| && v[0].order >= 0
    ensures v[j].order >= j
    decreases j
  {
    if j > 0 {
      OrdersAtLeastIndex(v, j - 1);
    }
  }

  lemma {:induction false} OrdersAtMostIndex(v: seq<Section>, j: nat)
    requires StrictlyOrdered(v) && j < |v| && v[|v| - 1].order < |v|
    ensures v[j].order <= j
    decreases |v| - j
  {
    if j < |v| - 1 {
      OrdersAtMostIndex(v, j + 1);
    }
  }

  /** With contiguous orders, the sorted view has order `j` at position `j`. */
  lemma ContiguousSortedView(s: seq<Section>)
    requires Contiguous(s)
    ensures StrictlyOrdered(SortByOrder(s))
    ensures forall j :: 0 <= j < |s| ==> SortByOrder(s)[j].order == j
  {
    var v := SortByOrder(s);
    PermutationKeepsDistinct(s, v, OrderOf);
    SortedDistinctIsStrict(v);
    forall j | 0 <= j < |v| ensures 0 <= v[j].order < |v| {
      assert v[j] in multiset(s);
    }
    forall j | 0 <= j < |v| ensures v[j].order == j {
      OrdersAtLeastIndex(v, j);
      OrdersAtMostIndex(v, j);
    }
  }

  /** A strictly increasing list whose orders are its indices is contiguous. */
  lemma IndexOrdersAreContiguous(s: seq<Section>)
    requires forall j :: 0 <= j < |s| ==> s[j].order == j
    ensures Contiguous(s) && StrictlyOrdered(s)
  {
  }
}
