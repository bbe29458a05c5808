/**
 * Id-keyed list edits shared by the store and the forms: `map` with an id test,
 * `filter` on an id, `findIndex`, and the "active item" cursor that several forms keep.
 * Every list element is identified through an `idOf` accessor.
 */
module ItemLists {
  import opened Common

  /** The keys of a list are pairwise distinct. */
  predicate Distinct<T, K(==)>(s: seq<T>, key: T -> K) {
    forall i, j :: 0 <= i < j < |s| ==> key(s[i]) != key(s[j])
  }

  /** Some element of the list carries this id. */
  predicate HasId<T>(s: seq<T>, idOf: T -> string, id: string) {
    exists i :: 0 <= i < |s| && idOf(s[i]) == id
  }

  /** The ids of a list, in list order. */
  function Ids<T>(s: seq<T>, idOf: T -> string): (r: seq<string>)
    ensures |r| == |s|
    ensures forall i :: 0 <= i < |s| ==> r[i] == idOf(s[i])
  {
    seq(|s|, i requires 0 <= i < |s| => idOf(s[i]))
  }

  lemma IdsAppend<T>(a: seq<T>, b: seq<T>, idOf: T -> string)
    ensures Ids(a + b, idOf) == Ids(a, idOf) + Ids(b, idOf)
  {
  }

  /** `findIndex(x => x.id === id)`, with `-1` as `None`. */
  function FindFirst<T>(s: seq<T>, idOf: T -> string, id: string): (r: Option<nat>)
    ensures r.None? <==> !HasId(s, idOf, id)
    ensures r.Some? ==> r.value < |s| && idOf(s[r.value]) == id
    ensures r.Some? ==> forall j :: 0 <= j < r.value ==> idOf(s[j]) != id
  {
    if |s| == 0 then None
    else if idOf(s[0]) == id then Some(0)
    else
      match FindFirst(s[1..], idOf, id)
      case None =>
        assert forall i :: 1 <= i < |s| ==> s[i] == s[1..][i - 1];
        None
      case Some(k) => Some(k + 1)
  }

  /** With distinct ids, the first index carrying an id is the only one. */
  lemma FindFirstUnique<T>(s: seq<T>, idOf: T -> string, k: nat)
    requires Distinct(s, idOf)
    requires k < |s|
    ensures FindFirst(s, idOf, idOf(s[k])) == Some(k)
  {
  }

  /** `items.map(x => x.id === id ? f(x) : x)`. */
  function UpdateWhere<T>(s: seq<T>, idOf: T -> string, id: string, f: T -> T): (r: seq<T>)
    ensures |r| == |s|
    ensures forall i :: 0 <= i < |s| && idOf(s[i]) != id ==> r[i] == s[i]
    ensures forall i :: 0 <= i < |s| && idOf(s[i]) == id ==> r[i] == f(s[i])
  {
    if |s| == 0 then []
    else [if idOf(s[0]) == id then f(s[0]) else s[0]] + UpdateWhere(s[1..], idOf, id, f)
  }

  /** An id nobody carries leaves the list as it was. */
  lemma UpdateWhereMissing<T>(s: seq<T>, idOf: T -> string, id: string, f: T -> T)
    requires !HasId(s, idOf, id)
    ensures UpdateWhere(s, idOf, id, f) == s
  {
  }

  /** When `f` keeps ids, the id sequence (and so its distinctness) is unchanged. */
  lemma UpdateWhereKeepsIds<T>(s: seq<T>, idOf: T -> string, id: string, f: T -> T)
    requires forall x :: idOf(f(x)) == idOf(x)
    ensures Ids(UpdateWhere(s, idOf, id, f), idOf) == Ids(s, idOf)
  {
  }

  /** `items.filter(x => x.id !== id)`. */
  function RemoveWhere<T(==)>(s: seq<T>, idOf: T -> string, id: string): (r: seq<T>)
    ensures |r| <= |s|
    ensures forall i :: 0 <= i < |r| ==> idOf(r[i]) != id
  {
    if |s| == 0 then []
    else (if idOf(s[0]) == id then [] else [s[0]]) + RemoveWhere(s[1..], idOf, id)
  }

  /** The survivors of the filter are exactly the elements without the id. */
  lemma {:induction false} RemoveWhereMembers<T>(s: seq<T>, idOf: T -> string, id: string)
    ensures forall i :: 0 <= i < |RemoveWhere(s, idOf, id)| ==> RemoveWhere(s, idOf, id)[i] in s
    ensures forall i :: 0 <= i < |s| && idOf(s[i]) != id ==> s[i] in RemoveWhere(s, idOf, id)
    decreases |s|
  {
    if |s| > 0 {
      RemoveWhereMembers(s[1..], idOf, id);
      var rest := RemoveWhere(s[1..], idOf, id);
      var head: seq<T> := if idOf(s[0]) == id then [] else [s[0]];
      assert RemoveWhere(s, idOf, id) == head + rest;
      forall i | 0 <= i < |s| && idOf(s[i]) != id ensures s[i] in head + rest {
        if i > 0 {
          assert s[i] == s[1..][i - 1];
        }
      }
    }
  }

  /** Filtering distributes over concatenation: the survivors keep their relative order. */
  lemma {:induction false} RemoveWhereAppend<T>(a: seq<T>, b: seq<T>, idOf: T -> string, id: string)
    ensures RemoveWhere(a + b, idOf, id) == RemoveWhere(a, idOf, id) + RemoveWhere(b, idOf, id)
    decreases |a|
  {
    if |a| == 0 {
      assert a + b == b;
    } else {
      assert (a + b)[1..] == a[1..] + b;
      RemoveWhereAppend(a[1..], b, idOf, id);
    }
  }

  /** Filtering out an id nobody carries keeps the whole list. */
  lemma {:induction false} RemoveWhereMissing<T>(s: seq<T>, idOf: T -> string, id: string)
    requires !HasId(s, idOf, id)
    ensures RemoveWhere(s, idOf, id) == s
    decreases |s|
  {
    if |s| > 0 {
      assert !HasId(s[1..], idOf, id) by {
        forall i | 0 <= i < |s[1..]| ensures idOf(s[1..][i]) != id {
          assert s[1..][i] == s[i + 1];
        }
      }
      RemoveWhereMissing(s[1..], idOf, id);
      assert s == [s[0]] + s[1..];
    }
  }

  /** With distinct ids, no element other than `k` carries the id of element `k`. */
  lemma OnlyAt<T>(s: seq<T>, idOf: T -> string, k: nat)
    requires Distinct(s, idOf)
    requires k < |s|
    ensures !HasId(s[..k], idOf, idOf(s[k]))
    ensures !HasId(s[k + 1..], idOf, idOf(s[k]))
  {
    var pre, post := s[..k], s[k + 1..];
    forall i | 0 <= i < |pre| ensures idOf(pre[i]) != idOf(s[k]) {
      assert pre[i] == s[i];
    }
    forall i | 0 <= i < |post| ensures idOf(post[i]) != idOf(s[k]) {
      assert post[i] == s[k + 1 + i];
    }
  }

  /** With distinct ids, removing the id of element `k` removes exactly that element. */
  lemma RemoveWhereAt<T>(s: seq<T>, idOf: T -> string, k: nat)
    requires Distinct(s, idOf)
    requires k < |s|
    ensures RemoveWhere(s, idOf, idOf(s[k])) == s[..k] + s[k + 1..]
  {
    var id := idOf(s[k]);
    var pre, post := s[..k], s[k + 1..];
    OnlyAt(s, idOf, k);
    assert s == pre + [s[k]] + post;
    SplitRemoval(pre, s[k], post, idOf, id);
  }

  lemma SplitRemoval<T>(pre: seq<T>, x: T, post: seq<T>, idOf: T -> string, id: string)
    requires !HasId(pre, idOf, id) && !HasId(post, idOf, id) && idOf(x) == id
    ensures RemoveWhere(pre + [x] + post, idOf, id) == pre + post
  {
    assert pre + [x] + post == pre + ([x] + post);
    RemoveWhereAppend(pre, [x] + post, idOf, id);
    RemoveWhereAppend([x], post, idOf, id);
    RemoveWhereMissing(pre, idOf, id);
    RemoveWhereMissing(post, idOf, id);
    assert [x][1..] == [];
  }

  /** Filtering keeps any key that was distinct distinct. */
  lemma {:induction false} RemoveWhereKeepsDistinct<T, K>(s: seq<T>, idOf: T -> string, id: string, key: T -> K)
    ensures Distinct(s, key) ==> Distinct(RemoveWhere(s, idOf, id), key)
    decreases |s|
  {
    if |s| > 0 && Distinct(s, key) {
      var rest := RemoveWhere(s[1..], idOf, id);
      RemoveWhereMembers(s[1..], idOf, id);
      assert Distinct(s[1..], key);
      RemoveWhereKeepsDistinct(s[1..], idOf, id, key);
      forall x | x in rest ensures key(x) != key(s[0]) {
        var j :| 0 <= j < |s[1..]| && s[1..][j] == x;
        assert s[j + 1] == x;
      }
    }
  }

  /** An id other than the removed one that was present is still present. */
  lemma RemoveWhereKeepsOtherIds<T>(s: seq<T>, idOf: T -> string, id: string, other: string)
    ensures HasId(s, idOf, other) && other != id ==> HasId(RemoveWhere(s, idOf, id), idOf, other)
  {
    if HasId(s, idOf, other) && other != id {
      var j :| 0 <= j < |s| && idOf(s[j]) == other;
      var r := RemoveWhere(s, idOf, id);
      RemoveWhereMembers(s, idOf, id);
      assert s[j] in r;
      var k :| 0 <= k < |r| && r[k] == s[j];
    }
  }

  /** The number of occurrences seen at two indices. */
  lemma CountTwo<T>(s: seq<T>, i: int, j: int)
    requires 0 <= i < j < |s|
    ensures s[i] == s[j] ==> multiset(s)[s[i]] >= 2
  {
    assert s == s[..j] + [s[j]] + s[j + 1..];
    assert s[..j][i] == s[i];
    assert s[i] in multiset(s[..j]);
  }

  /** A list with distinct keys holds each element at most once. */
  lemma {:induction false} DistinctOccursOnce<T, K>(s: seq<T>, key: T -> K)
    requires Distinct(s, key)
    ensures forall x :: multiset(s)[x] <= 1
    decreases |s|
  {
    if |s| > 0 {
      var init := s[..|s| - 1];
      var y := s[|s| - 1];
      assert Distinct(init, key);
      DistinctOccursOnce(init, key);
      assert s == init + [y];
      forall p | 0 <= p < |init| ensures init[p] != y {
        assert key(s[p]) != key(s[|s| - 1]);
      }
      assert y !in multiset(init);
    }
  }

  /** Distinct keys survive any permutation of the list. */
  lemma PermutationKeepsDistinct<T, K>(a: seq<T>, b: seq<T>, key: T -> K)
    requires multiset(a) == multiset(b)
    requires Distinct(a, key)
    ensures Distinct(b, key)
  {
    DistinctOccursOnce(a, key);
    forall i, j | 0 <= i < j < |b| ensures key(b[i]) != key(b[j]) {
      CountTwo(b, i, j);
      assert b[i] != b[j];
      assert b[i] in multiset(a) && b[j] in multiset(a);
      var p :| 0 <= p < |a| && a[p] == b[i];
      var q :| 0 <= q < |a| && a[q] == b[j];
      assert p != q;
      if p < q {
        assert key(a[p]) != key(a[q]);
      } else {
        assert key(a[q]) != key(a[p]);
      }
    }
  }

  /** The list with position `k` taken out (`splice(k, 1)`). */
  function Without<T>(s: seq<T>, k: nat): (r: seq<T>)
    requires k < |s|
    ensures |r| == |s| - 1
    ensures forall i :: 0 <= i < |r| ==> r[i] == (if i < k then s[i] else s[i + 1])
  {
    s[..k] + s[k + 1..]
  }

  /** The list with `x` placed at position `p`. */
  function InsertAt<T>(s: seq<T>, x: T, p: nat): (r: seq<T>)
    requires p <= |s|
    ensures |r| == |s| + 1 && r[p] == x
    ensures forall i :: 0 <= i < |r| && i != p ==> r[i] == (if i < p then s[i] else s[i - 1])
  {
    s[..p] + [x] + s[p..]
  }

  /** Putting an element back where it was taken out restores the list. */
  lemma InsertAtWithout<T>(s: seq<T>, k: nat)
    requires k < |s|
    ensures InsertAt(Without(s, k), s[k], k) == s
  {
  }

  /** Putting it back one place earlier swaps it with its predecessor. */
  lemma InsertAtWithoutEarlier<T>(s: seq<T>, k: nat)
    requires 0 < k < |s|
    ensures var r := InsertAt(Without(s, k), s[k], k - 1);
      && |r| == |s| && r[k - 1] == s[k] && r[k] == s[k - 1]
      && forall i :: 0 <= i < |s| && i != k - 1 && i != k ==> r[i] == s[i]
  {
  }

  /** Putting it back one place later swaps it with its successor. */
  lemma InsertAtWithoutLater<T>(s: seq<T>, k: nat)
    requires k + 1 < |s|
    ensures var r := InsertAt(Without(s, k), s[k], k + 1);
      && |r| == |s| && r[k + 1] == s[k] && r[k] == s[k + 1]
      && forall i :: 0 <= i < |s| && i != k && i != k + 1 ==> r[i] == s[i]
  {
  }

  lemma IdsOfWithout<T>(s: seq<T>, k: nat, idOf: T -> string)
    requires k < |s|
    ensures Ids(Without(s, k), idOf) == Without(Ids(s, idOf), k)
  {
  }

  lemma IdsOfInsertAt<T>(s: seq<T>, x: T, p: nat, idOf: T -> string)
    requires p <= |s|
    ensures Ids(InsertAt(s, x, p), idOf) == InsertAt(Ids(s, idOf), idOf(x), p)
  {
  }

  /** Lists with the same elements carry the same ids. */
  lemma HasIdPermutation<T>(a: seq<T>, b: seq<T>, idOf: T -> string, id: string)
    requires multiset(a) == multiset(b)
    ensures HasId(a, idOf, id) <==> HasId(b, idOf, id)
  {
    if HasId(a, idOf, id) {
      var i :| 0 <= i < |a| && idOf(a[i]) == id;
      assert a[i] in multiset(b);
      var j :| 0 <= j < |b| && b[j] == a[i];
    }
    if HasId(b, idOf, id) {
      var j :| 0 <= j < |b| && idOf(b[j]) == id;
      assert b[j] in multiset(a);
      var i :| 0 <= i < |a| && a[i] == b[j];
    }
  }

  /** Inserting what was taken out gives back the same elements. */
  lemma InsertAtWithoutMultiset<T>(s: seq<T>, k: nat, p: nat)
    requires k < |s| && p < |s|
    ensures multiset(InsertAt(Without(s, k), s[k], p)) == multiset(s)
  {
    var w := Without(s, k);
    WithoutMultiset(s, k);
    assert InsertAt(w, s[k], p) == w[..p] + [s[k]] + w[p..];
    assert multiset(w[..p] + [s[k]] + w[p..]) == multiset(w[..p]) + multiset{s[k]} + multiset(w[p..]);
    assert w == w[..p] + w[p..];
    assert multiset(w) == multiset(w[..p]) + multiset(w[p..]);
    AddBack(multiset(s), s[k]);
  }

  /** Taking out one copy of a member and adding it again gives the same multiset. */
  lemma AddBack<T>(m: multiset<T>, x: T)
    requires x in m
    ensures (m - multiset{x}) + multiset{x} == m
  {
    forall y ensures ((m - multiset{x}) + multiset{x})[y] == m[y] {
    }
  }

  /** `b` is `a` with positions `j` and `j + 1` exchanged. */
  predicate SwappedAt<T(==)>(a: seq<T>, b: seq<T>, j: nat) {
    && |b| == |a| && j + 1 < |a|
    && b[j] == a[j + 1] && b[j + 1] == a[j]
    && forall i :: 0 <= i < |a| && i != j && i != j + 1 ==> b[i] == a[i]
  }

  /** Exchanging the same two neighbours twice restores the list. */
  lemma SwappedTwice<T>(a: seq<T>, b: seq<T>, c: seq<T>, j: nat)
    requires SwappedAt(a, b, j) && SwappedAt(b, c, j)
    ensures c == a
  {
    assert forall i :: 0 <= i < |a| ==> c[i] == a[i];
  }

  /** Taking out position `k` removes exactly one copy of `s[k]`. */
  lemma WithoutMultiset<T>(s: seq<T>, k: nat)
    requires k < |s|
    ensures multiset(Without(s, k)) == multiset(s) - multiset{s[k]}
  {
    assert s == s[..k] + [s[k]] + s[k + 1..];
  }

  lemma WithoutKeepsDistinct<T, K>(s: seq<T>, k: nat, key: T -> K)
    requires k < |s| && Distinct(s, key)
    ensures Distinct(Without(s, k), key)
  {
    var r := Without(s, k);
    forall i, j | 0 <= i < j < |r| ensures key(r[i]) != key(r[j]) {
      var i' := if i < k then i else i + 1;
      var j' := if j < k then j else j + 1;
      assert key(s[i']) != key(s[j']);
    }
  }

  /** Permuting a list permutes its ids. */
  lemma {:induction false} IdsPermutation<T>(a: seq<T>, b: seq<T>, idOf: T -> string)
    requires multiset(a) == multiset(b)
    ensures multiset(Ids(a, idOf)) == multiset(Ids(b, idOf))
    decreases |a|
  {
    if |a| > 0 {
      var x := a[0];
      assert x in multiset(b);
      var j :| 0 <= j < |b| && b[j] == x;
      WithoutMultiset(a, 0);
      WithoutMultiset(b, j);
      IdsPermutation(Without(a, 0), Without(b, j), idOf);
      IdsWithout(a, 0, idOf);
      IdsWithout(b, j, idOf);
    }
  }

  lemma IdsWithout<T>(s: seq<T>, k: nat, idOf: T -> string)
    requires k < |s|
    ensures multiset(Ids(s, idOf)) == multiset(Ids(Without(s, k), idOf)) + multiset{idOf(s[k])}
  {
    var pre, post := s[..k], s[k + 1..];
    assert s == pre + [s[k]] + post;
    IdsAppend(pre + [s[k]], post, idOf);
    IdsAppend(pre, [s[k]], idOf);
    IdsAppend(pre, post, idOf);
  }

  /** The set of ids present in a list. */
  function IdSet<T>(s: seq<T>, idOf: T -> string): set<string> {
    set i | 0 <= i < |s| :: idOf(s[i])
  }

  /** A list together with the id of the item the form is editing (`activeItem`). */
  datatype Selection<T> = Selection(items: seq<T>, active: Option<string>)

  /** The cursor is unset or names an item that is present. */
  predicate ActiveValid<T>(sel: Selection<T>, idOf: T -> string) {
    sel.active.None? || HasId(sel.items, idOf, sel.active.value)
  }

  /** `items.length > 0 ? items[0].id : null`. */
  function FirstId<T>(s: seq<T>, idOf: T -> string): (r: Option<string>)
    ensures r.None? <==> |s| == 0
    ensures r.Some? ==> HasId(s, idOf, r.value) && r.value == idOf(s[0])
  {
    if |s| > 0 then Some(idOf(s[0])) else None
  }

  /**
   * Append a new item and make it active (`[...items, newItem]` then `setActiveItem(newId)`).
   * The caller supplies an id no item carries.
   */
  function AppendActive<T>(sel: Selection<T>, idOf: T -> string, item: T): (r: Selection<T>)
    requires !HasId(sel.items, idOf, idOf(item))
    ensures |r.items| == |sel.items| + 1 && r.items[..|sel.items|] == sel.items
    ensures r.items[|sel.items|] == item
    ensures r.active == Some(idOf(item)) && ActiveValid(r, idOf)
    ensures Distinct(sel.items, idOf) ==> Distinct(r.items, idOf)
  {
    var items := sel.items + [item];
    assert items[|sel.items|] == item;
    assert items[..|sel.items|] == sel.items;
    Selection(items, Some(idOf(item)))
  }

  /**
   * Remove every item with `id`; if the active item was removed, fall back to the first
   * remaining item, or to none when the list became empty.
   */
  function RemoveActive<T(==)>(sel: Selection<T>, idOf: T -> string, id: string): (r: Selection<T>)
    ensures forall i :: 0 <= i < |r.items| ==> r.items[i] in sel.items && idOf(r.items[i]) != id
    ensures forall i :: 0 <= i < |sel.items| && idOf(sel.items[i]) != id ==> sel.items[i] in r.items
    ensures sel.active == Some(id) ==> r.active == FirstId(r.items, idOf)
    ensures sel.active != Some(id) ==> r.active == sel.active
    ensures r.active != Some(id)
    ensures ActiveValid(sel, idOf) ==> ActiveValid(r, idOf)
    ensures Distinct(sel.items, idOf) ==> Distinct(r.items, idOf)
  {
    var items := RemoveWhere(sel.items, idOf, id);
    RemoveWhereMembers(sel.items, idOf, id);
    RemoveWhereKeepsDistinct(sel.items, idOf, id, idOf);
    RemoveWhereKeepsOtherIds(sel.items, idOf, id, sel.active.GetOr(id));
    Selection(items, if sel.active == Some(id) then FirstId(items, idOf) else sel.active)
  }

  /** Filtering out the id of an appended fresh item gives back the original list. */
  lemma RemoveAppended<T>(s: seq<T>, idOf: T -> string, x: T)
    requires !HasId(s, idOf, idOf(x))
    ensures RemoveWhere(s + [x], idOf, idOf(x)) == s
  {
    RemoveWhereAppend(s, [x], idOf, idOf(x));
    RemoveWhereMissing(s, idOf, idOf(x));
    assert [x][1..] == [];
  }

  /**
   * Removing the item just appended gives back the original items, with the cursor on
   * the first of them (the fallback, since the appended item was active).
   */
  lemma AppendThenRemove<T>(sel: Selection<T>, idOf: T -> string, item: T)
    requires !HasId(sel.items, idOf, idOf(item))
    ensures RemoveActive(AppendActive(sel, idOf, item), idOf, idOf(item)).items == sel.items
    ensures RemoveActive(AppendActive(sel, idOf, item), idOf, idOf(item)).active == FirstId(sel.items, idOf)
  {
    var added := AppendActive(sel, idOf, item);
    assert added.items == sel.items + [item];
    RemoveAppended(sel.items, idOf, item);
  }

  /**
   * `activeItem ? items.find((x) => x.id === activeItem) : null`: the entry the form
   * edits. An empty id is falsy, so it selects nothing.
   */
  function ActiveEntry<T>(sel: Selection<T>, idOf: T -> string): (r: Option<T>)
    ensures r.Some? <==> sel.active.Some? && sel.active.value != "" && HasId(sel.items, idOf, sel.active.value)
    ensures r.Some? ==> r.value in sel.items && idOf(r.value) == sel.active.value
  {
    match sel.active
    case None => None
    case Some(id) =>
      if id == "" then None
      else
        match FindFirst(sel.items, idOf, id)
        case None => None
        case Some(k) => Some(sel.items[k])
  }
}
