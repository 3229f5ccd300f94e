/**
 * Laws of the single-item edits and the filters of the store
 * (src/lib/store.ts:155-193, 247-250): toggling, removal, clearing checked
 * items, editing and the migration's category default.
 */
module Edits {
  import opened Options
  import opened Items

  /** Toggling twice restores the collection. */
  lemma ToggleInvolution(items: seq<Item>, id: string)
    ensures Toggle(Toggle(items, id), id) == items
  {
    var once := Toggle(items, id);
    var twice := Toggle(once, id);
    forall i | 0 <= i < |items|
      ensures twice[i] == items[i]
    {
      assert twice[i].(checked := once[i].checked) == once[i];
    }
  }

  /** Toggling an id that is on no item changes nothing. */
  lemma ToggleAbsent(items: seq<Item>, id: string)
    requires !HasId(items, id)
    ensures Toggle(items, id) == items
  {
    var r := Toggle(items, id);
    forall i | 0 <= i < |items|
      ensures r[i] == items[i]
    {
      assert items[i].id != id;
      assert r[i].(checked := items[i].checked) == items[i];
    }
  }

  /** Every position moved one place to the right. */
  function ShiftRight(idx: seq<nat>): (r: seq<nat>)
    ensures |r| == |idx| && forall k :: 0 <= k < |r| ==> r[k] == idx[k] + 1
  {
    seq(|idx|, k requires 0 <= k < |idx| => idx[k] + 1)
  }

  /** The positions selected from `s`: the head's, if it is kept, then the tail's moved right by one. */
  function ConsPositions<T>(s: seq<T>, p: T -> bool, rest: seq<nat>): (idx: seq<nat>)
    requires s != []
  {
    (if p(s[0]) then [0] else []) + ShiftRight(rest)
  }

  /** The elements selected from `s`: the head, if it is kept, then the tail's. */
  function ConsKept<T>(s: seq<T>, p: T -> bool, t: seq<T>): (r: seq<T>)
    requires s != []
  {
    (if p(s[0]) then [s[0]] else []) + t
  }

  lemma ConsPositionsHit<T>(s: seq<T>, t: seq<T>, p: T -> bool, rest: seq<nat>)
    requires s != [] && Selects(s[1..], t, p, rest)
    ensures var idx := ConsPositions(s, p, rest);
            var r := ConsKept(s, p, t);
      |idx| == |r| && forall k :: 0 <= k < |idx| ==> idx[k] < |s| && r[k] == s[idx[k]]
  {
    var idx := ConsPositions(s, p, rest);
    var r := ConsKept(s, p, t);
    var h := if p(s[0]) then 1 else 0;
    forall k | h <= k < |idx|
      ensures idx[k] < |s| && r[k] == s[idx[k]]
    {
      assert idx[k] == rest[k - h] + 1 && r[k] == t[k - h];
      assert s[1..][rest[k - h]] == s[rest[k - h] + 1];
    }
  }

  lemma ConsPositionsIncrease<T>(s: seq<T>, t: seq<T>, p: T -> bool, rest: seq<nat>)
    requires s != [] && Selects(s[1..], t, p, rest)
    ensures var idx := ConsPositions(s, p, rest);
      forall k, l :: 0 <= k < l < |idx| ==> idx[k] < idx[l]
  {
    var idx := ConsPositions(s, p, rest);
    var h := if p(s[0]) then 1 else 0;
    forall k, l | 0 <= k < l < |idx|
      ensures idx[k] < idx[l]
    {
      assert idx[l] == rest[l - h] + 1;
      if k >= h {
        assert idx[k] == rest[k - h] + 1;
      }
    }
  }

  /** Shifting right moves membership by one, and never yields position 0. */
  lemma InShiftRight(idx: seq<nat>, j: nat)
    ensures j + 1 in ShiftRight(idx) <==> j in idx
    ensures 0 !in ShiftRight(idx)
  {
    var r := ShiftRight(idx);
    if j in idx {
      var k :| 0 <= k < |idx| && idx[k] == j;
      assert r[k] == j + 1;
    }
  }

  lemma ConsPositionsExact<T>(s: seq<T>, t: seq<T>, p: T -> bool, rest: seq<nat>)
    requires s != [] && Selects(s[1..], t, p, rest)
    ensures var idx := ConsPositions(s, p, rest);
      forall i :: 0 <= i < |s| ==> (p(s[i]) <==> i in idx)
  {
    var idx := ConsPositions(s, p, rest);
    var shifted := ShiftRight(rest);
    assert forall i :: i in idx <==> (i == 0 && p(s[0])) || i in shifted;
    forall i | 0 <= i < |s|
      ensures p(s[i]) <==> i in idx
    {
      InShiftRight(rest, if i == 0 then 0 else i - 1);
      if i > 0 {
        assert s[i] == s[1..][i - 1];
      }
    }
  }

  /** Selecting from `s` is deciding on its head and selecting from its tail. */
  lemma ConsSelects<T>(s: seq<T>, t: seq<T>, p: T -> bool, rest: seq<nat>)
    requires s != [] && Selects(s[1..], t, p, rest)
    ensures Selects(s, ConsKept(s, p, t), p, ConsPositions(s, p, rest))
  {
    ConsPositionsHit(s, t, p, rest);
    ConsPositionsIncrease(s, t, p, rest);
    ConsPositionsExact(s, t, p, rest);
  }

  /**
   * The filter keeps the elements satisfying `p` in their order: there is an
   * increasing list of the positions that satisfy `p`, and the result is `s`
   * at those positions.
   */
  lemma {:induction false} KeepSelects<T>(s: seq<T>, p: T -> bool) returns (idx: seq<nat>)
    ensures Selects(s, Keep(s, p), p, idx)
  {
    if s == [] {
      idx := [];
    } else {
      var rest := KeepSelects(s[1..], p);
      ConsSelects(s, Keep(s[1..], p), p, rest);
      idx := ConsPositions(s, p, rest);
    }
  }

  /** A filter that every element passes keeps the sequence as it is. */
  lemma {:induction false} KeepAll<T>(s: seq<T>, p: T -> bool)
    requires forall i :: 0 <= i < |s| ==> p(s[i])
    ensures Keep(s, p) == s
  {
    if s != [] {
      KeepAll(s[1..], p);
    }
  }

  /** Filtering twice is filtering once. */
  lemma KeepIdempotent<T>(s: seq<T>, p: T -> bool)
    ensures Keep(Keep(s, p), p) == Keep(s, p)
  {
    var r := Keep(s, p);
    var idx := KeepSelects(s, p);
    forall i | 0 <= i < |r|
      ensures p(r[i])
    {
      assert r[i] == s[idx[i]] && idx[i] in idx;
    }
    KeepAll(r, p);
  }

  /** The kept and the dropped elements together account for the whole sequence. */
  lemma {:induction false} KeepSplits<T>(s: seq<T>, p: T -> bool, q: T -> bool)
    requires forall x :: q(x) == !p(x)
    ensures |Keep(s, p)| + |Keep(s, q)| == |s|
  {
    if s != [] {
      KeepSplits(s[1..], p, q);
    }
  }

  /** A filter keeps ids unique and keeps unchecked names free of duplicates. */
  lemma KeepPreservesUniqueness(items: seq<Item>, p: Item -> bool)
    ensures UniqueIds(items) ==> UniqueIds(Keep(items, p))
    ensures NoDuplicateUnchecked(items) ==> NoDuplicateUnchecked(Keep(items, p))
  {
    var r := Keep(items, p);
    var idx := KeepSelects(items, p);
    forall k, l | 0 <= k < l < |r|
      ensures r[k] == items[idx[k]] && r[l] == items[idx[l]] && idx[k] < idx[l] < |items|
    {
    }
  }

  /** With unique ids, at most one item carries a given id. */
  lemma AtMostOneWithId(items: seq<Item>, id: string)
    requires UniqueIds(items)
    ensures |Keep(items, SameId(id))| == if HasId(items, id) then 1 else 0
  {
    var p := SameId(id);
    var r := Keep(items, p);
    var idx := KeepSelects(items, p);
    KeepMembers(items, p);
    assert |r| >= 1 ==> items[idx[0]].id == id;
    if HasId(items, id) {
      var i :| 0 <= i < |items| && items[i].id == id;
      assert items[i] in r;
    }
  }

  /**
   * `removeItem` on a collection with unique ids drops exactly the item with
   * the id, if there is one, keeps the others in their order, and leaves the
   * ids unique.
   */
  lemma RemoveExactlyOne(items: seq<Item>, id: string) returns (idx: seq<nat>)
    requires UniqueIds(items)
    ensures |Remove(items, id)| == |items| - (if HasId(items, id) then 1 else 0)
    ensures Selects(items, Remove(items, id), OtherId(id), idx)
    ensures UniqueIds(Remove(items, id))
  {
    var p := OtherId(id);
    idx := KeepSelects(items, p);
    KeepSplits(items, p, SameId(id));
    AtMostOneWithId(items, id);
    KeepPreservesUniqueness(items, p);
  }

  /** Removing an id that is on no item changes nothing. */
  lemma RemoveAbsent(items: seq<Item>, id: string)
    requires !HasId(items, id)
    ensures Remove(items, id) == items
  {
    KeepAll(items, OtherId(id));
  }

  /**
   * `clearCheckedItems` keeps the unchecked items in their order, keeps ids
   * unique and names free of duplicates, and a second call changes nothing.
   */
  lemma ClearCheckedLaws(items: seq<Item>) returns (idx: seq<nat>)
    ensures Selects(items, ClearChecked(items), Unchecked, idx)
    ensures UniqueIds(items) ==> UniqueIds(ClearChecked(items))
    ensures NoDuplicateUnchecked(items) ==> NoDuplicateUnchecked(ClearChecked(items))
    ensures ClearChecked(ClearChecked(items)) == ClearChecked(items)
  {
    var p := Unchecked;
    idx := KeepSelects(items, p);
    KeepPreservesUniqueness(items, p);
    KeepIdempotent(items, p);
  }

  /** Clearing a collection with nothing checked changes nothing. */
  lemma ClearCheckedNoneChecked(items: seq<Item>)
    requires forall i :: 0 <= i < |items| ==> !items[i].checked
    ensures ClearChecked(items) == items
  {
    KeepAll(items, Unchecked);
  }

  /**
   * `updateItem` overwrites the fields present in the patch on the item with
   * the id and touches nothing else.
   */
  lemma UpdateApplies(items: seq<Item>, id: string, patch: Patch)
    ensures var r := Update(items, id, patch);
      forall i :: 0 <= i < |r| ==>
        && (items[i].id != id ==> r[i] == items[i])
        && (items[i].id == id && patch.name.Some? ==> r[i].name == patch.name.value)
        && (items[i].id == id && patch.name.None? ==> r[i].name == items[i].name)
        && (items[i].id == id && patch.quantity.Some? ==> r[i].quantity == patch.quantity.value)
        && (items[i].id == id && patch.quantity.None? ==> r[i].quantity == items[i].quantity)
  {
  }

  /** Updating an id that is on no item changes nothing. */
  lemma UpdateAbsent(items: seq<Item>, id: string, patch: Patch)
    requires !HasId(items, id)
    ensures Update(items, id, patch) == items
  {
    var r := Update(items, id, patch);
    forall i | 0 <= i < |items|
      ensures r[i] == items[i]
    {
      assert items[i].id != id;
    }
  }

  /** Applying the same patch twice is applying it once. */
  lemma UpdateIdempotent(items: seq<Item>, id: string, patch: Patch)
    ensures Update(Update(items, id, patch), id, patch) == Update(items, id, patch)
  {
    var once := Update(items, id, patch);
    var twice := Update(once, id, patch);
    forall i | 0 <= i < |items|
      ensures twice[i] == once[i]
    {
    }
  }

  /** Defaulting the categories twice is doing it once. */
  lemma DefaultCategoryIdempotent(items: seq<Item>)
    ensures WithDefaultCategory(WithDefaultCategory(items)) == WithDefaultCategory(items)
  {
    var once := WithDefaultCategory(items);
    assert forall i :: 0 <= i < |once| ==> once[i].category.Some?;
  }
}
