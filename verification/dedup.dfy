/**
 * What the `addItems` loop (src/lib/store.ts:112-153) guarantees about the
 * collection it saves: an incoming name never adds a second unchecked item
 * with the same normalized name, every incoming name ends up on the list
 * unchecked, names already on the list create nothing, and ids stay unique
 * when the stamps are fresh.
 */
module Dedup {
  import opened Options
  import opened Items

  /** `b` is `a`, possibly merged into, with items appended. */
  predicate Grows(a: seq<Item>, b: seq<Item>) {
    |a| <= |b| && forall i :: 0 <= i < |a| ==> Agrees(a[i], b[i])
  }

  lemma GrowsTrans(a: seq<Item>, b: seq<Item>, c: seq<Item>)
    requires Grows(a, b) && Grows(b, c)
    ensures Grows(a, c)
  {
    forall i | 0 <= i < |a|
      ensures Agrees(a[i], c[i])
    {
      AgreesTrans(a[i], b[i], c[i]);
    }
  }

  /** A merge keeps an item's name and flag, so it matches the same names as before. */
  lemma AgreesKeepsMatch(a: Item, b: Item, key: string)
    requires Agrees(a, b)
    ensures Matches(a, key) <==> Matches(b, key)
  {
  }

  /** An unchecked item with a given name stays on a list that only grows. */
  lemma GrowsKeepsUnchecked(a: seq<Item>, b: seq<Item>, key: string)
    requires Grows(a, b) && HasUnchecked(a, key)
    ensures HasUnchecked(b, key)
  {
    var i :| 0 <= i < |a| && Matches(a[i], key);
    AgreesKeepsMatch(a[i], b[i], key);
  }

  /**
   * One iteration: the list only grows; only the first unchecked item with
   * the incoming normalized name may change, and only by `MergeInto`; a new
   * item is appended exactly when there was none; afterwards there is one.
   */
  lemma AddOneTouchesFirstMatch(w: Working, n: NewItem, stamps: seq<Stamp>)
    requires w.used < |stamps|
    ensures var key := NormalizeForCompare(n.name);
            var r := AddOne(w, n, stamps);
      && Grows(w.items, r.items)
      && (r.used == w.used + 1 <==> !HasUnchecked(w.items, key))
      && (forall i :: 0 <= i < |w.items| && r.items[i] != w.items[i] ==>
            && Matches(w.items[i], key)
            && r.items[i] == MergeInto(w.items[i], n)
            && forall j :: 0 <= j < i ==> !Matches(w.items[j], key))
      && HasUnchecked(r.items, key)
  {
    var key := NormalizeForCompare(n.name);
    var r := AddOne(w, n, stamps);
    match FindMatch(w.items, key)
    case Some(m) =>
      assert Matches(r.items[m], key);
    case None =>
      assert Matches(r.items[|w.items|], key);
  }

  /** The whole loop only grows the list. */
  lemma {:induction false} AddAllGrows(w: Working, ins: seq<NewItem>, stamps: seq<Stamp>)
    requires w.used + |ins| <= |stamps|
    ensures Grows(w.items, AddAll(w, ins, stamps).items)
    decreases |ins|
  {
    if ins != [] {
      var w1 := AddOne(w, ins[0], stamps);
      AddOneTouchesFirstMatch(w, ins[0], stamps);
      AddAllGrows(w1, ins[1..], stamps);
      GrowsTrans(w.items, w1.items, AddAll(w, ins, stamps).items);
    }
  }

  /** After the loop, every incoming name has an unchecked item on the list. */
  lemma {:induction false} AddAllCovers(w: Working, ins: seq<NewItem>, stamps: seq<Stamp>)
    requires w.used + |ins| <= |stamps|
    ensures forall k :: 0 <= k < |ins| ==> HasUnchecked(AddAll(w, ins, stamps).items, NormalizeForCompare(ins[k].name))
    decreases |ins|
  {
    if ins != [] {
      var w1 := AddOne(w, ins[0], stamps);
      var r := AddAll(w, ins, stamps);
      assert r == AddAll(w1, ins[1..], stamps);
      AddOneTouchesFirstMatch(w, ins[0], stamps);
      AddAllGrows(w1, ins[1..], stamps);
      GrowsKeepsUnchecked(w1.items, r.items, NormalizeForCompare(ins[0].name));
      AddAllCovers(w1, ins[1..], stamps);
      forall k | 1 <= k < |ins|
        ensures HasUnchecked(r.items, NormalizeForCompare(ins[k].name))
      {
        assert ins[k] == ins[1..][k - 1];
      }
    }
  }

  /** Names that all have an unchecked item on the list only merge: nothing is created. */
  lemma {:induction false} AllPresentCreatesNothing(w: Working, ins: seq<NewItem>, stamps: seq<Stamp>)
    requires w.used + |ins| <= |stamps|
    requires forall k :: 0 <= k < |ins| ==> HasUnchecked(w.items, NormalizeForCompare(ins[k].name))
    ensures AddAll(w, ins, stamps).used == w.used
    ensures |AddAll(w, ins, stamps).items| == |w.items|
    decreases |ins|
  {
    if ins != [] {
      var w1 := AddOne(w, ins[0], stamps);
      AddOneTouchesFirstMatch(w, ins[0], stamps);
      forall k | 0 <= k < |ins[1..]|
        ensures HasUnchecked(w1.items, NormalizeForCompare(ins[1..][k].name))
      {
        GrowsKeepsUnchecked(w.items, w1.items, NormalizeForCompare(ins[k + 1].name));
      }
      AllPresentCreatesNothing(w1, ins[1..], stamps);
    }
  }

  /** Two lists with the same names and flags position by position have the same duplicates. */
  lemma SameKeysNoDuplicate(a: seq<Item>, b: seq<Item>)
    requires |a| == |b|
    requires forall i :: 0 <= i < |a| ==> a[i].name == b[i].name && a[i].checked == b[i].checked
    requires NoDuplicateUnchecked(a)
    ensures NoDuplicateUnchecked(b)
  {
    forall i, j | 0 <= i < j < |b| && !b[i].checked && !b[j].checked
      ensures NormalizeForCompare(b[i].name) != NormalizeForCompare(b[j].name)
    {
      assert !a[i].checked && !a[j].checked;
    }
  }

  /** One iteration never puts a second unchecked item with the same normalized name on the list. */
  lemma AddOneNoDuplicate(w: Working, n: NewItem, stamps: seq<Stamp>)
    requires w.used < |stamps| && NoDuplicateUnchecked(w.items)
    ensures NoDuplicateUnchecked(AddOne(w, n, stamps).items)
  {
    var key := NormalizeForCompare(n.name);
    var r := AddOne(w, n, stamps);
    match FindMatch(w.items, key)
    case Some(m) =>
      SameKeysNoDuplicate(w.items, r.items);
    case None =>
      forall i, j | 0 <= i < j < |r.items| && !r.items[i].checked && !r.items[j].checked
        ensures NormalizeForCompare(r.items[i].name) != NormalizeForCompare(r.items[j].name)
      {
        if j == |w.items| {
          assert !Matches(w.items[i], key);
        } else {
          assert r.items[i] == w.items[i] && r.items[j] == w.items[j];
        }
      }
  }

  /** The whole loop keeps the list free of duplicate unchecked names. */
  lemma {:induction false} AddAllNoDuplicate(w: Working, ins: seq<NewItem>, stamps: seq<Stamp>)
    requires w.used + |ins| <= |stamps| && NoDuplicateUnchecked(w.items)
    ensures NoDuplicateUnchecked(AddAll(w, ins, stamps).items)
    decreases |ins|
  {
    if ins != [] {
      AddOneNoDuplicate(w, ins[0], stamps);
      AddAllNoDuplicate(AddOne(w, ins[0], stamps), ins[1..], stamps);
    }
  }

  /** Stamp ids that are distinct and not already used on the list. */
  predicate FreshStamps(existing: seq<Item>, stamps: seq<Stamp>) {
    && (forall k, l :: 0 <= k < l < |stamps| ==> stamps[k].id != stamps[l].id)
    && (forall k :: 0 <= k < |stamps| ==> !HasId(existing, stamps[k].id))
  }

  /** An extension of a list with unique ids, built from fresh stamps, has unique ids. */
  lemma ExtendsUniqueIds(base: seq<Item>, stamps: seq<Stamp>, w: Working)
    requires Extends(base, stamps, w) && UniqueIds(base) && FreshStamps(base, stamps)
    ensures UniqueIds(w.items)
  {
    forall i, j | 0 <= i < j < |w.items|
      ensures w.items[i].id != w.items[j].id
    {
      if j >= |base| {
        var l := j - |base|;
        assert w.items[j].id == stamps[l].id;
        if i >= |base| {
          assert w.items[i].id == stamps[i - |base|].id;
        } else {
          assert base[i].id == w.items[i].id;
        }
      }
    }
  }

  /**
   * `addItems` on a list without duplicate unchecked names: the saved list
   * has none either, and every incoming name has an unchecked item on it.
   * With fresh stamps, ids stay unique.
   */
  lemma AddItemsDeduplicates(existing: seq<Item>, ins: seq<NewItem>, stamps: seq<Stamp>)
    requires |ins| <= |stamps|
    ensures var saved := AddItemsTo(existing, ins, stamps).0;
      && (NoDuplicateUnchecked(existing) ==> NoDuplicateUnchecked(saved))
      && (forall k :: 0 <= k < |ins| ==> HasUnchecked(saved, NormalizeForCompare(ins[k].name)))
      && (UniqueIds(existing) && FreshStamps(existing, stamps) ==> UniqueIds(saved))
  {
    var w := Working(existing, 0);
    AddAllCovers(w, ins, stamps);
    if NoDuplicateUnchecked(existing) {
      AddAllNoDuplicate(w, ins, stamps);
    }
    AddAllExtends(existing, stamps, w, ins);
    if UniqueIds(existing) && FreshStamps(existing, stamps) {
      ExtendsUniqueIds(existing, stamps, AddAll(w, ins, stamps));
    }
  }

  /** `addItems` with names that are all on the list unchecked creates nothing and keeps the length. */
  lemma AddItemsOnlyMerges(existing: seq<Item>, ins: seq<NewItem>, stamps: seq<Stamp>)
    requires |ins| <= |stamps|
    requires forall k :: 0 <= k < |ins| ==> HasUnchecked(existing, NormalizeForCompare(ins[k].name))
    ensures var r := AddItemsTo(existing, ins, stamps);
      r.1 == [] && |r.0| == |existing|
  {
    AllPresentCreatesNothing(Working(existing, 0), ins, stamps);
  }

  /** `addItems` with a single incoming item is one iteration of its loop. */
  lemma AddSingle(existing: seq<Item>, n: NewItem, stamps: seq<Stamp>)
    requires 1 <= |stamps|
    ensures var w := AddOne(Working(existing, 0), n, stamps);
      AddItemsTo(existing, [n], stamps) == (w.items, w.items[|existing|..])
  {
    var w := Working(existing, 0);
    assert AddAll(w, [n], stamps) == AddAll(AddOne(w, n, stamps), [], stamps);
  }
}
