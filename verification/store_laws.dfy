/**
 * Laws of the store as a whole (src/lib/store.ts:13-30, 46-75, 112-271):
 * codes are case-insensitive, an operation touches only its own list and
 * history, `addItems` counts every name it receives and never duplicates an
 * unchecked name, re-adding creates nothing, edits of an absent id change
 * nothing, and migrating twice is migrating once.
 */
module StoreLaws {
  import opened Options
  import opened Text
  import opened ListCodes
  import opened Quantity
  import opened Items
  import opened History
  import opened Dedup
  import opened Edits
  import opened Store

  /** Two codes that agree up to case read and write the same list and the same history. */
  lemma SameCodeSameList(st: Store, a: string, b: string)
    requires ToUpper(a) == ToUpper(b)
    ensures ListExists(st, a) == ListExists(st, b)
    ensures GetItems(st, a) == GetItems(st, b)
    ensures GetCounts(st, a) == GetCounts(st, b)
  {
    ListKeyIgnoresCase(a, b);
    HistoryKeyIgnoresCase(a, b);
  }

  /**
   * Only saving creates a list, and a save creates the list of its own code
   * under every spelling of it: saving makes a code's list exist exactly
   * when it existed or the code equals the saved one up to case; every
   * operation that saves leaves its list existing; tracking the history
   * creates no list.
   */
  lemma ListExistence(st: Store, code: string, other: string, items: seq<Item>, id: string, patch: Patch, names: seq<string>)
    ensures ListExists(SaveItems(st, code, items), other) <==> ListExists(st, other) || ToUpper(other) == ToUpper(code)
    ensures ListExists(ToggleItem(st, code, id).store, code)
    ensures ListExists(RemoveItem(st, code, id).store, code)
    ensures ListExists(ClearCheckedItems(st, code).store, code)
    ensures ListExists(UpdateItem(st, code, id, patch).store, code)
    ensures ListExists(TrackItems(st, code, names), other) == ListExists(st, other)
  {
    ListKeyIgnoresCase(other, code);
  }

  /** Every operation does the same under two codes that agree up to case. */
  lemma OperationsIgnoreCase(st: Store, a: string, b: string, ins: seq<NewItem>, stamps: seq<Stamp>, id: string, patch: Patch)
    requires ToUpper(a) == ToUpper(b) && |ins| <= |stamps|
    ensures AddItems(st, a, ins, stamps) == AddItems(st, b, ins, stamps)
    ensures ToggleItem(st, a, id) == ToggleItem(st, b, id)
    ensures RemoveItem(st, a, id) == RemoveItem(st, b, id)
    ensures ClearItems(st, a) == ClearItems(st, b)
    ensures ClearCheckedItems(st, a) == ClearCheckedItems(st, b)
    ensures UpdateItem(st, a, id, patch) == UpdateItem(st, b, id, patch)
    ensures MigrateOldList(st, a) == MigrateOldList(st, b)
  {
    ListKeyIgnoresCase(a, b);
    HistoryKeyIgnoresCase(a, b);
  }

  /**
   * `addItems` bumps the code's history once per incoming name, under the
   * name lower-cased: each key's count grows by the number of names that
   * lower-case to it, and the sum of all counts grows by the number of
   * names, merged ones included.
   */
  lemma AddItemsTracksEveryName(st: Store, code: string, ins: seq<NewItem>, stamps: seq<Stamp>)
    requires |ins| <= |stamps|
    ensures var after := GetCounts(AddItems(st, code, ins, stamps).store, code);
            var before := GetCounts(st, code);
      && (forall k :: Count(after, k) == Count(before, k) + multiset(Lowered(NamesOf(ins)))[k])
      && Total(after) == Total(before) + |ins|
  {
    AddItemsHistory(st, code, ins, stamps);
    TrackCounts(GetCounts(st, code), NamesOf(ins));
    TrackTotal(GetCounts(st, code), NamesOf(ins));
  }

  /** The names in the history after `addItems` are those before and the incoming names lower-cased. */
  lemma AddItemsHistoryKeys(st: Store, code: string, ins: seq<NewItem>, stamps: seq<Stamp>)
    requires |ins| <= |stamps|
    ensures GetCounts(AddItems(st, code, ins, stamps).store, code).Keys
         == GetCounts(st, code).Keys + (set i | 0 <= i < |ins| :: ToLower(ins[i].name))
  {
    var names := NamesOf(ins);
    AddItemsHistory(st, code, ins, stamps);
    TrackKeys(GetCounts(st, code), names);
    assert (set i | 0 <= i < |names| :: ToLower(names[i])) == set i | 0 <= i < |ins| :: ToLower(ins[i].name);
  }

  /** The history `addItems` leaves is the old one with the incoming names tracked. */
  lemma AddItemsHistory(st: Store, code: string, ins: seq<NewItem>, stamps: seq<Stamp>)
    requires |ins| <= |stamps|
    ensures GetCounts(AddItems(st, code, ins, stamps).store, code) == Track(GetCounts(st, code), NamesOf(ins))
  {
    var saved := AddItemsTo(GetItems(st, code), ins, stamps).0;
    assert GetCounts(SaveItems(st, code, saved), code) == GetCounts(st, code);
  }

  /**
   * `addItems` on a list without duplicate unchecked names saves a list
   * without any; afterwards every incoming name is on the list unchecked;
   * with fresh ids, ids stay unique.
   */
  lemma AddItemsKeepsListClean(st: Store, code: string, ins: seq<NewItem>, stamps: seq<Stamp>)
    requires |ins| <= |stamps|
    ensures var before := GetItems(st, code);
            var after := GetItems(AddItems(st, code, ins, stamps).store, code);
      && (NoDuplicateUnchecked(before) ==> NoDuplicateUnchecked(after))
      && (forall k :: 0 <= k < |ins| ==> HasUnchecked(after, NormalizeForCompare(ins[k].name)))
      && (UniqueIds(before) && FreshStamps(before, stamps) ==> UniqueIds(after))
  {
    AddItemsDeduplicates(GetItems(st, code), ins, stamps);
  }

  /**
   * Adding the same items a second time creates nothing: every name now has
   * an unchecked item to merge into, so the list keeps its length.
   */
  lemma AddTwiceCreatesNothing(st: Store, code: string, ins: seq<NewItem>, first: seq<Stamp>, second: seq<Stamp>)
    requires |ins| <= |first| && |ins| <= |second|
    ensures var once := AddItems(st, code, ins, first);
            var twice := AddItems(once.store, code, ins, second);
      twice.items == [] && |GetItems(twice.store, code)| == |GetItems(once.store, code)|
  {
    var once := AddItems(st, code, ins, first);
    AddItemsDeduplicates(GetItems(st, code), ins, first);
    AddItemsOnlyMerges(GetItems(once.store, code), ins, second);
  }

  /**
   * An item added to an empty list, then the same name again, possibly in
   * another case: the first call creates the item unchecked with the given
   * name and quantity; the second creates nothing and leaves that one item,
   * under its first name, with the two quantities merged; the history
   * counts the name twice.
   */
  lemma SameItemTwice(st: Store, code: string, n: NewItem, again: NewItem, first: Stamp, second: Stamp)
    requires GetItems(st, code) == [] && ToLower(again.name) == ToLower(n.name)
    ensures var once := AddItems(st, code, [n], [first]);
            var twice := AddItems(once.store, code, [again], [second]);
      && |once.items| == 1
      && once.items[0].name == n.name && once.items[0].quantity == n.quantity && !once.items[0].checked
      && twice.items == []
      && GetItems(twice.store, code) == [MergeInto(once.items[0], again)]
      && GetItems(twice.store, code)[0].name == n.name
      && GetItems(twice.store, code)[0].quantity == MergeQuantities(n.quantity, again.quantity)
      && Count(GetCounts(twice.store, code), ToLower(n.name)) == Count(GetCounts(st, code), ToLower(n.name)) + 2
  {
    var once := AddItems(st, code, [n], [first]);
    var item := Create(n, first);
    CreateOnEmpty(n, first);
    assert GetItems(once.store, code) == [item];
    assert once.items == [item];
    MergeOnSingle(item, again, second);
    assert NamesOf([n]) == [n.name] && NamesOf([again]) == [again.name];
    var h := GetCounts(st, code);
    TrackCounts(h, [n.name]);
    TrackCounts(Track(h, [n.name]), [again.name]);
  }

  /** On an empty list, one incoming item is created. */
  lemma CreateOnEmpty(n: NewItem, stamp: Stamp)
    ensures AddItemsTo([], [n], [stamp]) == ([Create(n, stamp)], [Create(n, stamp)])
  {
    AddSingle([], n, [stamp]);
    assert FindMatch([], NormalizeForCompare(n.name)).None?;
  }

  /** On a list holding one unchecked item of the same normalized name, an incoming item merges into it. */
  lemma MergeOnSingle(item: Item, n: NewItem, stamp: Stamp)
    requires !item.checked && NormalizeForCompare(item.name) == NormalizeForCompare(n.name)
    ensures AddItemsTo([item], [n], [stamp]) == ([MergeInto(item, n)], [])
  {
    AddSingle([item], n, [stamp]);
    assert FindMatch([item], NormalizeForCompare(n.name)) == Some(0);
    var w := AddOne(Working([item], 0), n, [stamp]);
    assert w.items == [MergeInto(item, n)];
    assert w.items[1..] == [];
  }

  /**
   * `addItems` with nothing to add creates no item, keeps the list's items and
   * its counts, and still saves: the list exists afterwards.
   */
  lemma AddNothing(st: Store, code: string, stamps: seq<Stamp>)
    ensures var r := AddItems(st, code, [], stamps);
      r.items == [] && GetItems(r.store, code) == GetItems(st, code)
      && GetCounts(r.store, code) == GetCounts(st, code)
      && ListExists(r.store, code)
  {
  }

  /**
   * Only an unchecked item is merged into: when no unchecked item has the
   * incoming name (checked ones with that name may exist), re-adding it
   * creates a new, unchecked item at the end of the list.
   */
  lemma CheckedItemNotReused(st: Store, code: string, n: NewItem, stamp: Stamp)
    requires !HasUnchecked(GetItems(st, code), NormalizeForCompare(n.name))
    ensures var r := AddItems(st, code, [n], [stamp]);
            var before := GetItems(st, code);
      && |r.items| == 1 && !r.items[0].checked && r.items[0].name == n.name
      && GetItems(r.store, code) == before + r.items
  {
    var before := GetItems(st, code);
    AddSingle(before, n, [stamp]);
    var w := AddOne(Working(before, 0), n, [stamp]);
    assert w.items == before + [Create(n, stamp)];
    assert w.items[|before|..] == [Create(n, stamp)];
  }

  /** Toggling, removing or editing an id that is on no item of an existing list leaves the store as it was. */
  lemma AbsentIdChangesNothing(st: Store, code: string, id: string, patch: Patch)
    requires ListExists(st, code) && !HasId(GetItems(st, code), id)
    ensures ToggleItem(st, code, id).store == st
    ensures RemoveItem(st, code, id).store == st
    ensures UpdateItem(st, code, id, patch).store == st
  {
    var items := GetItems(st, code);
    ToggleAbsent(items, id);
    RemoveAbsent(items, id);
    UpdateAbsent(items, id, patch);
    assert st.lists[ListKey(code) := items] == st.lists;
  }

  /** Toggling the same id twice restores the store. */
  lemma ToggleTwiceRestores(st: Store, code: string, id: string)
    requires ListExists(st, code)
    ensures ToggleItem(ToggleItem(st, code, id).store, code, id).store == st
  {
    var items := GetItems(st, code);
    ToggleInvolution(items, id);
    assert st.lists[ListKey(code) := items] == st.lists;
  }

  /**
   * Clearing the checked items keeps exactly the unchecked ones, in their
   * order; a second clear changes nothing.
   */
  lemma ClearCheckedKeepsUnchecked(st: Store, code: string) returns (idx: seq<nat>)
    ensures var r := ClearCheckedItems(st, code);
      && Selects(GetItems(st, code), GetItems(r.store, code), Unchecked, idx)
      && ClearCheckedItems(r.store, code).store == r.store
  {
    var r := ClearCheckedItems(st, code);
    idx := ClearCheckedLaws(GetItems(st, code));
    assert r.store.lists[ListKey(code) := GetItems(r.store, code)] == r.store.lists;
  }

  /**
   * Migrating twice is migrating once: the first migration deletes the
   * legacy key, so the second finds nothing, answers with no items and
   * leaves the store as it was.
   */
  lemma MigrateTwice(st: Store, first: string, second: string)
    ensures var once := MigrateOldList(st, first);
      MigrateOldList(once.store, second) == Outcome(once.store, [])
  {
  }
}
