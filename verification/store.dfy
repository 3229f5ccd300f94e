/**
 * The store itself (src/lib/store.ts:43-75, 112-271, in-memory branch): one
 * key-value map holding every list's items under its list key, every list's
 * history under its history key, and the single list of the time before
 * codes under the legacy key. Each operation reads one collection,
 * transforms it and writes it back whole; here each is one state-to-state
 * function.
 */
module Store {
  import opened Options
  import opened Text
  import opened ListCodes
  import opened Items
  import opened History

  /**
   * The in-memory map, split by what its values hold: item collections
   * (list keys and the legacy key) and history records (history keys). The
   * two kinds of key never collide (`ListCodes.KeysDisjoint`).
   */
  datatype Store = Store(lists: map<string, seq<Item>>, histories: map<string, Counts>)

  /** `b` holds what `a` holds under every key outside `keys`. */
  ghost predicate Untouched<V>(a: map<string, V>, b: map<string, V>, keys: set<string>) {
    forall k :: k !in keys ==> (k in a <==> k in b) && (k in a ==> a[k] == b[k])
  }

  /** The state after an operation and the items it answers with. */
  datatype Outcome = Outcome(store: Store, items: seq<Item>)

  /** `createList`: registers an empty list under a code drawn from `draws`. */
  method CreateList(st: Store, draws: seq<real>) returns (r: Store, code: string)
    requires ValidDraws(draws)
    ensures IsListCode(code) && Spells(draws, code)
    ensures ListExists(r, code) && GetItems(r, code) == []
    ensures ListExists(r, ToLower(code)) && GetItems(r, ToLower(code)) == []
    ensures forall other :: ToUpper(other) == ToUpper(code) ==> ListExists(r, other) && GetItems(r, other) == []
    ensures r.histories == st.histories && Untouched(st.lists, r.lists, {ListKey(code)})
  {
    code := GenerateListCode(draws);
    CodeKeys(code);
    r := st.(lists := st.lists[ListKey(code) := []]);
    forall other | ToUpper(other) == ToUpper(code)
      ensures ListExists(r, other) && GetItems(r, other) == []
    {
      ListKeyIgnoresCase(other, code);
    }
  }

  /** `listExists`. */
  predicate ListExists(st: Store, code: string) {
    ListKey(code) in st.lists
  }

  /** `getItems`: the items stored for the code, or none. */
  function GetItems(st: Store, code: string): (r: seq<Item>)
    ensures ListExists(st, code) ==> r == st.lists[ListKey(code)]
    ensures !ListExists(st, code) ==> r == []
  {
    if ListKey(code) in st.lists then st.lists[ListKey(code)] else []
  }

  /** `saveItems`: stores a whole collection under the code, creating the list if needed. */
  function SaveItems(st: Store, code: string, items: seq<Item>): (r: Store)
    ensures ListExists(r, code) && GetItems(r, code) == items
    ensures r.histories == st.histories && Untouched(st.lists, r.lists, {ListKey(code)})
  {
    st.(lists := st.lists[ListKey(code) := items])
  }

  /** The history record of the code, or an empty one. */
  function GetCounts(st: Store, code: string): Counts {
    if HistoryKey(code) in st.histories then st.histories[HistoryKey(code)] else map[]
  }

  /** `trackItems`: one count per name, under the name lower-cased. */
  function TrackItems(st: Store, code: string, names: seq<string>): (r: Store)
    ensures r.lists == st.lists && Untouched(st.histories, r.histories, {HistoryKey(code)})
    ensures HistoryKey(code) in r.histories
  {
    st.(histories := st.histories[HistoryKey(code) := Track(GetCounts(st, code), names)])
  }

  /** `items.map((i) => i.name)`. */
  function NamesOf(ins: seq<NewItem>): (r: seq<string>)
    ensures |r| == |ins| && forall i :: 0 <= i < |r| ==> r[i] == ins[i].name
  {
    seq(|ins|, i requires 0 <= i < |ins| => ins[i].name)
  }

  /**
   * `addItems`, with one stamp available per incoming item: merges or
   * appends each incoming item, saves the collection, tracks every incoming
   * name and answers with the items created.
   */
  function AddItems(st: Store, code: string, ins: seq<NewItem>, stamps: seq<Stamp>): (r: Outcome)
    requires |ins| <= |stamps|
    ensures ListExists(r.store, code)
    ensures Untouched(st.lists, r.store.lists, {ListKey(code)})
    ensures Untouched(st.histories, r.store.histories, {HistoryKey(code)})
    ensures var saved := GetItems(r.store, code);
            var before := GetItems(st, code);
      && |saved| == |before| + |r.items| && |r.items| <= |ins|
      && saved[|before|..] == r.items
      && (forall i :: 0 <= i < |before| ==> Agrees(before[i], saved[i]))
      && (forall j :: 0 <= j < |r.items| ==> StampedBy(r.items[j], stamps[j]))
  {
    var (saved, created) := AddItemsTo(GetItems(st, code), ins, stamps);
    var st1 := SaveItems(st, code, saved);
    Outcome(TrackItems(st1, code, NamesOf(ins)), created)
  }

  /** `toggleItem`. */
  function ToggleItem(st: Store, code: string, id: string): (r: Outcome)
    ensures GetItems(r.store, code) == r.items
    ensures r.store.histories == st.histories && Untouched(st.lists, r.store.lists, {ListKey(code)})
  {
    var updated := Toggle(GetItems(st, code), id);
    Outcome(SaveItems(st, code, updated), updated)
  }

  /** `removeItem`. */
  function RemoveItem(st: Store, code: string, id: string): (r: Outcome)
    ensures GetItems(r.store, code) == r.items
    ensures !HasId(r.items, id)
    ensures r.store.histories == st.histories && Untouched(st.lists, r.store.lists, {ListKey(code)})
  {
    var updated := Remove(GetItems(st, code), id);
    Outcome(SaveItems(st, code, updated), updated)
  }

  /** `clearItems`: the list stays, empty; its history stays too. */
  function ClearItems(st: Store, code: string): (r: Store)
    ensures ListExists(r, code) && GetItems(r, code) == []
    ensures r.histories == st.histories && Untouched(st.lists, r.lists, {ListKey(code)})
  {
    SaveItems(st, code, [])
  }

  /** `clearCheckedItems`. */
  function ClearCheckedItems(st: Store, code: string): (r: Outcome)
    ensures GetItems(r.store, code) == r.items
    ensures forall i :: 0 <= i < |r.items| ==> !r.items[i].checked
    ensures r.store.histories == st.histories && Untouched(st.lists, r.store.lists, {ListKey(code)})
  {
    var updated := ClearChecked(GetItems(st, code));
    assert forall i :: 0 <= i < |updated| ==> updated[i] in updated;
    Outcome(SaveItems(st, code, updated), updated)
  }

  /** `updateItem`. */
  function UpdateItem(st: Store, code: string, id: string, patch: Patch): (r: Outcome)
    ensures GetItems(r.store, code) == r.items
    ensures |r.items| == |GetItems(st, code)|
    ensures r.store.histories == st.histories && Untouched(st.lists, r.store.lists, {ListKey(code)})
  {
    var updated := Update(GetItems(st, code), id, patch);
    Outcome(SaveItems(st, code, updated), updated)
  }

  /** `getHistory`: the code's history entries, largest count first. */
  method GetHistory(st: Store, code: string) returns (r: seq<Entry>)
    ensures Lists(GetCounts(st, code), r) && Descending(r)
  {
    r := Ranked(GetCounts(st, code));
  }

  /** `getOldListItems`: the legacy list, when it is there and not empty. */
  function GetOldListItems(st: Store): (r: Option<seq<Item>>)
    ensures r.Some? <==> LegacyKey in st.lists && st.lists[LegacyKey] != []
    ensures r.Some? ==> r.value == st.lists[LegacyKey]
  {
    if LegacyKey in st.lists && |st.lists[LegacyKey]| > 0 then Some(st.lists[LegacyKey]) else None
  }

  /**
   * `migrateOldList`: moves a non-empty legacy list under the new code, every
   * item given a category, and deletes the legacy key; with no legacy items
   * it answers with none and changes nothing.
   */
  function MigrateOldList(st: Store, newCode: string): (r: Outcome)
    ensures GetOldListItems(st).None? ==> r == Outcome(st, [])
    ensures GetOldListItems(st).Some? ==>
      && r.items == WithDefaultCategory(st.lists[LegacyKey])
      && (forall i :: 0 <= i < |r.items| ==> r.items[i].category.Some?)
      && (forall i :: 0 <= i < |r.items| && st.lists[LegacyKey][i].category.None? ==> r.items[i].category == Some(DefaultCategory))
      && GetItems(r.store, newCode) == r.items
      && LegacyKey !in r.store.lists
      && r.store.histories == st.histories
      && Untouched(st.lists, r.store.lists, {ListKey(newCode), LegacyKey})
  {
    match GetOldListItems(st)
    case None => Outcome(st, [])
    case Some(legacy) =>
      var withCategory := WithDefaultCategory(legacy);
      var saved := SaveItems(st, newCode, withCategory);
      KeysDisjoint(newCode, newCode);
      Outcome(saved.(lists := saved.lists - {LegacyKey}), withCategory)
  }
}
