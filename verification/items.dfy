/**
 * A list's item collection and the transformations the store applies to it
 * (src/lib/store.ts:4-11, 77-81, 112-193): de-duplicating insertion, toggling,
 * removal, clearing checked items and editing. Each is a pure function from
 * the collection read to the collection written back.
 */
module Items {
  import opened Options
  import opened Text
  import opened Quantity

  /** `GroceryItem`. */
  datatype Item = Item(
    id: string,
    name: string,
    quantity: Option<string>,
    category: Option<string>,
    checked: bool,
    createdAt: string)

  /** What `addItems` receives per item: a `GroceryItem` without id, flag and timestamp. */
  datatype NewItem = NewItem(name: string, quantity: Option<string>, category: Option<string>)

  /** What `uuidv4()` and `new Date().toISOString()` supply for one created item. */
  datatype Stamp = Stamp(id: string, createdAt: string)

  /**
   * The `updates` argument of `updateItem`. `Some` marks a key present in the
   * object: the spread copies it over the item even when its value is
   * `undefined`, which for the quantity is `Some(None)`.
   */
  datatype Patch = Patch(name: Option<string>, quantity: Option<Option<string>>)

  /** The catch-all category. */
  const DefaultCategory: string := "Altro"

  /** `normalizeForCompare`: the form in which two names are compared. */
  function NormalizeForCompare(name: string): string {
    Trim(ToLower(name))
  }

  /** A normalized name is trimmed and lower-case. */
  lemma NormalizedShape(name: string)
    ensures IsTrimmed(NormalizeForCompare(name)) && IsLower(NormalizeForCompare(name))
  {
    var a := TrimSlice(ToLower(name));
    ToLowerIsLower(name);
    LowerSlice(ToLower(name), a, a + |Trim(ToLower(name))|);
  }

  /** Normalizing a normalized name changes nothing. */
  lemma NormalizeIdempotent(name: string)
    ensures NormalizeForCompare(NormalizeForCompare(name)) == NormalizeForCompare(name)
  {
    var r := NormalizeForCompare(name);
    NormalizedShape(name);
    LowerFixed(r);
    TrimFixesTrimmed(r);
  }

  /** Names that differ only in letter case normalize alike. */
  lemma NormalizeIgnoresCase(name: string)
    ensures NormalizeForCompare(ToUpper(name)) == NormalizeForCompare(name)
  {
    assert ToLower(ToUpper(name)) == ToLower(name);
  }

  /** White space around a name does not change its normalized form. */
  lemma NormalizeIgnoresPadding(pre: string, name: string, post: string)
    requires forall i :: 0 <= i < |pre| ==> IsSpace(pre[i])
    requires forall i :: 0 <= i < |post| ==> IsSpace(post[i])
    ensures NormalizeForCompare(pre + name + post) == NormalizeForCompare(name)
  {
    var lp, lpost := ToLower(pre), ToLower(post);
    assert ToLower(pre + name + post) == lp + ToLower(name) + lpost;
    forall i | 0 <= i < |lp|
      ensures IsSpace(lp[i])
    {
      LowerKeepsSpaces(pre[i]);
    }
    forall i | 0 <= i < |lpost|
      ensures IsSpace(lpost[i])
    {
      LowerKeepsSpaces(post[i]);
    }
    TrimPadding(lp, ToLower(name), lpost);
  }

  /** An item a new entry with this normalized name would merge into. */
  predicate Matches(item: Item, key: string) {
    !item.checked && NormalizeForCompare(item.name) == key
  }

  /** Some unchecked item carries the normalized name `key`. */
  predicate HasUnchecked(items: seq<Item>, key: string) {
    exists i :: 0 <= i < |items| && Matches(items[i], key)
  }

  /** No two unchecked items share a normalized name. */
  predicate NoDuplicateUnchecked(items: seq<Item>) {
    forall i, j :: 0 <= i < j < |items| && !items[i].checked && !items[j].checked
      ==> NormalizeForCompare(items[i].name) != NormalizeForCompare(items[j].name)
  }

  /** Ids are unique within the collection. */
  predicate UniqueIds(items: seq<Item>) {
    forall i, j :: 0 <= i < j < |items| ==> items[i].id != items[j].id
  }

  predicate HasId(items: seq<Item>, id: string) {
    exists i :: 0 <= i < |items| && items[i].id == id
  }

  /**
   * `b` is `a` after a merge at most: same id, name, flag and creation time,
   * and a checked item not touched at all.
   */
  predicate Agrees(a: Item, b: Item) {
    && a.id == b.id && a.name == b.name && a.checked == b.checked && a.createdAt == b.createdAt
    && (a.checked ==> b == a)
  }

  /** A category other than the catch-all (a present, non-empty string that is not "Altro"). */
  predicate IsSpecific(category: Option<string>) {
    Truthy(category) && category.value != DefaultCategory
  }

  /** `existing.find(e => !e.checked && normalizeForCompare(e.name) === key)`, as an index. */
  function FindMatch(items: seq<Item>, key: string): (r: Option<nat>)
    ensures r.Some? ==> r.value < |items| && Matches(items[r.value], key)
    ensures r.Some? ==> forall j :: 0 <= j < r.value ==> !Matches(items[j], key)
    ensures r.None? <==> !HasUnchecked(items, key)
  {
    FindFrom(items, key, 0)
  }

  /** The first index at or after `from` whose item matches `key`. */
  function FindFrom(items: seq<Item>, key: string, from: nat): (r: Option<nat>)
    requires from <= |items|
    ensures r.Some? ==> from <= r.value < |items| && Matches(items[r.value], key)
    ensures r.Some? ==> forall j :: from <= j < r.value ==> !Matches(items[j], key)
    ensures r.None? ==> forall j :: from <= j < |items| ==> !Matches(items[j], key)
    decreases |items| - from
  {
    if from == |items| then None
    else if Matches(items[from], key) then Some(from)
    else FindFrom(items, key, from + 1)
  }

  /**
   * The category rule of a merge: the incoming category replaces the current
   * one only when it is specific and the current one is not.
   */
  function UpgradeCategory(current: Option<string>, incoming: Option<string>): (r: Option<string>)
    ensures IsSpecific(current) ==> r == current
    ensures !IsSpecific(incoming) ==> r == current
    ensures IsSpecific(incoming) && !IsSpecific(current) ==> r == incoming
  {
    if IsSpecific(incoming) && !IsSpecific(current) then incoming else current
  }

  /** What a merge does to the matched item: add the quantity, upgrade the category. */
  function MergeInto(item: Item, n: NewItem): (r: Item)
    ensures !item.checked ==> Agrees(item, r)
  {
    item.(quantity := MergeQuantities(item.quantity, n.quantity),
          category := UpgradeCategory(item.category, n.category))
  }

  /** The item `addItems` creates when nothing matches: unchecked, category "Altro" when none is given. */
  function Create(n: NewItem, stamp: Stamp): (r: Item)
    ensures !r.checked && r.id == stamp.id && r.createdAt == stamp.createdAt
    ensures r.name == n.name && r.quantity == n.quantity
    ensures r.category == if n.category.Some? then n.category else Some(DefaultCategory)
  {
    Item(stamp.id, n.name, n.quantity, Some(n.category.GetOr(DefaultCategory)), false, stamp.createdAt)
  }

  /** The working state of `addItems`: the collection so far and how many stamps it has used. */
  datatype Working = Working(items: seq<Item>, used: nat)

  /**
   * One iteration of the `addItems` loop: merge into the first unchecked item
   * with the same normalized name or, when there is none, append a new item
   * carrying the next unused stamp.
   */
  function AddOne(w: Working, n: NewItem, stamps: seq<Stamp>): (r: Working)
    requires w.used < |stamps|
    ensures r.used == w.used || r.used == w.used + 1
    ensures |r.items| == |w.items| + (r.used - w.used)
  {
    match FindMatch(w.items, NormalizeForCompare(n.name))
    case Some(i) => Working(w.items[i := MergeInto(w.items[i], n)], w.used)
    case None => Working(w.items + [Create(n, stamps[w.used])], w.used + 1)
  }

  /**
   * An item created from `stamp`, possibly merged into since: unchecked, with
   * the stamp's id and time, and with a category.
   */
  predicate StampedBy(item: Item, stamp: Stamp) {
    !item.checked && item.id == stamp.id && item.createdAt == stamp.createdAt && item.category.Some?
  }

  /**
   * `w` extends `base`: the items of `base` are still in place (possibly
   * merged into), and after them come exactly `w.used` created items, the
   * k-th one carrying the k-th stamp.
   */
  predicate Extends(base: seq<Item>, stamps: seq<Stamp>, w: Working) {
    && w.used <= |stamps|
    && |w.items| == |base| + w.used
    && (forall i :: 0 <= i < |base| ==> Agrees(base[i], w.items[i]))
    && (forall k :: 0 <= k < w.used ==> StampedBy(w.items[|base| + k], stamps[k]))
  }

  /** Merging keeps agreement: `Agrees` is transitive. */
  lemma AgreesTrans(a: Item, b: Item, c: Item)
    requires Agrees(a, b) && Agrees(b, c)
    ensures Agrees(a, c)
  {
  }

  /** Merging into an unchecked item keeps the collection an extension of the one read. */
  lemma MergeExtends(base: seq<Item>, stamps: seq<Stamp>, w: Working, m: nat, n: NewItem)
    requires Extends(base, stamps, w) && m < |w.items| && !w.items[m].checked
    ensures Extends(base, stamps, Working(w.items[m := MergeInto(w.items[m], n)], w.used))
  {
    var items := w.items[m := MergeInto(w.items[m], n)];
    forall i | 0 <= i < |base|
      ensures Agrees(base[i], items[i])
    {
      if i == m {
        AgreesTrans(base[i], w.items[i], items[i]);
      }
    }
    assert forall k :: 0 <= k < w.used ==> StampedBy(w.items[|base| + k], stamps[k]);
  }

  /** Appending the item created from the next stamp keeps the collection an extension of the one read. */
  lemma CreateExtends(base: seq<Item>, stamps: seq<Stamp>, w: Working, n: NewItem)
    requires Extends(base, stamps, w) && w.used < |stamps|
    ensures Extends(base, stamps, Working(w.items + [Create(n, stamps[w.used])], w.used + 1))
  {
    var items := w.items + [Create(n, stamps[w.used])];
    assert forall i :: 0 <= i < |w.items| ==> items[i] == w.items[i];
  }

  /** One iteration keeps the collection an extension of the one read. */
  lemma AddOneExtends(base: seq<Item>, stamps: seq<Stamp>, w: Working, n: NewItem)
    requires Extends(base, stamps, w) && w.used < |stamps|
    ensures Extends(base, stamps, AddOne(w, n, stamps))
  {
    match FindMatch(w.items, NormalizeForCompare(n.name))
    case Some(m) => MergeExtends(base, stamps, w, m, n);
    case None => CreateExtends(base, stamps, w, n);
  }

  /**
   * The `addItems` loop: every incoming item in order, each one seeing the
   * merges and insertions of those before it.
   */
  function AddAll(w: Working, ins: seq<NewItem>, stamps: seq<Stamp>): (r: Working)
    requires w.used + |ins| <= |stamps|
    ensures w.used <= r.used <= w.used + |ins|
    ensures |r.items| == |w.items| + (r.used - w.used)
    decreases |ins|
  {
    if ins == [] then w else AddAll(AddOne(w, ins[0], stamps), ins[1..], stamps)
  }

  /** The whole loop keeps the collection an extension of the one read. */
  lemma {:induction false} AddAllExtends(base: seq<Item>, stamps: seq<Stamp>, w: Working, ins: seq<NewItem>)
    requires Extends(base, stamps, w) && w.used + |ins| <= |stamps|
    ensures Extends(base, stamps, AddAll(w, ins, stamps))
    decreases |ins|
  {
    if ins != [] {
      AddOneExtends(base, stamps, w, ins[0]);
      AddAllExtends(base, stamps, AddOne(w, ins[0], stamps), ins[1..]);
    }
  }

  /**
   * The collection `addItems` saves, and the items it returns: those it
   * created, which are the tail of the saved collection (the same objects,
   * so they show merges made into them later in the same call). Existing
   * items keep their id, name, flag, creation time and position, and checked
   * ones are not touched; the created items are unchecked and carry the
   * stamps in the order supplied.
   */
  function AddItemsTo(existing: seq<Item>, ins: seq<NewItem>, stamps: seq<Stamp>): (r: (seq<Item>, seq<Item>))
    requires |ins| <= |stamps|
    ensures |r.0| == |existing| + |r.1| && |r.1| <= |ins|
    ensures forall i :: 0 <= i < |existing| ==> Agrees(existing[i], r.0[i])
    ensures forall j :: 0 <= j < |r.1| ==> r.0[|existing| + j] == r.1[j] && StampedBy(r.1[j], stamps[j])
  {
    var w := Working(existing, 0);
    AddAllExtends(existing, stamps, w, ins);
    var saved := AddAll(w, ins, stamps).items;
    (saved, saved[|existing|..])
  }

  /** `toggleItem`'s map: flips `checked` on every item with the id. */
  function Toggle(items: seq<Item>, id: string): (r: seq<Item>)
    ensures |r| == |items|
    ensures forall i :: 0 <= i < |r| ==> r[i].(checked := items[i].checked) == items[i]
    ensures forall i :: 0 <= i < |r| ==> (r[i].checked != items[i].checked <==> items[i].id == id)
  {
    seq(|items|, i requires 0 <= i < |items| =>
      if items[i].id == id then items[i].(checked := !items[i].checked) else items[i])
  }

  /** `Array.prototype.filter`: the elements that satisfy `p`, in their order. */
  function Keep<T>(s: seq<T>, p: T -> bool): (r: seq<T>)
    ensures |r| <= |s|
  {
    if s == [] then [] else (if p(s[0]) then [s[0]] else []) + Keep(s[1..], p)
  }

  /** The filter keeps exactly the elements that satisfy `p`. */
  lemma {:induction false} KeepMembers<T>(s: seq<T>, p: T -> bool)
    ensures forall x :: x in Keep(s, p) <==> x in s && p(x)
  {
    if s != [] {
      KeepMembers(s[1..], p);
      assert forall x :: x in s <==> x == s[0] || x in s[1..];
    }
  }

  /**
   * `r` is `s` restricted to the positions listed in `idx`, which increase
   * and are exactly the positions of the elements satisfying `p`.
   */
  ghost predicate Selects<T>(s: seq<T>, r: seq<T>, p: T -> bool, idx: seq<nat>) {
    && |idx| == |r|
    && (forall k :: 0 <= k < |idx| ==> idx[k] < |s| && r[k] == s[idx[k]])
    && (forall k, l :: 0 <= k < l < |idx| ==> idx[k] < idx[l])
    && (forall i :: 0 <= i < |s| ==> (p(s[i]) <==> i in idx))
  }

  /** The test `removeItem` filters with: the item does not carry the id. */
  function OtherId(id: string): Item -> bool {
    (x: Item) => x.id != id
  }

  /** The test the complement of `removeItem`'s filter uses: the item carries the id. */
  function SameId(id: string): Item -> bool {
    (x: Item) => x.id == id
  }

  predicate Unchecked(x: Item) {
    !x.checked
  }

  /** `removeItem`'s filter: drops every item with the id. */
  function Remove(items: seq<Item>, id: string): (r: seq<Item>)
    ensures !HasId(r, id)
    ensures forall x :: x in items && x.id != id ==> x in r
  {
    var r := Keep(items, OtherId(id));
    KeepMembers(items, OtherId(id));
    assert forall i :: 0 <= i < |r| ==> r[i] in r;
    r
  }

  /** `clearCheckedItems`'s filter: keeps the unchecked items. */
  function ClearChecked(items: seq<Item>): (r: seq<Item>)
    ensures forall x :: x in r ==> !x.checked
    ensures forall x :: x in items && !x.checked ==> x in r
  {
    KeepMembers(items, Unchecked);
    Keep(items, Unchecked)
  }

  /** The spread `{ ...item, ...updates }`: every key present in the patch overwrites. */
  function ApplyPatch(item: Item, patch: Patch): Item {
    item.(name := patch.name.GetOr(item.name), quantity := patch.quantity.GetOr(item.quantity))
  }

  /** `updateItem`'s map: patches every item with the id. */
  function Update(items: seq<Item>, id: string, patch: Patch): (r: seq<Item>)
    ensures |r| == |items|
    ensures forall i :: 0 <= i < |r| ==>
      && r[i].id == items[i].id && r[i].checked == items[i].checked
      && r[i].category == items[i].category && r[i].createdAt == items[i].createdAt
  {
    seq(|items|, i requires 0 <= i < |items| =>
      if items[i].id == id then ApplyPatch(items[i], patch) else items[i])
  }

  /** The map of `migrateOldList`: an item without a category gets "Altro". */
  function WithDefaultCategory(items: seq<Item>): (r: seq<Item>)
    ensures |r| == |items|
    ensures forall i :: 0 <= i < |r| ==> r[i].category.Some?
    ensures forall i :: 0 <= i < |r| ==> r[i].(category := items[i].category) == items[i]
    ensures forall i :: 0 <= i < |r| && items[i].category.Some? ==> r[i] == items[i]
    ensures forall i :: 0 <= i < |r| && items[i].category.None? ==> r[i].category == Some(DefaultCategory)
  {
    seq(|items|, i requires 0 <= i < |items| =>
      items[i].(category := Some(items[i].category.GetOr(DefaultCategory))))
  }
}
