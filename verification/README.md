# Shared grocery list store, in Dafny

This project models the storage core of a shared grocery-list web app
("spesa"): `src/lib/store.ts` with its in-memory backend. A list is named by
a six-character code. Its items live under the key `spesa:lista:<CODE>`. A
per-list purchase history lives under `spesa:storico:<CODE>`. A single
legacy list from before codes existed can be migrated into a new list.

The model covers:

- **List codes and keys.** Drawing a code from the 32-character alphabet
  without look-alikes. Upper-casing it into the list and history keys, so
  codes are case-insensitive.
- **Free-text quantities.** Parsing a leading number and a unit, for
  example "2 kg" or "1,5 l". Merging two quantities: same unit means their
  sum, written as `toString`/`toFixed(1)` would write it; anything else
  means both are kept as "a + b".
- **`addItems`.** Each incoming item merges into the first unchecked item
  with the same lower-cased, trimmed name: the quantities merge and the
  category is upgraded from "Altro". Otherwise a new unchecked item is
  appended. The list is saved, every incoming name is counted in the
  history, and the call answers with the created items.
- **Single-item edits.** `toggleItem`, `removeItem`, `updateItem`,
  `clearItems` and `clearCheckedItems`.
- **History.** `trackItems` counts per lower-cased name. `getHistory` lists
  the entries by descending count.
- **Migration.** `getOldListItems` and `migrateOldList`.

The store is a value, `Store.Store`: two maps from backend key to stored
value. Each operation is a function from store to store. Collaborators the
code cannot see become inputs:

- `Math.random()` draws become a sequence of reals in [0, 1).
- `uuidv4()` and the clock become a sequence of `Stamp`s. `addItems` uses
  one stamp per item it creates.

Modules, in dependency order:

| module | file | contents |
|---|---|---|
| `Options` | options.dfy | `Option` |
| `Text` | text.dfy | ECMAScript `trim`, white space, `toLowerCase`/`toUpperCase` |
| `ListCodes` | list_codes.dfy | alphabet, `generateListCode`, key builders |
| `Quantity` | quantity.dfy | `parseQuantity`, number formatting, `mergeQuantities` |
| `Items` | items.dfy | `GroceryItem`, the `addItems` loop, toggle/remove/clear/update |
| `Dedup` | dedup.dfy | what the `addItems` loop guarantees |
| `Edits` | edits.dfy | laws of the filters and the single-item edits |
| `History` | history.dfy | `trackItems`, `getHistory` |
| `Store` | store.dfy | the store operations |
| `StoreLaws` | store_laws.dfy | laws of the store as a whole |

Behaviour of the code worth knowing, which the model keeps:

- **Alphabet size.** `CODE_CHARS` has 32 characters.
- **Unit case after a merge.** The merged unit is the lower-cased parsed
  unit, so "1 L" merged with "1 L" gives "2 l"
  (`Quantity.MergedSumParses`: the merged text parses back with the parsed
  unit, which is lower-case).
- **History keys.** Names are lower-cased for the history but not trimmed.

## Model

| member | source | states |
|---|---|---|
| ListCodes.GenerateListCode | src/lib/store.ts:16-22 | the code has six characters, each from the alphabet, each the one its random draw selects |
| ListCodes.EveryCodeReachable | src/lib/store.ts:16-22 | every six-character string over the alphabet is produced by some sequence of draws |
| ListCodes.NoLookAlikes | src/lib/store.ts:13-14 | the alphabet has 32 characters and none of the look-alikes 0, O, 1, I, l |
| ListCodes.AlphabetDistinct | src/lib/store.ts:14-19 | no character occurs twice in the alphabet, so each position of a code picks each of the 32 with the same chance |
| ListCodes.ListKeyIgnoresCase | src/lib/store.ts:24-26 | two codes give the same list key if and only if they agree up to case |
| ListCodes.HistoryKeyIgnoresCase | src/lib/store.ts:28-30 | two codes give the same history key if and only if they agree up to case |
| ListCodes.KeysDisjoint | src/lib/store.ts:24-30 | list keys, history keys and the legacy key never collide |
| ListCodes.CodeKeys | src/lib/store.ts:13-30 | a generated code is already upper-case, and its lower-case spelling names the same list and history |
| Text.TrimSlice | src/lib/store.ts:79-81 | `trim` leaves a trimmed slice of the text with only white space cut on either side |
| Text.TrimIdempotent | src/lib/store.ts:79-81 | trimming twice is trimming once |
| Text.TrimPadding | src/lib/store.ts:79-81 | white space added around a string does not change what `trim` returns |
| Text.LowerFixed | src/lib/store.ts:79-81 | lower-casing a lower-case text changes nothing |
| Quantity.ParseQuantity | src/lib/store.ts:88-92 | a parsed value is non-negative and its unit is trimmed, lower-case and on one line |
| Quantity.NumberEnd | src/lib/store.ts:89 | the number token is the leading digits, optionally followed by one separator and at least one more digit; it stops at a non-digit and takes the separator exactly when a separator and a digit follow the leading digits (greedy) |
| Quantity.ParseSplit | src/lib/store.ts:88-92 | trimmed text that is a greedy match — digits, optionally a `.` or `,` and more digits, white space, then a one-line unit text — parses to the decimal value of the digits and the unit text lower-cased and trimmed |
| Quantity.ParsedSplits | src/lib/store.ts:88-92 | conversely, every successful parse comes from such a match, with the value and unit it determines |
| Quantity.ParseFails | src/lib/store.ts:88-92 | the parse fails exactly when the trimmed text does not start with a digit, or a line terminator follows the first non-space character after the number |
| Quantity.SplitNumber | src/lib/store.ts:89-91 | the number of a greedy match ends where the match says and has the value of its digits, whichever separator it uses |
| Quantity.ParseWritten | src/lib/store.ts:88-92 | "digits[.digits] unit" parses to the decimal value of the digits and that unit |
| Quantity.NatToStringValue | src/lib/store.ts:104 | the decimal digits of an integer read back as that integer |
| Quantity.FormatParts | src/lib/store.ts:104 | a formatted sum is a digit string with at most one fractional digit, present exactly when the sum is not an integer, denoting the sum rounded to tenths (exact when it is an integer) |
| Quantity.ParseRender | src/lib/store.ts:103-105 | a written sum parses back to its rounded value in its unit |
| Quantity.MergeQuantities | src/lib/store.ts:94-110 | none only when both are missing; one missing gives the other unchanged |
| Quantity.MergeIsSum | src/lib/store.ts:99-106 | two quantities that parse with the same unit merge into their sum in that unit |
| Quantity.MergeFallsBack | src/lib/store.ts:99-109 | any other pair of present quantities merges into exactly "existing + incoming" |
| Quantity.MergedSumParses | src/lib/store.ts:99-106 | a merged sum parses back to the rounded sum of the two values, in the common unit |
| Quantity.AddingCommutes | src/lib/store.ts:99-106 | adding two same-unit quantities gives the same text in either order |
| Quantity.MergedStaysAddable | src/lib/store.ts:99-106 | a merged sum still adds with a third quantity of the same unit |
| Items.NormalizedShape | src/lib/store.ts:79-81 | `normalizeForCompare` gives a trimmed, lower-case name |
| Items.NormalizeIdempotent | src/lib/store.ts:79-81 | normalizing a normalized name changes nothing |
| Items.NormalizeIgnoresCase | src/lib/store.ts:79-81 | a name and its upper-cased spelling normalize alike |
| Items.NormalizeIgnoresPadding | src/lib/store.ts:79-81 | white space around a name does not change its normalized form |
| Items.FindMatch | src/lib/store.ts:120-123 | finds the first unchecked item with the normalized name, and finds none exactly when there is none |
| Items.UpgradeCategory | src/lib/store.ts:128-131 | a specific category is never replaced; a catch-all or missing one takes an incoming specific category |
| Items.MergeInto | src/lib/store.ts:125-131 | merging into an unchecked item keeps its id, name, flag and creation time |
| Items.Create | src/lib/store.ts:133-140 | a created item is unchecked, takes its id and creation time from its stamp, keeps the given name and quantity, and gets "Altro" when no category is given |
| Items.AddItemsTo | src/lib/store.ts:116-146 | existing items keep id, name, flag, time and position, and checked ones are untouched; the created items follow them, unchecked, carrying the stamps in order; at most one is created per incoming item |
| Items.Toggle | src/lib/store.ts:155-162 | exactly the items with the id flip their flag; nothing else changes |
| Items.Remove | src/lib/store.ts:164-169 | no item with the id remains, and every other item does |
| Items.ClearChecked | src/lib/store.ts:175-180 | no checked item remains, and every unchecked item does |
| Items.Update | src/lib/store.ts:182-193 | an edit keeps each item's id, flag, category and creation time and the length |
| Items.WithDefaultCategory | src/lib/store.ts:247-250 | every item gets a category: items without one get "Altro", items that had one are unchanged; nothing else changes |
| Dedup.AddOneTouchesFirstMatch | src/lib/store.ts:119-143 | one iteration changes only the first unchecked item with the name, by a merge, and appends exactly when there is none |
| Dedup.AddItemsDeduplicates | src/lib/store.ts:112-146 | no duplicate unchecked names before means none after; every incoming name is on the list unchecked; fresh ids keep ids unique |
| Dedup.AddItemsOnlyMerges | src/lib/store.ts:119-143 | when every incoming name already has an unchecked item, nothing is created and the length stays |
| Edits.ToggleInvolution | src/lib/store.ts:155-162 | toggling twice restores the list |
| Edits.ToggleAbsent | src/lib/store.ts:155-162 | toggling an absent id changes nothing |
| Edits.KeepSelects | src/lib/store.ts:164-180 | a filter keeps exactly the elements that pass, in their original order |
| Edits.KeepIdempotent | src/lib/store.ts:164-180 | filtering twice is filtering once |
| Edits.RemoveExactlyOne | src/lib/store.ts:164-169 | with unique ids, removal drops exactly the item with the id, if any, keeping the rest in order |
| Edits.RemoveAbsent | src/lib/store.ts:164-169 | removing an absent id changes nothing |
| Edits.ClearCheckedLaws | src/lib/store.ts:175-180 | clearing keeps exactly the unchecked items in order, preserves unique ids and unique names, and is idempotent |
| Edits.ClearCheckedNoneChecked | src/lib/store.ts:175-180 | clearing a list with nothing checked changes nothing |
| Edits.UpdateApplies | src/lib/store.ts:182-193 | an edit sets exactly the patched fields on the item with the id and leaves other items alone |
| Edits.UpdateAbsent | src/lib/store.ts:182-193 | editing an absent id changes nothing |
| Edits.UpdateIdempotent | src/lib/store.ts:182-193 | applying a patch twice is applying it once |
| Edits.DefaultCategoryIdempotent | src/lib/store.ts:247-250 | defaulting categories twice is doing it once |
| History.Bump | src/lib/store.ts:206-209 | one bump adds one to that name's count and leaves every other count alone |
| History.TrackCounts | src/lib/store.ts:197-212 | each name's count grows by the number of incoming names that lower-case to it |
| History.TrackKeys | src/lib/store.ts:197-212 | the history's names grow by exactly the incoming names lower-cased |
| History.TrackTotal | src/lib/store.ts:197-212 | the sum of all counts grows by the number of incoming names |
| History.TrackAppend | src/lib/store.ts:197-212 | tracking two batches in turn is tracking them together |
| History.TrackIgnoresCase | src/lib/store.ts:197-212 | tracking lower-cased names is the same as tracking the names |
| History.ThreeTimesMilk | src/lib/store.ts:197-212 | "Milk", "milk" and "MILK" give one entry "milk" with count 3 |
| History.Ranked | src/lib/store.ts:224-227 | the entries list every name exactly once with its count, in descending order of count |
| Store.CreateList | src/lib/store.ts:46-56 | a fresh code's list exists and is empty under every spelling of the code that agrees with it up to case; histories and other lists are untouched |
| Store.GetItems | src/lib/store.ts:67-75 | a list that was never created reads as empty |
| Store.SaveItems | src/lib/store.ts:263-271 | saving then reading returns what was saved; only that list's key changes |
| Store.TrackItems | src/lib/store.ts:197-212 | tracking writes only that list's history key and no list |
| Store.AddItems | src/lib/store.ts:112-153 | the answer is exactly the tail of the saved list after the old items, which keep their identity; only the list's own two keys change |
| Store.ToggleItem | src/lib/store.ts:155-162 | the answer is what is saved; only that list changes |
| Store.RemoveItem | src/lib/store.ts:164-169 | the answer is what is saved and holds no item with the id; only that list changes |
| Store.ClearItems | src/lib/store.ts:171-173 | afterwards the list exists and is empty, even when the code had no list before; its history and other lists are kept |
| Store.ClearCheckedItems | src/lib/store.ts:175-180 | the answer is what is saved and holds no checked item; only that list changes |
| Store.UpdateItem | src/lib/store.ts:182-193 | the answer is what is saved and has the old length; only that list changes |
| Store.GetHistory | src/lib/store.ts:214-228 | the list's history as entries, each name once with its count, largest first |
| Store.GetOldListItems | src/lib/store.ts:232-241 | answers the legacy items exactly when they are present and not empty |
| Store.MigrateOldList | src/lib/store.ts:243-261 | without legacy items nothing changes; otherwise the new list holds them with every missing category set to "Altro", the legacy key is gone, and nothing else changes |
| StoreLaws.SameCodeSameList | src/lib/store.ts:24-30 | two codes that agree up to case see the same list, existence and history |
| StoreLaws.ListExistence | src/lib/store.ts:58-65 | a code's list exists after a save exactly when it existed before or the code equals the saved one up to case; toggling, removing, clearing checked items and editing all leave their list existing; tracking history creates no list |
| StoreLaws.OperationsIgnoreCase | src/lib/store.ts:112-261 | every operation does the same under two codes that agree up to case |
| StoreLaws.AddItemsTracksEveryName | src/lib/store.ts:148-150 | `addItems` counts every incoming name, merged or created, under its lower-case form; the total grows by the number of names |
| StoreLaws.AddItemsHistoryKeys | src/lib/store.ts:148-150 | after `addItems` the history's names are the old ones plus the incoming names lower-cased |
| StoreLaws.AddItemsKeepsListClean | src/lib/store.ts:112-146 | the saved list gains no duplicate unchecked names and has every incoming name unchecked; fresh ids keep ids unique |
| StoreLaws.AddTwiceCreatesNothing | src/lib/store.ts:119-143 | adding the same items again creates nothing and keeps the list's length |
| StoreLaws.SameItemTwice | src/lib/store.ts:112-153 | one item added to an empty list, then its name again in any case: one item remains under its first name with the quantities merged, the second call creates nothing, and the history counts two |
| StoreLaws.CheckedItemNotReused | src/lib/store.ts:121-143 | a name with no unchecked item on the list (checked ones may exist) is added as a new unchecked item at the end |
| StoreLaws.AddNothing | src/lib/store.ts:112-153 | adding no items creates none, the list's items and history counts read the same afterwards, and the list exists afterwards even if it did not before |
| StoreLaws.AbsentIdChangesNothing | src/lib/store.ts:155-193 | toggling, removing or editing an absent id of an existing list leaves the store as it was |
| StoreLaws.ToggleTwiceRestores | src/lib/store.ts:155-162 | toggling an id of an existing list twice restores the store |
| StoreLaws.ClearCheckedKeepsUnchecked | src/lib/store.ts:175-180 | the list after clearing is exactly its unchecked items in order, and a second clear changes nothing |
| StoreLaws.MigrateTwice | src/lib/store.ts:243-261 | a second migration finds nothing, answers with no items and changes nothing |

## Left out

- Redis (`getRedis` and every `redis` branch) is not modelled: only the in-memory backend is. For ordinary names it behaves the same, but `trackItems` there increments real hash fields, so the inherited-key behaviour described under History.Track below arises only in memory.
- `async`, and concurrency between requests, are not modelled. Each operation is one atomic read-modify-write; interleavings that lose updates are outside the model.
- `Math.random`, `uuidv4` and `new Date().toISOString()` are inputs: draws in [0, 1), and one `Stamp` per created item.
- Store.AddItems: requires at least as many stamps as incoming items. The code draws one id per created item, and at most one is created per incoming item.
- Numbers are exact decimals (`real`), not IEEE doubles. `parseFloat` rounding is not modelled, nor its overflow: a number token of more than about 309 digits parses to `Infinity`, and a merge involving it writes "Infinity <unit>". `toString` switching to exponent notation above 1e21 is not modelled either.
- `toLowerCase`/`toUpperCase` are modelled on ASCII letters only. The full Unicode case mapping, including characters whose case changes their length, is not modelled.
- Store.CreateList: does not check for an existing list under the drawn code, just as the code does not; a collision overwrites that list with an empty one.
- History.Ranked: the order among entries with equal counts is left open. In JavaScript it follows `Object.entries` order (integer-like keys first, then insertion order) and the stable sort.
- History.Track: the history is a plain object literal, which inherits from `Object.prototype`; the model treats it as an empty map. So two lower-cased names behave differently in the code and are not modelled. Tracking "constructor" (in any case) stores the string "function Object() { [native code] }1". Tracking "__proto__" stores nothing.
- Items.Update: a patch that leaves out the name is modelled as keeping the old name. In the code, the route always passes `{ name, quantity }`, so an absent name is copied as `name: undefined`. A later `addItems` on that list throws once its `find` reaches that item while it is unchecked, because normalizing the name fails. Items without a name are not modelled.
- The routes, pages, speech transcription, item extraction and category files of the app are not part of this model.
