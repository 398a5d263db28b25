# Order collection: a verified model

This project models the logic of a React app that collects a group order for
a café. People sit at tables ("groups"). Each table holds order slots: one
per person, plus a shared slot marked with the avatar `😋`. Each slot holds
sub-items, one ordered drink or dessert line each. The model covers:

- The application state of `App.tsx`, as the class `App.OrderApp`. Its
  fields are the order tree, the shared-menu sync flag, the drink and
  dessert menus, the settings, the saved-order history and the undo
  snapshot. Each handler is a method that replaces some of these fields.
- The shared-menu reconciler (`SharedSync`):
  - the activation merge of `handleCopySharedMenuToAll`;
  - the three paths of `updateOrder`: teardown, the name-keyed mirror,
    and the local field merge with its seat-marker rotation.
- Table bookkeeping (`Tables`): numbering, slot and table removal,
  "not eating", loading people only, renaming, the saved-order title, and
  the menu-picker callbacks.
- The order summary (`Summary`, `SummaryText`, `MemoGroups`):
  headcounts, the aggregation into rows keyed by type, temperature, size and
  trimmed name, the two copyable texts, and the grouping of memo entries.
- The order card (`Card`): status, memo chips, the first-order shortcut,
  the comma-separated memo edits, quantity buttons and the avatar re-roll.
- The table quick actions (`GroupSection`).
- The small editors: quick memos (`QuickMemos`), menu management
  (`MenuManagement`), menu selection (`MenuSelection`) and the emoji
  palette (`EmojiSettings`).

`Orders` holds the data model. `Text` and `Lists` give the JavaScript
built-ins the code relies on: `trim`, `split`, `join`, `indexOf`, the
`filter`, `new Set` and `arrayMove`.

Where the source changes state step by step, the model does too:
- the activation merge loop;
- the mirror's push loop;
- the seat rotation loop;
- the aggregation's nested loops;
- the `tableSummary` and `memoChips` push loops;
- the `getMemoGroups` record fill;
- the emoji palette's in-place write.

Each of these is a method. Its postcondition ties the result to a
specification function, and lemmas state what that function promises.

Ids from `uuidv4` and draws from `Math.random` are parameters:
- `uuid(k)` is the k-th id a handler generates;
- `slotUuid(id)` is the id generated while rewriting slot `id`;
- `roll` is the index a random draw picks.

A sub-item's missing quantity is `0`, which `Orders.Qty` reads as 1, like
`quantity || 1`. A missing memo is `""`.

## Model

| member | source | states |
|---|---|---|
| App.OrderApp.constructor | App.tsx:28-55 | The initial state: no tables, sync off, no history or snapshot, the built-in drink and dessert menus and the default settings. |
| App.InitialListsNoDup | App.tsx:28-53 | The initial menus, checked drinks and quick memos have no duplicates. |
| App.OrderApp.AddGroup | App.tsx:227-248 | The tree gains exactly one table at the end, the one `Tables.NewGroup` describes; nothing else in the state changes. |
| App.OrderApp.ResetAllTables | App.tsx:250-265 | The old tree is kept as the undo snapshot, the tree becomes the single fresh table, and sync is off. |
| App.OrderApp.RemoveGroup | App.tsx:267-283 | The old tree is kept as the undo snapshot and the tables with that id are removed. |
| App.OrderApp.UpdateGroupName | App.tsx:285-287 | Only the names of the tables with that id change. |
| App.OrderApp.RenameGroup | App.tsx:289-296 | The snapshot is taken, then the table gets the trimmed new name, else its current name, else "새 테이블". |
| App.OrderApp.UndoAction | App.tsx:298-305 | A snapshot, if any, becomes the tree and is cleared; without one the tree stays as it is. |
| App.OrderApp.AddOrderItem | App.tsx:671 | The table with that id gains an empty person slot at its end. |
| App.OrderApp.AddSharedMenuItem | App.tsx:672-679 | The table gains a shared slot at its end, starting from the first table's shared menu while sync is on. |
| App.OrderApp.RemoveOrder | App.tsx:782 | Removes the slot with that id and every table left empty, with no snapshot. |
| App.OrderApp.RemoveUndecided | App.tsx:492-499 | Takes the snapshot, then removes the listed slots and every table left empty. |
| App.OrderApp.SetNotEating | App.tsx:464-490 | The tree becomes `Tables.SetNotEating` of the old tree; nothing else changes. |
| App.OrderApp.CopySharedMenuToAll | App.tsx:357-396 | Active sync is only switched off. Otherwise an origin no table holds changes nothing. Otherwise the tree becomes the activation result and sync is on. |
| App.OrderApp.UpdateOrder | App.tsx:398-462 | The tree becomes `SharedSync.UpdateOrder` of the old tree under the current sync flag; nothing else changes. |
| App.OrderApp.SelectMenu | App.tsx:813-847 | The tree becomes `Tables.Select` for the slot and line the picker was opened on. |
| App.OrderApp.DeleteSelection | App.tsx:849-871 | The tree becomes `Tables.DeleteSelection` for that slot and line. |
| App.OrderApp.SaveOrder | App.tsx:333-355 | The history gains, in front, an entry holding the current tree, its summary and the generated title; the tree is unchanged. |
| App.OrderApp.LoadHistory | App.tsx:788 | The tree becomes the saved tree. |
| App.OrderApp.LoadPeopleOnly | App.tsx:501-513 | The tree becomes the saved tables and people with every order and memo cleared. |
| App.OrderApp.DeleteHistory | App.tsx:788 | The history becomes `App.DropEntry` of the old history. |
| App.DropEntrySpec | App.tsx:788 | Deleting keeps exactly the entries with another id. |
| App.DropEntryAppend | App.tsx:788 | The history filter distributes over concatenation, so the kept entries stay in order, each as often as before. |
| App.OrderApp.UpdateHistoryMemo | App.tsx:788 | The history becomes `App.SetEntryMemo` of the old history. |
| App.SetEntryMemo | App.tsx:788 | Only the memo of the entries with that id changes; the length and every other entry stay. |
| App.OrderApp.AddMenuItem | App.tsx:520-523 | Only the menu of that type changes, to the set of its names plus the new one. |
| App.OrderApp.RemoveMenuItem | App.tsx:529-539 | Every copy of the name leaves the menu of that type. A removed drink also leaves the checked list. |
| App.OrderApp.UpdateCheckedItems | App.tsx:541-550 | Checking adds the name as to a set. Unchecking removes every copy. Only the checked list changes. |
| App.MenuEditsKeepNoDup | App.tsx:520-550 | On a list without duplicates, adding appends only a name not yet present, and removing drops exactly that name; neither introduces a duplicate. |
| App.OrderApp.UpdateMenuList | App.tsx:798 | A reordered list replaces the menu of its type; the other menu stays. |
| App.OrderApp.UpdateSettings | App.tsx:222-225 | The settings are replaced; nothing else changes. |
| Tables.Filtered | App.tsx:492-497 | Filtering the slots keeps the number of tables. |
| Tables.KeepSlotsMembers | App.tsx:494 | A slot survives exactly when it was there and its id is not listed. |
| Tables.DropEmptySpec | App.tsx:496 | Dropping empty tables keeps every slot and keeps exactly the non-empty tables. |
| Tables.FilteredSlots | App.tsx:492-497 | Filtering every table removes the listed slots from the flattened slot list. |
| Tables.RemoveSlotsSpec | App.tsx:492-497 | The listed slots go and every other slot stays, in order; no table is left empty; each surviving table is an original with only listed slots removed, and every such non-empty table survives. |
| Tables.RemoveTableSpec | App.tsx:267-283 | Exactly the tables with another id remain, and none is added. |
| Tables.RemoveTableAbsent | App.tsx:267-283 | An id no table carries removes nothing. |
| Tables.SetNotEatingSpec | App.tsx:464-490 | Each listed slot keeps its id and memo, keeps its avatar or gets `👤`, and holds only the "안 먹음" line (HOT, Tall, quantity 1) with a fresh id. Every other slot, and every table's id and name, stay. |
| Tables.PeopleOnly | App.tsx:501-513 | Every table and slot keeps its id, name or avatar and position; every slot loses its orders and memo. |
| Tables.NextTableNumberSpec | App.tsx:229-230 | The next number exceeds every table's number and is 1 or one more than some table's number. |
| Tables.TableNameNumber | App.tsx:229-243 | The generated name `N번 테이블` reads back as N. |
| Tables.StarterSlots | App.tsx:238-241 | A new table has four empty person slots and then a shared slot with the given sub-items. |
| Tables.NewGroupSpec | App.tsx:227-243 | The new table's name reads back as the next table number, above every existing table's number. It has four empty person slots, then a shared slot that copies the first table's shared menu while sync is on and starts empty otherwise. |
| Tables.ResetGroups | App.tsx:250-265 | The reset tree is one table numbered 1. |
| Tables.AddOrderItem | App.tsx:671 | The number of tables stays. |
| Tables.AddSharedSlot | App.tsx:672-679 | The number of tables stays. |
| Tables.FirstSharedSubs | App.tsx:673-676 | The sub-items of the first shared slot, or none when no slot is shared. |
| Tables.AddSlotSpec | App.tsx:671-679 | Tables with another id are unchanged. The tables with that id keep their slots and gain the new slot last: an empty person slot, or a shared slot holding the first table's shared menu while sync is on and nothing otherwise. |
| Tables.RenameTable | App.tsx:285-287 | Exactly the tables with that id take the name; everything else stays. |
| Tables.FindGroupName | App.tsx:291 | The name of the first table with that id, or empty when no table has it. |
| Tables.FinalTableName | App.tsx:289-296 | The name is never empty. It is the trimmed input when that is not blank. Otherwise it is the current name of the first table with that id, or "새 테이블" when that name is empty or no table has the id. |
| Tables.TitleToken | App.tsx:334-337 | A table's title token is empty exactly when its trimmed name is. |
| Tables.TitleTokensNonEmpty | App.tsx:334-337 | No token of the saved-order title is empty. |
| Tables.TitleTokensEmpty | App.tsx:334-337 | There is no token exactly when every table with an order has a blank name. |
| Tables.SaveTitleSpec | App.tsx:334-341 | The title falls back to "새 주문" exactly when no table with an order has a non-blank name. |
| Tables.SelectSyncSpec | App.tsx:818-833 | Under sync, a choice in a shared slot reaches every shared slot. The first line with the picked line's id is renamed in place, takes the new type and size (`sel.size`, else its own, else Tall), keeps its id, temperature, quantity and memo, and is flagged. A slot without such a line gets a flagged HOT line of quantity 1 appended. Other lines and person slots are unchanged. |
| Tables.SelectLocalSpec | App.tsx:834-844 | Otherwise only the chosen slot changes. With a line id, each line with that id is renamed in place the same way, without the flag. Without one, a new unflagged line of quantity 1 is appended, ICE for smoothies and iced drinks and HOT otherwise. |
| Tables.DropNameMembers | App.tsx:855-860 | The shared delete keeps exactly the lines with another name. |
| Tables.DropIdMembers | App.tsx:862-867 | The local delete keeps exactly the lines with another id. |
| Tables.DropNameAppend | App.tsx:859 | The name filter distributes over concatenation, so the kept lines stay in order, each as often as before. |
| Tables.DropIdAppend | App.tsx:867 | The id filter distributes over concatenation, so the kept lines stay in order, each as often as before. |
| Tables.DeleteSelectionSpec | App.tsx:849-871 | Under sync from a shared slot, every shared slot's lines become `DropName` of its old lines: exactly its lines of that name go, the rest stay in order. Otherwise only the chosen slot changes, to `DropId` of its lines. Ids, avatars and memos stay, and nothing else changes. |
| SharedSync.MergeSynced | App.tsx:379-387 | The merge loop computes `MergeAll`, the merge applied item by item. |
| SharedSync.MergeMatchesReference | App.tsx:379-387 | The merge equals the reference: the existing items in order, where the first item of each origin name takes that name's last quantity and the flag, then tagged copies of the new names in first-occurrence order. |
| SharedSync.FreshFacts | App.tsx:379-387 | The appended names are origin names new to the slot, each once, and every such name is appended. |
| SharedSync.MergeStepExisting | App.tsx:381-383 | A step whose name the slot already had updates that item. |
| SharedSync.MergeStepRepeated | App.tsx:381-383 | A step repeating a name appended earlier updates that appended copy. |
| SharedSync.MergeStepNew | App.tsx:384-385 | A step with a name seen for the first time appends its tagged copy. |
| SharedSync.MergeNeverRemoves | App.tsx:379-387 | The merge never removes or reorders an item and changes at most its quantity and flag; an item whose name the origin lacks is unchanged. |
| SharedSync.MergeCarriesOrigin | App.tsx:379-387 | Every origin name ends up in the merged list, flagged, with the quantity of the origin's last item of that name. |
| SharedSync.Updated | App.tsx:381-383 | The existing items keep their number. |
| SharedSync.UpdatedNames | App.tsx:381-383 | The update keeps every existing name in its place. |
| SharedSync.AppendedAt | App.tsx:384-385 | Each appended copy is flagged and carries its name's last origin quantity. |
| SharedSync.FindGroupWithSlot | App.tsx:363-366 | The index of the first table holding the origin slot, or -1 exactly when no table holds it. |
| SharedSync.FindSlotInGroups | App.tsx:363-366 | A slot id occurs in the tree exactly when some table holds it. |
| SharedSync.Activate | App.tsx:357-396 | There is a result exactly when the origin slot exists. |
| SharedSync.ActivateGroup | App.tsx:369-393 | Activation keeps each table's id, name and number of slots. |
| SharedSync.ActivateItems | App.tsx:370-392 | The inner map over a table's slots computes `ActivateGroup`. |
| SharedSync.ActivateTables | App.tsx:357-396 | The nested maps with the merge loop compute `Activate`. |
| SharedSync.ActivateSharedSlot | App.tsx:374-390 | A shared slot of another table keeps its items in place, and holds each origin name, flagged, with the origin's quantity. |
| SharedSync.ActivationSpec | App.tsx:357-396 | In the source table the origin slots hold the origin menu, tagged. Every shared slot elsewhere keeps its items and holds each origin name with the origin's quantity. Every other slot is unchanged. |
| SharedSync.UnsyncedMembers | App.tsx:410-411 | The teardown keeps exactly the items without the sync flag. |
| SharedSync.UnsyncedAppend | App.tsx:410-411 | The teardown keeps the order of what it keeps. |
| SharedSync.UnsyncedOfLocal | App.tsx:410-411 | A list without synced items survives the teardown whole. |
| SharedSync.MirrorInto | App.tsx:422-434 | The filter-map and the push loop compute `Mirror`. |
| SharedSync.MirrorKeepMembers | App.tsx:423-429 | A kept item either carries a new-list name, with the first new quantity and the flag, or is an unchanged item the rule does not drop. Every item whose name is not in the new list and that the rule does not drop is kept. |
| SharedSync.PushMissingPrefix | App.tsx:430-433 | The push loop only appends. |
| SharedSync.PushMissingPresent | App.tsx:430-433 | After the push every new-list name is present, and no name is lost. |
| SharedSync.PushMissingAdded | App.tsx:430-433 | Each pushed item is a tagged copy of the first new item of its name. |
| SharedSync.SurvivorsMembers | App.tsx:423-429 | An item survives the filter exactly when its name is new or the drop rule does not apply to it. |
| SharedSync.Refresh | App.tsx:425 | A surviving item changes at most its quantity and flag. With a new name it takes the first new quantity and the flag; otherwise it is unchanged. |
| SharedSync.MirrorKeepMatchesReference | App.tsx:423-429 | The map-then-filter equals filtering the survivors first and refreshing each one after. |
| SharedSync.MirrorMatchesReference | App.tsx:423-433 | The mirror equals that reference followed by the push. The surviving items open the result in their original order, each changed only in quantity and flag. An item with a new name is updated in place. |
| SharedSync.MirrorInPlace | App.tsx:423-433 | The mirror's result keeps the survivors first, in order, refreshed in place. |
| SharedSync.MirrorMembership | App.tsx:417-438 | A mirrored slot holds every new name. An item with a new name carries the first new quantity and the flag. No name outside the slot's own and the new list appears. An item whose name is not new stays, unchanged, unless the edited slot's old list had a synced first item of that name. |
| SharedSync.MirrorSpec | App.tsx:417-438 | All of `MirrorMembership`. In addition, an existing item with a new name stays with its id, temperature, size and memo, and only its quantity and flag change. |
| SharedSync.MirrorDropRuleExamples | App.tsx:426-427 | The drop rule reads the edited slot's old list, not the item's own flag. A synced item the edited slot never had survives, and a local item whose name was synced there is removed. |
| SharedSync.Rotated | App.tsx:447-456 | The rotation keeps the number of slots. |
| SharedSync.RotateSeats | App.tsx:447-456 | The seat loop with its running marker index computes `Rotated`. |
| SharedSync.EmptyBeforeMonotone | App.tsx:447-456 | Later seat-eligible slots have strictly more eligible slots before them. |
| SharedSync.RotationSpec | App.tsx:447-456 | Only empty slots other than the target are written. Each gets one of `◱ ◳ ◲`, and no two get the same marker. The markers go in array order. Every other slot is unchanged. |
| SharedSync.UpdateOrder | App.tsx:398-462 | Every path keeps the number of tables. |
| SharedSync.UpdateTables | App.tsx:398-462 | The three paths, with the mirror's push loop and the rotation loop, compute `UpdateOrder`. |
| SharedSync.MirrorItems | App.tsx:417-438 | The mirror's map over one table rewrites each slot as `MirrorSlot` says. |
| SharedSync.LocalTable | App.tsx:440-460 | One table's local update, field merge then rotation, computes `LocalUpdate`. |
| SharedSync.UpdateOrderKeepsShape | App.tsx:398-462 | Every path keeps the tables, their ids and names, and every slot's id and position. |
| SharedSync.TeardownRoute | App.tsx:405-416 | Emptying a shared slot under sync empties it and turns every other shared slot into itself with `Unsynced` of its lines: same id, avatar and memo, and exactly its unsynced lines in their order. Person slots are untouched. |
| SharedSync.MirrorRoute | App.tsx:417-438 | Under sync a new list is taken by the edited slot. Every other shared slot becomes `Mirror` of its items and meets the mirror's membership guarantees. Its survivors come first, in order, refreshed in place. Person slots are untouched. |
| SharedSync.LocalUpdateSpec | App.tsx:440-460 | In a table holding the id only the first such slot takes the update, except that `◰` on an avatar-less slot seats the remaining markers; other tables are unchanged. |
| SharedSync.LocalRoute | App.tsx:440-460 | Outside the sync route a table without the id is unchanged. In a table with it, the first such slot takes the field merge, and every other slot is unchanged or, after `◰` on an avatar-less slot, receives a remaining marker. |
| Orders.Qty | components/OrderSummary.tsx:132 | `quantity \|\| 1`: at least 1, and the set quantity when there is one. |
| Orders.ApplyUpdate | App.tsx:444 | The field merge never changes the slot id. |
| Orders.FindByName | App.tsx:381 | The first index with that name, or -1 exactly when there is none. |
| Orders.FindSubById | App.tsx:823 | The first index with that id, or -1 exactly when there is none. |
| Orders.FindSlotIndex | App.tsx:442 | The first slot index with that id, or -1 when there is none. |
| Orders.FindSlot | App.tsx:400 | A found slot has the id; none is found only when no slot has it. |
| Orders.TagAll | App.tsx:367 | Each item is tagged in place; the length stays. |
| Orders.MapSlots | App.tsx:369-393 | The nested map keeps every table and rewrites each slot by the function. |
| Orders.DefaultTemperature | App.tsx:840 | ICE exactly when the name contains "스무디" or "아이스". |
| Summary.PersonsSpec | components/OrderSummary.tsx:100-102 | The persons are exactly the non-shared slots of the tree, in order. |
| Summary.PersonsInSlots | components/OrderSummary.tsx:101 | Each table contributes its non-shared slots, tagged with its id. |
| Summary.CountUndecided | components/OrderSummary.tsx:107-112 | The undecided count never exceeds the number of people. |
| Summary.CountNotEating | components/OrderSummary.tsx:114-116 | The not-eating count never exceeds the number of people. |
| Summary.CountsSplit | components/OrderSummary.tsx:107-121 | Undecided, not eating and eating split the people exactly. |
| Summary.HeadcountsSpec | components/OrderSummary.tsx:100-122 | The total is the number of non-shared slots. Decided is total minus undecided. Eating is decided minus not-eating. Neither is negative, and eating counts exactly the people who are neither undecided nor not eating. |
| Summary.NoUndecided | components/OrderSummary.tsx:119-122 | The undecided count is 0 exactly when nobody is undecided. |
| Summary.DrinkKeyInjective | components/OrderSummary.tsx:131 | A drink key determines its temperature, size tag and name. |
| Summary.KindsDiffer | components/OrderSummary.tsx:131 | A drink key never equals a dessert key. |
| Summary.KeyOfSpec | components/OrderSummary.tsx:130-131 | Two lines share a key exactly when they have the same type and trimmed name and, for drinks, the same temperature and size tag. |
| Summary.Copies | components/OrderSummary.tsx:145-150 | `Array(qty).fill(e)` holds `qty` copies of the entry. |
| Summary.FindKey | components/OrderSummary.tsx:135 | The index of the row with that key, or -1 when there is none. |
| Summary.TallyLine | components/OrderSummary.tsx:127-167 | The callback for one line computes `AddLine`. |
| Summary.CollectSlot | components/OrderSummary.tsx:127-168 | The inner loop over a slot's lines computes `AddSubs`. |
| Summary.CollectRows | components/OrderSummary.tsx:125-169 | The outer loop over every slot computes the rows in first-seen key order. |
| Summary.AddLineStep | components/OrderSummary.tsx:128-167 | One line keeps the keys distinct. It adds its quantity to its key's count and its memo copies to its key's memo list. It adds nothing for skipped names. |
| Summary.AddSubsStep | components/OrderSummary.tsx:127-168 | One slot's lines add their per-key quantities and keep the keys distinct. |
| Summary.AddOwnersStep | components/OrderSummary.tsx:126-169 | The whole walk keeps the keys distinct and sums, per key, the quantities and memo copies of the lines. |
| Summary.SumAtKey | components/OrderSummary.tsx:133-137 | With distinct keys, the per-key sum is the count of that key's row, or 0. |
| Summary.RowsCountPositive | components/OrderSummary.tsx:136-158 | Every row's count is at least 1. |
| Summary.InsertSpec | components/OrderSummary.tsx:170-173 | Inserting into sorted rows keeps them sorted and adds exactly the row. |
| Summary.SortRowsSpec | components/OrderSummary.tsx:170-173 | Sorting orders the rows DRINK first, then by name, and only permutes them. |
| Summary.SortSum | components/OrderSummary.tsx:170-176 | Sorting keeps every sum over the rows, so the total is unchanged. |
| Summary.DistinctKeysPermutation | components/OrderSummary.tsx:170-173 | A permutation of rows with distinct keys has distinct keys. |
| Summary.RowLeTotal | components/OrderSummary.tsx:170-173 | The comparator orders any two rows one way or the other. |
| Summary.RowLeTrans | components/OrderSummary.tsx:170-173 | The comparator is transitive. |
| Summary.AggregateSpec | components/OrderSummary.tsx:124-176 | The rows have distinct keys and are sorted. A key's row counts the sum of `quantity \|\| 1` over the lines with that key and holds one memo entry per unit of those with memos. A key has a row exactly when some line has it. The total is the sum over all lines. |
| Summary.NewRowFits | components/OrderSummary.tsx:131-158 | A new row shows the type, trimmed name, size tag and (for a drink) temperature of every contributing line with its key. |
| Summary.AddLineContents | components/OrderSummary.tsx:135-166 | One line keeps every row showing its key's lines, and its key's memo entries grow by exactly `qty` copies of the line's entry when it has memos. |
| Summary.AddOwnersContents | components/OrderSummary.tsx:124-168 | After the walk every row shows its key's lines, and a key's row holds that key's memo entries in walk order. |
| Summary.AggregateContents | components/OrderSummary.tsx:124-176 | Every printed row shows the type, trimmed name, size tag and (for a drink) temperature of each contributing line with its key. A key's row holds exactly `OwnersMemos`: per line with memos, `qty` copies of its entry, in table, slot and line order. |
| Summary.RowsPositive | components/OrderSummary.tsx:124-169 | Every aggregated row counts at least 1. |
| Summary.AggregatedOrders | components/OrderSummary.tsx:124-174 | The map fill followed by the sort computes `Aggregate`. |
| SummaryText.QtySuffix | components/OrderSummary.tsx:207 | Empty exactly when the quantity is at most 1; otherwise ` x` followed by digits that read back as the quantity. |
| SummaryText.SubTextsCount | components/OrderSummary.tsx:203-209 | A slot gives one text per line that is neither "미정" nor "안 먹음". |
| SummaryText.TableTextsCount | components/OrderSummary.tsx:201-210 | A table gives one text per listed line. |
| SummaryText.TablesWithOrders | components/OrderSummary.tsx:211-212 | The tables with a listed line are some of the tables. |
| SummaryText.TableLinesSpec | components/OrderSummary.tsx:199-212 | Line `i` belongs to the `i`-th table with a listed line and is its name, ": " and its texts joined by ", ". |
| SummaryText.TableSummaryLines | components/OrderSummary.tsx:199-212 | With no line break in the names, the summary splits back into exactly one line per table with a listed line. |
| SummaryText.CollectSlotTexts | components/OrderSummary.tsx:203-209 | The innermost push loop computes the slot's texts. |
| SummaryText.CollectTableTexts | components/OrderSummary.tsx:201-210 | The nested push loops compute the table's `orderTexts`. |
| SummaryText.TableSummaryText | components/OrderSummary.tsx:199-212 | The map, filter and join compute the table summary. |
| SummaryText.RowLines | components/OrderSummary.tsx:215-218 | One line per aggregated row. |
| SummaryText.RowLineCount | components/OrderSummary.tsx:215-218 | A row's count reads back from its line after the label and ": ". |
| SummaryText.AllSummaryLines | components/OrderSummary.tsx:215-218 | With no line break in the names, the overall summary splits back into exactly one line per row, in order. |
| MemoGroups.SortStringsSpec | components/OrderSummary.tsx:267 | The memo sort orders the strings and only permutes them. |
| MemoGroups.SortedUnique | components/OrderSummary.tsx:267 | Two sorted arrangements of the same strings are equal. |
| MemoGroups.FindGroup | components/OrderSummary.tsx:269 | The index of the group with that key, or -1 when there is none. |
| MemoGroups.PushEntry | components/OrderSummary.tsx:266-271 | One record step: the entry joins its key's group, which is created first when missing. |
| MemoGroups.GetMemoGroups | components/OrderSummary.tsx:263-273 | An absent list gives no groups; otherwise the loop computes `Grouped`. |
| MemoGroups.GroupedSpec | components/OrderSummary.tsx:263-273 | The groups have distinct keys. Each holds, in order, exactly the entries whose sorted memos join to its key, with that sorted list as its memos. Every entry lands in a group. |
| MemoGroups.SameMemosSameGroup | components/OrderSummary.tsx:267-268 | Entries whose memo lists are permutations of each other get the same key and the same sorted memos. |
| MemoGroups.SortedMemosSpec | components/OrderSummary.tsx:267 | A group's memos are sorted and are the entry's trimmed non-blank memos, permuted. |
| Card.Status | components/OrderCard.tsx:86-89 | A person slot with an avatar has exactly one of undecided, not eating and decided. An empty avatar or the shared slot has none. Not eating is exactly the single "안 먹음" line. |
| Card.SetNotEatingStatus | App.tsx:464-490 | A listed person slot then shows the "not eating" status on its card. |
| Card.MemoList | components/OrderCard.tsx:128 | Every piece of a memo is non-empty, trimmed and comma-free. |
| Card.ChipsFor | components/OrderCard.tsx:127-130 | A line gives one chip per memo piece, in order, for its id. |
| Card.ChipsOfSpec | components/OrderCard.tsx:124-134 | There is one chip per memo piece in line order, each a trimmed, non-empty, comma-free text of its line. |
| Card.PushPieces | components/OrderCard.tsx:128-130 | The innermost push loop appends one chip per piece. |
| Card.PushChips | components/OrderCard.tsx:127-131 | A line with an empty memo pushes nothing; otherwise its chips. |
| Card.MemoChips | components/OrderCard.tsx:124-134 | The nested push loops compute the chips. |
| Card.FinalName | components/OrderCard.tsx:148 | The name is the given one, or "미정" when it is empty. |
| Card.FinalizedLine | components/OrderCard.tsx:153-162 | One quantity-1 Tall drink line. Its temperature is the forced one, else ICE exactly when the name contains "스무디" or "아이스". |
| Card.FinalizeInitialOrder | components/OrderCard.tsx:147-167 | A new name that is not a placeholder joins the drink menu and the checked list. The slot's lines then become the finalized line through `updateOrder`. |
| Card.WithMemo | components/OrderCard.tsx:194 | Only the lines with that id change, and only in their memo. |
| Card.AddCustomMemo | components/OrderCard.tsx:180-199 | There is no edit exactly when the text is blank, no line is active, the active line is missing or it already has the text. |
| Card.AddCustomMemoSpec | components/OrderCard.tsx:180-199 | An edit appends the pieces of the trimmed text to the active line's memo pieces: one chip per comma-separated piece, or exactly the text when it has no comma. Other lines are unchanged, and lines with the id change only their memo. |
| Card.MemoListOfJoin | components/OrderCard.tsx:190-194 | Proper pieces joined with ", " read back as the same pieces. |
| Card.AddLocalQuickMemo | components/OrderCard.tsx:185-187 | The example chips gain the trimmed text exactly when the guard passes and it is new; no duplicate appears. |
| Card.DeleteChip | components/OrderCard.tsx:201-206 | There is no edit exactly when the line is missing or its memo is empty. |
| Card.DeletedMemo | components/OrderCard.tsx:204 | The rewritten memo's pieces are the old pieces without the text. |
| Card.DeleteChipSpec | components/OrderCard.tsx:201-206 | Deleting a chip removes exactly that text from the line's pieces and keeps the rest in order. That line keeps every other field, and lines with another id are unchanged. |
| Card.ToggleMemo | components/OrderCard.tsx:601-604 | Toggling keeps the number of lines. |
| Card.ToggleMemoSpec | components/OrderCard.tsx:581-604 | For any chip text: the line's pieces become the old pieces without it when it was selected, else the old pieces followed by its own pieces. A proper chip is selected afterwards exactly when it was not before. A chip with a comma is never selected, so a tap only ever appends its pieces. The line keeps every other field, and lines with another id are unchanged. |
| Card.RemovedReadBack | components/OrderCard.tsx:603-604 | The filtered pieces joined with ", " read back as themselves, and the chip is gone. |
| Card.AppendedReadBack | components/OrderCard.tsx:603-604 | The pieces with a chip appended read back as the old pieces followed by the chip's own pieces; a proper chip reads back as itself, and a chip with a comma is none of them. |
| Card.QtyMinus | components/OrderCard.tsx:281 | Minus never goes below 1 and takes exactly 1 off a quantity above 1; other lines are unchanged. |
| Card.QtyPlus | components/OrderCard.tsx:283 | Plus adds exactly 1 to `quantity \|\| 1`; other lines are unchanged. |
| Card.PlusThenMinus | components/OrderCard.tsx:281-283 | On lines whose quantity is set, minus undoes plus. |
| Card.ClearLines | components/OrderCard.tsx:208-209 | The update only empties the lines. |
| Card.ResetCard | components/OrderCard.tsx:220-221 | The update clears the avatar and the lines. |
| Card.Reroll | components/OrderCard.tsx:434-437 | The update only sets a non-empty avatar from the configured category. |
| GroupSection.Individuals | components/OrderGroupSection.tsx:50 | The person slots are at most the table's slots. |
| GroupSection.IndividualsMembers | components/OrderGroupSection.tsx:50 | A slot is a person slot exactly when it is in the table and not shared. |
| GroupSection.IndividualsAppend | components/OrderGroupSection.tsx:50 | The person slots keep the table's order. |
| GroupSection.SharedItem | components/OrderGroupSection.tsx:51 | The first shared slot, or none exactly when the table has no shared slot. |
| GroupSection.AllRandom | components/OrderGroupSection.tsx:55-60 | One call per person slot, in order, each setting only the avatar to an emoji of the category. |
| GroupSection.SeatEmojis | components/OrderGroupSection.tsx:63-68 | The `k`-th person slot gets `◰ ◱ ◳ ◲` at `k mod 4`, and nothing else changes. |
| GroupSection.Americano | components/OrderGroupSection.tsx:77-84 | A quantity-1 Tall Americano drink of the given temperature. |
| GroupSection.KeepOrDraw | components/OrderGroupSection.tsx:74 | A set avatar is kept; an empty one is drawn from the category. |
| GroupSection.AllAmericano | components/OrderGroupSection.tsx:71-87 | One call per person slot, in order: its avatar kept or drawn, and a single HOT Americano. |
| GroupSection.Half | components/OrderGroupSection.tsx:92 | `Math.ceil(n / 2)`. |
| GroupSection.HalfHalf | components/OrderGroupSection.tsx:90-107 | One call per person slot: HOT for the first ceil(n/2), ICE after that. |
| GroupSection.HalfHalfCounts | components/OrderGroupSection.tsx:90-107 | Half/half pours ceil(n/2) HOT and floor(n/2) ICE Americanos. |
| GroupSection.NeverTargetsShared | components/OrderGroupSection.tsx:57-58 | With distinct slot ids, no quick action addresses the shared slot. |
| QuickMemos.AddMemo | components/QuickMemosModal.tsx:139-144 | The trimmed value is appended exactly when it is non-blank and new. Nothing else in the settings changes, and no duplicate appears. |
| QuickMemos.RemoveMemo | components/QuickMemosModal.tsx:146-148 | The list becomes `RemoveAll` of the old one, so exactly the entries equal to the memo go and the rest keep their order. No other setting changes and no duplicate appears. |
| QuickMemos.Renamed | components/QuickMemosModal.tsx:153 | Every entry equal to the old text becomes the new text in place. |
| QuickMemos.EditSave | components/QuickMemosModal.tsx:150-155 | An empty text, or one another entry has, changes nothing. Otherwise the entry is renamed in place. |
| QuickMemos.EditSaveNoDup | components/QuickMemosModal.tsx:150-155 | An edit keeps the list free of duplicates. A rename that goes through removes the old text. |
| QuickMemos.RowSave | components/QuickMemosModal.tsx:60-64 | The row cancels exactly when the trimmed value is blank or unchanged, and otherwise saves the trimmed value. |
| QuickMemos.DragEnd | components/QuickMemosModal.tsx:129-137 | No target or a drop onto itself changes nothing. Otherwise the list is permuted with the dragged entry at the target's place, and no duplicate appears. |
| MenuManagement.CurrentList | components/MenuManagementModal.tsx:107-109 | The drink tab is the drink menu without "미정"; the dessert tab is the dessert menu. |
| MenuManagement.FilteredListSpec | components/MenuManagementModal.tsx:111-115 | A blank query keeps the whole list; otherwise exactly the entries containing the lower-cased query, in list order. |
| MenuManagement.KeepMatchingMembers | components/MenuManagementModal.tsx:114 | An entry is kept exactly when it contains the query. |
| MenuManagement.AddTarget | components/MenuManagementModal.tsx:117-119 | The trimmed new name, else the trimmed query; none when that is blank or already in the tab's list. |
| MenuManagement.Add | components/MenuManagementModal.tsx:117-123 | A target joins the menu of the tab through `addMenuItemToState`; nothing else changes. |
| MenuManagement.DragList | components/MenuManagementModal.tsx:125-131 | Nothing is sent exactly when there is no target or the entry is dropped onto itself. |
| MenuManagement.DragListSpec | components/MenuManagementModal.tsx:125-131 | A drink reorder sends "미정" first, then the moved list. A dessert reorder sends the moved list. Either way the tab's entries are permuted with the dragged one at the target's place. |
| MenuManagement.DragKeepsOneUndecided | components/MenuManagementModal.tsx:125-131 | The drink list sent up holds "미정" exactly once. |
| MenuManagement.DragEnd | components/MenuManagementModal.tsx:125-131 | The list sent up replaces the tab's menu; nothing else changes. |
| MenuSelection.ExactMatch | components/MenuSelectionModal.tsx:166 | A listed entry equal to the query up to blanks and case, or none exactly when no entry is. |
| MenuSelection.OrderedSizes | components/MenuSelectionModal.tsx:168-174 | Exactly the sizes of the initial selections with that name on the active tab. |
| MenuSelection.EnterKey | components/MenuSelectionModal.tsx:190-198 | A single result is picked. Otherwise a non-blank query with no exact match is quick-added. Otherwise nothing happens. |
| MenuSelection.EnterKeySpec | components/MenuSelectionModal.tsx:176-198 | A pick is a listed entry of the tab's type, sized Tall only for drinks with sizes shown. A quick add is the trimmed query, never blank and never already listed. |
| MenuSelection.DragList | components/MenuSelectionModal.tsx:200-206 | Nothing is sent exactly when there is no target or the entry is dropped onto itself. Otherwise the raw list is permuted with the dragged entry at the target's place. |
| MenuSelection.DragKeepsOut | components/MenuSelectionModal.tsx:200-206 | A name missing from the raw list stays missing. |
| MenuSelection.DragEnd | components/MenuSelectionModal.tsx:200-206 | The moved list replaces the tab's menu. A drink reorder here leaves the drink menu without "미정". |
| MenuSelection.PressEnter | components/MenuSelectionModal.tsx:176-198 | A pick goes through `onSelect` for the slot and line the picker was opened on; a quick add makes the tab's menu `Dedup(old + [name])` and leaves the other tab's menu and the tables alone. |
| EmojiSettings.FinalEmoji | components/EmojiSettingsModal.tsx:26 | The trimmed input, or the built-in emoji at that index when the input is blank. |
| EmojiSettings.UpdateEmoji | components/EmojiSettingsModal.tsx:24-30 | Only the edited index of the palette changes, to `FinalEmoji`. The length and every other setting stay, and the editing index is cleared. |
| EmojiSettings.ChooseCategory | components/EmojiSettingsModal.tsx:115 | Only the random category changes. |
| Settings.DefaultSettings | App.tsx:47-54 | The initial settings use the built-in emoji palette and show neither drink sizes nor the shared menu. |
| Settings.CategoryEmojis | components/OrderGroupSection.tsx:56 | An unknown category falls back to the animals. |
| Settings.RandomAvatar | components/OrderGroupSection.tsx:58 | A draw is a non-empty emoji of the category's list. |
| Lists.IndexOf | components/QuickMemosModal.tsx:132-133 | The first index holding the element, or -1 exactly when it is absent. |
| Lists.FirstWhere | components/MenuSelectionModal.tsx:166 | The index `find` stops at, from a start index: the first index whose element passes, or -1 exactly when none from the start does. |
| Lists.RemoveAll | App.tsx:531 | `filter(y => y !== x)` never lengthens the list. |
| Lists.RemoveAllMembers | App.tsx:529-539 | `filter(x => x !== v)` keeps exactly the other elements. |
| Lists.RemoveAllNoDup | App.tsx:529-539 | Removing keeps a list free of duplicates. |
| Lists.DedupSpec | App.tsx:520-523 | `[...new Set(s)]` has no duplicates and the same elements. |
| Lists.DedupOfNoDup | App.tsx:520-523 | A list without duplicates passes through the set unchanged. |
| Lists.AddUnique | App.tsx:521 | Adding through the set appends the element unless present. |
| Lists.MoveSpec | components/QuickMemosModal.tsx:134 | `arrayMove` permutes the list, puts the moved element at the target and keeps the others in relative order. |
| Lists.MoveNoDup | components/QuickMemosModal.tsx:134 | Moving keeps a list free of duplicates. |
| Lists.ReorderedSpec | components/MenuManagementModal.tsx:128 | A drag permutes the list and puts the dragged entry at the target's place, keeping it free of duplicates. |
| Text.Trim | App.tsx:291 | `trim` gives the infix of the text left after removing only blanks from both ends, and it neither starts nor ends with a blank. |
| Text.Split | components/OrderCard.tsx:191 | `split(c)` gives at least one part and no part holds the separator. |
| Text.Pieces | components/OrderCard.tsx:191 | `split(',').map(trim).filter(Boolean)` gives only non-empty, trimmed pieces without a comma. |
| Text.Lower | components/MenuSelectionModal.tsx:161 | `toLowerCase` keeps the length. |
| Text.FirstDigitRun | App.tsx:336 | `match(/\d+/)?.[0]` is all digits, and is empty only when the text has no digit. |
| Text.FirstDigitRunSpec | App.tsx:336 | The run sits in the text right after its leading non-digits, so it starts at the leftmost digit. It is non-empty when there is a digit, and it is maximal: no digit follows it. |
| Text.FirstDigitRunAt | App.tsx:336 | The run is the maximal digit prefix of what follows the leading non-digits. |
| Text.NatToString | components/OrderSummary.tsx:207 | Printing a number gives at least one character, all digits. |
| Text.TrimIdempotent | App.tsx:291 | Trimming twice is trimming once. |
| Text.JoinSplit | components/OrderCard.tsx:204 | Joining a split with the same separator gives the text back. |
| Text.SplitJoin | components/OrderSummary.tsx:211-212 | Splitting a join of separator-free parts gives the parts back. |
| Text.PiecesOfJoin | components/OrderCard.tsx:190-194 | A ", " join of entries without commas or surrounding blanks reads back as its non-empty entries. |
| Text.PiecesOfJoinSnoc | components/OrderCard.tsx:190-194 | Such entries followed by any text, joined with ", ", read back as the non-empty entries followed by that text's own pieces. |
| Text.PiecesAfterEntry | components/OrderCard.tsx:190-194 | An entry without commas or surrounding blanks, followed by ", ", reads back first, before the pieces of the rest. |
| Text.TrimNonEmptyPermutation | components/OrderSummary.tsx:267 | The trimmed non-blank pieces depend only on which parts there are, not their order. |
| Text.NatToStringValue | App.tsx:243 | A number written in decimal reads back as itself. |
| Text.FirstDigitRunOfNumberPrefix | App.tsx:229 | The first digit run of a text starting with a number is that number. |
| Text.LexTotal | components/OrderSummary.tsx:172 | The string order relates any two strings. |
| Text.LexTrans | components/OrderSummary.tsx:172 | The string order is transitive. |
| Text.LexAntisym | components/OrderSummary.tsx:172 | The string order is antisymmetric. |

## Left out

- Rendering, animation, bottom sheets, scroll tracking and `scrollToTable`. These are presentation only.
- Browser storage load and save, and the JSON fallbacks (App.tsx:166-225). Deep copies through JSON are plain value copies in the model.
- Timers, toasts, memo auto-close countdowns and the history "load" confirmation window: UI timing.
- UI state fields (`activeGroupId`, `managingGroupId`, modal flags, the highlighted item). The undo snapshot is modelled.
- `uuidv4` and `Math.random` become parameters (`uuid`, `slotUuid`, `newId`, `roll`, `rolls`). Distinct ids are assumed only where a lemma says so.
- Text.Trim: removes a fixed set of common blanks, not every Unicode white-space character JavaScript's `trim` removes.
- Tables.TitleToken: a name with no digits gives its first Unicode character as the token. `charAt(0)` at App.tsx:336 gives the first UTF-16 code unit, so for a name starting with an emoji such as "🍰" the source's token is a lone surrogate half while the model's is the whole emoji. Strings are sequences of Unicode characters in the model.
- Text.Lower: lower-cases Latin capitals only; Unicode case mapping is not modelled.
- Text.LexLe: `localeCompare` and the default `sort()` are modelled as code-point order on characters. Locale collation is not modelled.
- Text.DigitsValue: `parseInt` reads unbounded naturals, so float precision for very long digit runs is not modelled.
- MemoGroups.Grouped: `Object.values` is modelled as first-insertion order. JavaScript lists integer-like keys first, and a key of that shape is not modelled.
- MemoGroups.GetMemoGroups: `grouped` is a plain `{}` (OrderSummary.tsx:265), so a group key naming an inherited `Object.prototype` member ("constructor", "toString", "hasOwnProperty", "__proto__") is already truthy at line 269. `.people.push` at line 270 then throws a TypeError and the memo panel fails to render. The model groups such an entry like any other.
- Summary.AggregateContents: a row's temperature is stated only for drinks. A dessert key ignores temperature, so a dessert row keeps its first line's temperature, which the summary never prints.
- Summary.AggregateContents: `memoCounts` is built by `AddCounts` and `NewCounts` but no contract states its values. The summary view never reads it.
- The quantity-sync toggle (OrderCard.tsx:253-257) is never provided by `App.tsx`, so quantities are always overwritten by the mirror.
- SharedSync.MirrorSpec: the drop rule follows the code as written (App.tsx:426-427). It consults the edited slot's old list, not the mirrored item's own flag, and `SharedSync.MirrorDropRuleExamples` shows the consequences.
- MenuSelection.DragEnd: the picker sends its raw drink list without "미정", as the code does. Unlike the menu editor, a drink reorder there drops "미정" from the stored menu.
- The picker always hands back one selection (components/MenuSelectionModal.tsx:177, 359), so `Tables.Selection` is a single entry, not the array `onSelect` accepts.
- Lists.Reordered: drag ids are required to be in the list. The sortable context only offers listed ids, so `indexOf` returning -1 is not modelled.
- The temperature and size buttons of the card (OrderCard.tsx:554-564) and the avatar picker (142-143) are plain `updateOrder` field edits. They are covered by `SharedSync.UpdateOrder` with the corresponding `SlotUpdate`, not as separate members.
- GroupSection: the quick actions are modelled as the list of `updateOrder` calls they issue. Applying the calls one after another is left to `SharedSync.UpdateOrder`.
- GroupSection.Individuals: its own contract gives only the length bound; membership and order are in `IndividualsMembers` and `IndividualsAppend`.
- Tables.RemoveTableSpec: states membership and that nothing is added, not the exact order; `RemoveTableAbsent` covers an id no table carries.
- Orders.ApplyUpdate: its contract states only that the id is kept; which fields the merge overwrites is its definition.
- `components/HistoryModal.tsx` is display and date formatting. Its delete and memo actions are the one-line edits at App.tsx:788, modelled in `App`.
- `components/AutoTutorial.tsx`, `components/EmojiRenderer.tsx` and `hooks/useKeyboardOffset.ts` are DOM geometry and rendering. They are not part of this model.
- EmojiSettings.UpdateEmoji: the edited index must lie within both the palette and the built-in list. The app restores the built-in palette whenever stored settings differ (App.tsx:175-176), so the two have the same length.
