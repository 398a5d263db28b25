/**
 * The application state of App.tsx as one object: the order tree, the
 * shared-sync flag, the two menus, the settings, the saved-order history and
 * the undo snapshot. Each handler replaces some of these fields; the
 * functions it is specified by live in `SharedSync` and `Tables`.
 */
module App {
  import opened Orders
  import opened Lists
  import opened Settings
  import opened SharedSync
  import opened Tables

  /** A saved order: a deep copy of the tree with its summary. */
  datatype HistoryEntry = HistoryEntry(
    id: string,
    timestamp: int,
    groups: seq<Group>,
    totalCount: int,
    summaryText: string,
    memo: Option<string>,
    title: string)

  /** `history.filter(h => h.id !== id)`. */
  function DropEntry(hs: seq<HistoryEntry>, id: string): seq<HistoryEntry> {
    if |hs| == 0 then []
    else DropEntry(hs[..|hs| - 1], id) + (if hs[|hs| - 1].id == id then [] else [hs[|hs| - 1]])
  }

  lemma {:induction false} DropEntrySpec(hs: seq<HistoryEntry>, id: string)
    ensures forall h :: h in DropEntry(hs, id) <==> h in hs && h.id != id
  {
    if |hs| > 0 {
      DropEntrySpec(hs[..|hs| - 1], id);
      assert hs == hs[..|hs| - 1] + [hs[|hs| - 1]];
    }
  }

  /** The history filter distributes over concatenation, so the kept entries stay in order, each as often as before. */
  lemma {:induction false} DropEntryAppend(hs: seq<HistoryEntry>, ts: seq<HistoryEntry>, id: string)
    ensures DropEntry(hs + ts, id) == DropEntry(hs, id) + DropEntry(ts, id)
  {
    if |ts| == 0 {
      assert hs + ts == hs;
    } else {
      DropEntryAppend(hs, ts[..|ts| - 1], id);
      assert (hs + ts)[..|hs + ts| - 1] == hs + ts[..|ts| - 1];
    }
  }

  /** `history.map(h => h.id === id ? { ...h, memo } : h)`: only the memo of that entry changes. */
  function SetEntryMemo(hs: seq<HistoryEntry>, id: string, memo: Option<string>): (r: seq<HistoryEntry>)
    ensures |r| == |hs|
    ensures forall k :: 0 <= k < |hs| ==> r[k] == if hs[k].id == id then hs[k].(memo := memo) else hs[k]
  {
    seq(|hs|, k requires 0 <= k < |hs| => if hs[k].id == id then hs[k].(memo := memo) else hs[k])
  }

  class OrderApp {
    var groups: seq<Group>
    var syncActive: bool
    var drinkMenu: seq<string>
    var dessertMenu: seq<string>
    var settings: AppSettings
    var history: seq<HistoryEntry>
    var lastSnapshot: Option<seq<Group>>

    /** The initial state before anything is loaded or added. */
    constructor ()
      ensures groups == [] && !syncActive && history == [] && lastSnapshot == None
      ensures drinkMenu == INITIAL_DRINK_MENU && dessertMenu == INITIAL_DESSERT_MENU
      ensures settings == DefaultSettings()
    {
      groups := [];
      syncActive := false;
      drinkMenu := INITIAL_DRINK_MENU;
      dessertMenu := INITIAL_DESSERT_MENU;
      settings := DefaultSettings();
      history := [];
      lastSnapshot := None;
    }

    // ---------------------------------------------------------------
    // Tables
    // ---------------------------------------------------------------

    /** `addGroup`: append a numbered table; ids come from `uuid`. */
    method AddGroup(uuid: nat -> string)
      modifies this
      ensures groups == old(groups) + [NewGroup(old(groups), syncActive, uuid)]
      ensures unchanged(`syncActive, `drinkMenu, `dessertMenu, `settings, `history, `lastSnapshot)
    {
      groups := groups + [NewGroup(groups, syncActive, uuid)];
    }

    /** `handleResetAllTables`: snapshot, one fresh table, sync off. */
    method ResetAllTables(uuid: nat -> string)
      modifies this
      ensures lastSnapshot == Some(old(groups))
      ensures groups == ResetGroups(uuid) && !syncActive
      ensures unchanged(`drinkMenu, `dessertMenu, `settings, `history)
    {
      lastSnapshot := Some(groups);
      groups := ResetGroups(uuid);
      syncActive := false;
    }

    /** `removeGroup`: snapshot, then drop the tables with that id. */
    method RemoveGroup(id: string)
      modifies this
      ensures lastSnapshot == Some(old(groups))
      ensures groups == RemoveTableById(old(groups), id)
      ensures unchanged(`syncActive, `drinkMenu, `dessertMenu, `settings, `history)
    {
      lastSnapshot := Some(groups);
      groups := RemoveTableById(groups, id);
    }

    /** `updateGroupName`. */
    method UpdateGroupName(gid: string, name: string)
      modifies this
      ensures groups == RenameTable(old(groups), gid, name)
      ensures unchanged(`syncActive, `drinkMenu, `dessertMenu, `settings, `history, `lastSnapshot)
    {
      groups := RenameTable(groups, gid, name);
    }

    /** `renameGroup` for the table being managed: snapshot, then rename with the fallbacks. */
    method RenameGroup(gid: string, tempName: string)
      modifies this
      ensures lastSnapshot == Some(old(groups))
      ensures groups == RenameTable(old(groups), gid, FinalTableName(old(groups), gid, tempName))
      ensures unchanged(`syncActive, `drinkMenu, `dessertMenu, `settings, `history)
    {
      var finalName := FinalTableName(groups, gid, tempName);
      lastSnapshot := Some(groups);
      groups := RenameTable(groups, gid, finalName);
    }

    /** `handleUndoAction`: restore and clear the snapshot, if there is one. */
    method UndoAction()
      modifies this
      ensures old(lastSnapshot).Some? ==> groups == old(lastSnapshot).value && lastSnapshot == None
      ensures old(lastSnapshot).None? ==> groups == old(groups) && lastSnapshot == None
      ensures unchanged(`syncActive, `drinkMenu, `dessertMenu, `settings, `history)
    {
      if lastSnapshot.Some? {
        groups := lastSnapshot.value;
        lastSnapshot := None;
      }
    }

    /** The inline `addOrderItem`. */
    method AddOrderItem(gid: string, newId: string)
      modifies this
      ensures groups == Tables.AddOrderItem(old(groups), gid, newId)
      ensures unchanged(`syncActive, `drinkMenu, `dessertMenu, `settings, `history, `lastSnapshot)
    {
      groups := Tables.AddOrderItem(groups, gid, newId);
    }

    /** The inline `addSharedMenuItem`. */
    method AddSharedMenuItem(gid: string, newId: string)
      modifies this
      ensures groups == AddSharedSlot(old(groups), gid, newId, syncActive)
      ensures unchanged(`syncActive, `drinkMenu, `dessertMenu, `settings, `history, `lastSnapshot)
    {
      groups := AddSharedSlot(groups, gid, newId, syncActive);
    }

    /** The inline `removeOrder`: drop one slot and any table it empties, without a snapshot. */
    method RemoveOrder(id: string)
      modifies this
      ensures groups == RemoveSlots(old(groups), [id])
      ensures unchanged(`syncActive, `drinkMenu, `dessertMenu, `settings, `history, `lastSnapshot)
    {
      groups := RemoveSlots(groups, [id]);
    }

    /** `handleRemoveUndecided`: snapshot, then drop the listed slots and emptied tables. */
    method RemoveUndecided(ids: seq<string>)
      modifies this
      ensures lastSnapshot == Some(old(groups))
      ensures groups == RemoveSlots(old(groups), ids)
      ensures unchanged(`syncActive, `drinkMenu, `dessertMenu, `settings, `history)
    {
      lastSnapshot := Some(groups);
      groups := RemoveSlots(groups, ids);
    }

    /** `handleSetNotEating`; `slotUuid` gives the fresh sub-item id per slot. */
    method SetNotEating(ids: seq<string>, slotUuid: string -> string)
      modifies this
      ensures groups == Tables.SetNotEating(old(groups), ids, slotUuid)
      ensures unchanged(`syncActive, `drinkMenu, `dessertMenu, `settings, `history, `lastSnapshot)
    {
      groups := Tables.SetNotEating(groups, ids, slotUuid);
    }

    // ---------------------------------------------------------------
    // Shared-menu sync
    // ---------------------------------------------------------------

    /**
     * `handleCopySharedMenuToAll`: turns sync off when it is on; otherwise
     * activates from `orderId` and turns sync on, unless no table holds it.
     */
    method CopySharedMenuToAll(orderId: string)
      modifies this
      ensures old(syncActive) ==> !syncActive && groups == old(groups)
      ensures !old(syncActive) && Activate(old(groups), orderId).None? ==> !syncActive && groups == old(groups)
      ensures !old(syncActive) && Activate(old(groups), orderId).Some? ==>
        syncActive && groups == Activate(old(groups), orderId).value
      ensures unchanged(`drinkMenu, `dessertMenu, `settings, `history, `lastSnapshot)
    {
      if syncActive {
        syncActive := false;
        return;
      }
      var r := ActivateTables(groups, orderId);
      if r.Some? {
        groups := r.value;
        syncActive := true;
      }
    }

    /** `updateOrder`, routed as `SharedSync.UpdateOrder` describes. */
    method UpdateOrder(id: string, u: SlotUpdate)
      modifies this
      ensures groups == SharedSync.UpdateOrder(old(groups), syncActive, id, u)
      ensures unchanged(`syncActive, `drinkMenu, `dessertMenu, `settings, `history, `lastSnapshot)
    {
      groups := UpdateTables(groups, syncActive, id, u);
    }

    /** `onSelect` of the menu picker, for the slot and line it was opened on. */
    method SelectMenu(orderId: Option<string>, subItemId: Option<string>, sel: Selection,
                      slotUuid: string -> string, newId: string)
      modifies this
      ensures groups == Select(old(groups), syncActive, orderId, subItemId, sel, slotUuid, newId)
      ensures unchanged(`syncActive, `drinkMenu, `dessertMenu, `settings, `history, `lastSnapshot)
    {
      groups := Select(groups, syncActive, orderId, subItemId, sel, slotUuid, newId);
    }

    /** `onDeleteSelection` of the menu picker. */
    method DeleteSelection(orderId: Option<string>, subItemId: Option<string>)
      modifies this
      ensures groups == Tables.DeleteSelection(old(groups), syncActive, orderId, subItemId)
      ensures unchanged(`syncActive, `drinkMenu, `dessertMenu, `settings, `history, `lastSnapshot)
    {
      groups := Tables.DeleteSelection(groups, syncActive, orderId, subItemId);
    }

    // ---------------------------------------------------------------
    // History
    // ---------------------------------------------------------------

    /** `handleSaveOrder`: prepend a copy of the tree under its generated title. */
    method SaveOrder(summaryText: string, totalCount: int, memo: Option<string>, id: string, timestamp: int)
      modifies this
      ensures history == [HistoryEntry(id, timestamp, groups, totalCount, summaryText, memo, SaveTitle(groups))] + old(history)
      ensures unchanged(`groups, `syncActive, `drinkMenu, `dessertMenu, `settings, `lastSnapshot)
    {
      history := [HistoryEntry(id, timestamp, groups, totalCount, summaryText, memo, SaveTitle(groups))] + history;
    }

    /** The history list's `onLoad`: the saved tree as it was. */
    method LoadHistory(entry: HistoryEntry)
      modifies this
      ensures groups == entry.groups
      ensures unchanged(`syncActive, `drinkMenu, `dessertMenu, `settings, `history, `lastSnapshot)
    {
      groups := entry.groups;
    }

    /** `handleLoadPeopleOnly`: the saved tables and people without orders or memos. */
    method LoadPeopleOnly(entry: HistoryEntry)
      modifies this
      ensures groups == PeopleOnly(entry.groups)
      ensures unchanged(`syncActive, `drinkMenu, `dessertMenu, `settings, `history, `lastSnapshot)
    {
      groups := PeopleOnly(entry.groups);
    }

    method DeleteHistory(id: string)
      modifies this
      ensures history == DropEntry(old(history), id)
      ensures unchanged(`groups, `syncActive, `drinkMenu, `dessertMenu, `settings, `lastSnapshot)
    {
      history := DropEntry(history, id);
    }

    /** The history list's `onUpdate`, which only ever carries a memo. */
    method UpdateHistoryMemo(id: string, memo: Option<string>)
      modifies this
      ensures history == SetEntryMemo(old(history), id, memo)
      ensures unchanged(`groups, `syncActive, `drinkMenu, `dessertMenu, `settings, `lastSnapshot)
    {
      history := SetEntryMemo(history, id, memo);
    }

    // ---------------------------------------------------------------
    // Menus and settings
    // ---------------------------------------------------------------

    /** `addMenuItemToState`: the menu of that type as a set with the name added. */
    method AddMenuItem(name: string, itemType: ItemType)
      modifies this
      ensures itemType == Drink ==> drinkMenu == Dedup(old(drinkMenu) + [name]) && dessertMenu == old(dessertMenu)
      ensures itemType == Dessert ==> dessertMenu == Dedup(old(dessertMenu) + [name]) && drinkMenu == old(drinkMenu)
      ensures unchanged(`groups, `syncActive, `settings, `history, `lastSnapshot)
    {
      if itemType == Drink {
        drinkMenu := Dedup(drinkMenu + [name]);
      } else {
        dessertMenu := Dedup(dessertMenu + [name]);
      }
    }

    /** `handleRemoveMenuItem`: a removed drink also leaves the checked list. */
    method RemoveMenuItem(name: string, itemType: ItemType)
      modifies this
      ensures itemType == Drink ==>
        drinkMenu == RemoveAll(old(drinkMenu), name) && dessertMenu == old(dessertMenu)
        && settings == old(settings).(checkedDrinkItems := RemoveAll(old(settings).checkedDrinkItems, name))
      ensures itemType == Dessert ==>
        dessertMenu == RemoveAll(old(dessertMenu), name) && drinkMenu == old(drinkMenu) && settings == old(settings)
      ensures unchanged(`groups, `syncActive, `history, `lastSnapshot)
    {
      if itemType == Drink {
        drinkMenu := RemoveAll(drinkMenu, name);
        settings := settings.(checkedDrinkItems := RemoveAll(settings.checkedDrinkItems, name));
      } else {
        dessertMenu := RemoveAll(dessertMenu, name);
      }
    }

    /** `handleUpdateCheckedItems`: add as to a set, or remove every copy. */
    method UpdateCheckedItems(name: string, checked: bool)
      modifies this
      ensures settings == old(settings).(checkedDrinkItems :=
        if checked then Dedup(old(settings).checkedDrinkItems + [name])
        else RemoveAll(old(settings).checkedDrinkItems, name))
      ensures unchanged(`groups, `syncActive, `drinkMenu, `dessertMenu, `history, `lastSnapshot)
    {
      var list := if checked then Dedup(settings.checkedDrinkItems + [name])
                  else RemoveAll(settings.checkedDrinkItems, name);
      settings := settings.(checkedDrinkItems := list);
    }

    /** `onUpdateMenuList`: a reordered list replaces the menu of its type. */
    method UpdateMenuList(list: seq<string>, itemType: ItemType)
      modifies this
      ensures itemType == Drink ==> drinkMenu == list && dessertMenu == old(dessertMenu)
      ensures itemType == Dessert ==> dessertMenu == list && drinkMenu == old(drinkMenu)
      ensures unchanged(`groups, `syncActive, `settings, `history, `lastSnapshot)
    {
      if itemType == Drink {
        drinkMenu := list;
      } else {
        dessertMenu := list;
      }
    }

    /** `handleUpdateSettings`. */
    method UpdateSettings(newSettings: AppSettings)
      modifies this
      ensures settings == newSettings
      ensures unchanged(`groups, `syncActive, `drinkMenu, `dessertMenu, `history, `lastSnapshot)
    {
      settings := newSettings;
    }
  }

  /**
   * The menu and checked-list edits keep a list free of duplicates: adding
   * appends only a name not yet present, and removing drops every copy.
   */
  lemma MenuEditsKeepNoDup(menu: seq<string>, name: string)
    requires NoDup(menu)
    ensures Dedup(menu + [name]) == if name in menu then menu else menu + [name]
    ensures NoDup(Dedup(menu + [name])) && NoDup(RemoveAll(menu, name))
    ensures forall x :: x in RemoveAll(menu, name) <==> x in menu && x != name
  {
    AddUnique(menu, name);
    RemoveAllNoDup(menu, name);
    RemoveAllMembers(menu, name);
  }

  /** The initial menus and checked list have no duplicates. */
  lemma InitialListsNoDup()
    ensures NoDup(INITIAL_DRINK_MENU) && NoDup(INITIAL_DESSERT_MENU)
    ensures NoDup(DefaultSettings().checkedDrinkItems) && NoDup(DefaultSettings().quickMemos)
  {
  }
}
