/**
 * The menu picker of components/MenuSelectionModal.tsx: the tab's list and
 * search (shared with the menu editor), the exact match, the sizes already
 * ordered for a name, the Enter key and reordering by drag.
 */
module MenuSelection {
  import opened Orders
  import opened Text
  import opened Lists
  import opened Tables
  import opened App
  import opened MenuManagement

  /** `i.trim().toLowerCase() === searchQuery.trim().toLowerCase()`. */
  predicate SameQuery(item: string, searchQuery: string) {
    Query(item) == Query(searchQuery)
  }

  /** `exactMatch`: the first entry equal to the query up to blanks and case. */
  function ExactMatch(list: seq<string>, searchQuery: string): (r: Option<string>)
    ensures r.Some? ==> r.value in list && SameQuery(r.value, searchQuery)
    ensures r.None? <==> forall i :: 0 <= i < |list| ==> !SameQuery(list[i], searchQuery)
  {
    var k := FirstWhere(list, (x: string) => SameQuery(x, searchQuery), 0);
    if k >= 0 then Some(list[k]) else None
  }

  /** `getItemOrderedSizes`: the sizes of the initial selections with that name on the active tab. */
  function OrderedSizes(sels: seq<Selection>, name: string, tab: ItemType): (r: set<Option<Size>>)
    ensures forall z :: z in r <==> exists i :: 0 <= i < |sels| && sels[i].itemName == name && sels[i].itemType == tab && sels[i].size == z
  {
    if |sels| == 0 then {}
    else
      var s := sels[|sels| - 1];
      var prev := OrderedSizes(sels[..|sels| - 1], name, tab);
      assert forall i :: 0 <= i < |sels| - 1 ==> sels[..|sels| - 1][i] == sels[i];
      prev + (if s.itemName == name && s.itemType == tab then {s.size} else {})
  }

  /** What Enter does in the picker. */
  datatype EnterOutcome = Pick(sel: Selection) | QuickAdd(name: string) | NoAction

  /**
   * `handleKeyDown` on Enter: a single search result is chosen (as a Tall
   * drink when sizes are shown); otherwise a non-blank query nothing matches
   * exactly is added to the menu; otherwise nothing happens.
   */
  function EnterKey(list: seq<string>, searchQuery: string, tab: ItemType, showDrinkSize: bool): (r: EnterOutcome)
    ensures r.Pick? <==> |FilteredList(list, searchQuery)| == 1
    ensures r.QuickAdd? <==>
      |FilteredList(list, searchQuery)| != 1 && ExactMatch(list, searchQuery).None? && Trim(searchQuery) != ""
  {
    var filtered := FilteredList(list, searchQuery);
    if |filtered| == 1 then
      Pick(Selection(filtered[0], tab, if tab == Drink && showDrinkSize then Some(Tall) else None))
    else if ExactMatch(list, searchQuery).None? && Trim(searchQuery) != "" then QuickAdd(Trim(searchQuery))
    else NoAction
  }

  /**
   * A pick is a listed entry of the tab's type, sized only for drinks with
   * sizes shown; a quick add is never blank and never a name already in
   * the list.
   */
  lemma EnterKeySpec(list: seq<string>, searchQuery: string, tab: ItemType, showDrinkSize: bool)
    ensures var r := EnterKey(list, searchQuery, tab, showDrinkSize);
      && (r.Pick? ==> r.sel.itemName in list && r.sel.itemType == tab &&
                      (r.sel.size.Some? <==> tab == Drink && showDrinkSize))
      && (r.QuickAdd? ==> r.name != "" && r.name !in list && r.name == Trim(searchQuery))
  {
    var r := EnterKey(list, searchQuery, tab, showDrinkSize);
    FilteredListSpec(list, searchQuery, list, []);
    var filtered := FilteredList(list, searchQuery);
    if r.Pick? {
      assert filtered[0] in filtered;
    }
    if r.QuickAdd? {
      var name := Trim(searchQuery);
      TrimIdempotent(searchQuery);
      assert SameQuery(name, searchQuery);
      forall i | 0 <= i < |list| ensures list[i] != name {
        assert !SameQuery(list[i], searchQuery);
      }
    }
  }

  /** `handleDragEnd`: the moved raw list, sent up as it is, or `None` without a target or on itself. */
  function DragList(current: seq<string>, active: string, over: Option<string>): (r: Option<seq<string>>)
    requires active in current
    requires over.Some? ==> over.value in current
    ensures r.None? <==> over.None? || over.value == active
    ensures r.Some? ==> |r.value| == |current| && multiset(r.value) == multiset(current)
    ensures r.Some? ==> r.value[IndexOf(current, over.value)] == active
    ensures r.Some? && NoDup(current) ==> NoDup(r.value)
  {
    if over.None? || over.value == active then None
    else
      ReorderedSpec(current, active, over.value);
      Some(Reordered(current, active, over.value))
  }

  /** A name missing from the raw list is missing from the moved list. */
  lemma DragKeepsOut(current: seq<string>, active: string, over: Option<string>, name: string)
    requires active in current
    requires over.Some? ==> over.value in current
    requires name !in current
    ensures DragList(current, active, over).Some? ==> name !in DragList(current, active, over).value
  {
    var r := DragList(current, active, over);
    if r.Some? {
      assert multiset(current)[name] == 0;
      assert multiset(r.value)[name] == 0;
    }
  }

  /**
   * Unlike the menu editor, the picker sends the drink list without "미정":
   * after a drink reorder here the stored drink menu no longer holds it.
   */
  method DragEnd(app: OrderApp, tab: ItemType, active: string, over: Option<string>)
    requires active in CurrentList(tab, app.drinkMenu, app.dessertMenu)
    requires over.Some? ==> over.value in CurrentList(tab, app.drinkMenu, app.dessertMenu)
    modifies app
    ensures var r := DragList(CurrentList(tab, old(app.drinkMenu), old(app.dessertMenu)), active, over);
      && (r.None? ==> app.drinkMenu == old(app.drinkMenu) && app.dessertMenu == old(app.dessertMenu))
      && (r.Some? && tab == Drink ==> app.drinkMenu == r.value && app.dessertMenu == old(app.dessertMenu))
      && (r.Some? && tab == Dessert ==> app.dessertMenu == r.value && app.drinkMenu == old(app.drinkMenu))
    ensures over.Some? && over.value != active && tab == Drink ==> UNDECIDED !in app.drinkMenu
    ensures app.groups == old(app.groups) && app.settings == old(app.settings) && app.history == old(app.history)
    ensures app.syncActive == old(app.syncActive) && app.lastSnapshot == old(app.lastSnapshot)
  {
    var current := CurrentList(tab, app.drinkMenu, app.dessertMenu);
    var r := DragList(current, active, over);
    if r.Some? {
      app.UpdateMenuList(r.value, tab);
      if tab == Drink {
        DragKeepsOut(current, active, over, UNDECIDED);
      }
    }
  }

  /**
   * Enter against the application: a pick goes through `onSelect` for the
   * slot and line the picker was opened on, a quick add through
   * `addMenuItemToState`.
   */
  method PressEnter(app: OrderApp, orderId: Option<string>, subItemId: Option<string>, tab: ItemType,
                    searchQuery: string, slotUuid: string -> string, newId: string)
    modifies app
    ensures var list := CurrentList(tab, old(app.drinkMenu), old(app.dessertMenu));
      var r := EnterKey(list, searchQuery, tab, old(app.settings).showDrinkSize);
      && (r.Pick? ==> app.groups == Select(old(app.groups), old(app.syncActive), orderId, subItemId, r.sel, slotUuid, newId)
                      && app.drinkMenu == old(app.drinkMenu) && app.dessertMenu == old(app.dessertMenu))
      && (r.QuickAdd? ==>
            app.groups == old(app.groups) && r.name in (if tab == Drink then app.drinkMenu else app.dessertMenu))
      && (r.QuickAdd? && tab == Drink ==>
            app.drinkMenu == Dedup(old(app.drinkMenu) + [r.name]) && app.dessertMenu == old(app.dessertMenu))
      && (r.QuickAdd? && tab == Dessert ==>
            app.dessertMenu == Dedup(old(app.dessertMenu) + [r.name]) && app.drinkMenu == old(app.drinkMenu))
      && (r.NoAction? ==>
            app.groups == old(app.groups) && app.drinkMenu == old(app.drinkMenu) && app.dessertMenu == old(app.dessertMenu))
    ensures app.settings == old(app.settings) && app.history == old(app.history)
    ensures app.syncActive == old(app.syncActive) && app.lastSnapshot == old(app.lastSnapshot)
  {
    var list := CurrentList(tab, app.drinkMenu, app.dessertMenu);
    var r := EnterKey(list, searchQuery, tab, app.settings.showDrinkSize);
    match r {
      case Pick(sel) =>
        app.SelectMenu(orderId, subItemId, sel, slotUuid, newId);
      case QuickAdd(name) =>
        app.AddMenuItem(name, tab);
        if tab == Drink {
          DedupSpec(old(app.drinkMenu) + [name]);
        } else {
          DedupSpec(old(app.dessertMenu) + [name]);
        }
      case NoAction =>
    }
  }
}
