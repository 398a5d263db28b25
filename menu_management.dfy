/**
 * The menu editor of components/MenuManagementModal.tsx: the tab's list,
 * the search filter, adding a name and reordering by drag. The list and
 * filter are shared with the selection sheet.
 */
module MenuManagement {
  import opened Orders
  import opened Text
  import opened Lists
  import opened App

  /** `currentList`: the drink tab hides "미정"; the dessert tab shows its menu as-is. */
  function CurrentList(tab: ItemType, drinks: seq<string>, desserts: seq<string>): (r: seq<string>)
    ensures tab == Drink ==> forall x :: x in r <==> x in drinks && x != UNDECIDED
    ensures tab == Drink ==> |r| <= |drinks|
    ensures tab == Dessert ==> r == desserts
    ensures NoDup(drinks) && NoDup(desserts) ==> NoDup(r)
  {
    if tab == Drink then
      RemoveAllMembers(drinks, UNDECIDED);
      if NoDup(drinks) then
        RemoveAllNoDup(drinks, UNDECIDED);
        RemoveAll(drinks, UNDECIDED)
      else RemoveAll(drinks, UNDECIDED)
    else desserts
  }

  /** `item.toLowerCase().includes(q)`. */
  predicate Matches(item: string, q: string) {
    Contains(Lower(item), q)
  }

  function KeepMatching(list: seq<string>, q: string): seq<string> {
    if |list| == 0 then []
    else
      var last := list[|list| - 1];
      KeepMatching(list[..|list| - 1], q) + (if Matches(last, q) then [last] else [])
  }

  /** The lower-cased, trimmed query. */
  function Query(searchQuery: string): string {
    Lower(Trim(searchQuery))
  }

  /** `filteredList`: the whole list for a blank query, else the matching entries. */
  function FilteredList(list: seq<string>, searchQuery: string): seq<string> {
    var q := Query(searchQuery);
    if q == "" then list else KeepMatching(list, q)
  }

  lemma {:induction false} KeepMatchingMembers(list: seq<string>, q: string)
    ensures forall x :: x in KeepMatching(list, q) <==> x in list && Matches(x, q)
  {
    if |list| > 0 {
      KeepMatchingMembers(list[..|list| - 1], q);
      assert list == list[..|list| - 1] + [list[|list| - 1]];
    }
  }

  lemma {:induction false} KeepMatchingAppend(a: seq<string>, b: seq<string>, q: string)
    ensures KeepMatching(a + b, q) == KeepMatching(a, q) + KeepMatching(b, q)
  {
    if |b| == 0 {
      assert a + b == a;
    } else {
      var ab := a + b;
      KeepMatchingAppend(a, b[..|b| - 1], q);
      assert ab[..|ab| - 1] == a + b[..|b| - 1];
      assert ab[|ab| - 1] == b[|b| - 1];
    }
  }

  /**
   * The search keeps exactly the entries containing the query, in list
   * order: filtering distributes over concatenation. A blank query keeps
   * everything.
   */
  lemma FilteredListSpec(list: seq<string>, searchQuery: string, a: seq<string>, b: seq<string>)
    requires list == a + b
    ensures Query(searchQuery) == "" ==> FilteredList(list, searchQuery) == list
    ensures Query(searchQuery) != "" ==>
      && (forall x :: x in FilteredList(list, searchQuery) <==> x in list && Matches(x, Query(searchQuery)))
      && FilteredList(list, searchQuery) == FilteredList(a, searchQuery) + FilteredList(b, searchQuery)
  {
    KeepMatchingMembers(list, Query(searchQuery));
    KeepMatchingAppend(a, b, Query(searchQuery));
  }

  /**
   * `handleAdd`'s name: the trimmed new name, else the trimmed query; `None`
   * when that is blank or already in the tab's list.
   */
  function AddTarget(newItemName: string, searchQuery: string, current: seq<string>): (r: Option<string>)
    ensures r.None? <==>
      var v := if Trim(newItemName) != "" then Trim(newItemName) else Trim(searchQuery);
      v == "" || v in current
    ensures r.Some? ==> r.value != "" && r.value !in current && IsTrimmed(r.value)
    ensures r.Some? && Trim(newItemName) != "" ==> r.value == Trim(newItemName)
    ensures r.Some? && Trim(newItemName) == "" ==> r.value == Trim(searchQuery)
  {
    var v := if Trim(newItemName) != "" then Trim(newItemName) else Trim(searchQuery);
    TrimIdempotent(newItemName);
    TrimIdempotent(searchQuery);
    if v == "" || v in current then None else Some(v)
  }

  /** `handleAdd` against the application: a new name joins the menu of the tab. */
  method Add(app: OrderApp, tab: ItemType, newItemName: string, searchQuery: string)
    modifies app
    ensures var t := AddTarget(newItemName, searchQuery, CurrentList(tab, old(app.drinkMenu), old(app.dessertMenu)));
      && (t.None? ==> app.drinkMenu == old(app.drinkMenu) && app.dessertMenu == old(app.dessertMenu))
      && (t.Some? && tab == Drink ==>
            app.drinkMenu == Dedup(old(app.drinkMenu) + [t.value]) && app.dessertMenu == old(app.dessertMenu))
      && (t.Some? && tab == Dessert ==>
            app.dessertMenu == Dedup(old(app.dessertMenu) + [t.value]) && app.drinkMenu == old(app.drinkMenu))
      && (t.Some? ==> t.value in (if tab == Drink then app.drinkMenu else app.dessertMenu))
    ensures app.groups == old(app.groups) && app.settings == old(app.settings) && app.history == old(app.history)
    ensures app.syncActive == old(app.syncActive) && app.lastSnapshot == old(app.lastSnapshot)
  {
    var t := AddTarget(newItemName, searchQuery, CurrentList(tab, app.drinkMenu, app.dessertMenu));
    if t.Some? {
      app.AddMenuItem(t.value, tab);
      if tab == Drink {
        DedupSpec(old(app.drinkMenu) + [t.value]);
      } else {
        DedupSpec(old(app.dessertMenu) + [t.value]);
      }
    }
  }

  /**
   * `handleDragEnd`: the list sent up, or `None` when there is no target or
   * the entry is dropped onto itself. The drink list gets "미정" back in
   * front.
   */
  function DragList(tab: ItemType, current: seq<string>, active: string, over: Option<string>): (r: Option<seq<string>>)
    requires active in current
    requires over.Some? ==> over.value in current
    ensures r.None? <==> over.None? || over.value == active
  {
    if over.None? || over.value == active then None
    else
      var moved := Reordered(current, active, over.value);
      Some(if tab == Drink then [UNDECIDED] + moved else moved)
  }

  /**
   * A drink reorder puts "미정" first and the moved list after it; a
   * dessert reorder is the moved list. Either way the tab's entries are
   * permuted, with the dragged entry where the target was.
   */
  lemma DragListSpec(tab: ItemType, current: seq<string>, active: string, over: string)
    requires active in current && over in current && active != over
    ensures var r := DragList(tab, current, active, Some(over)).value;
      var moved := if tab == Drink then r[1..] else r;
      && (tab == Drink ==> |r| >= 1 && r[0] == UNDECIDED)
      && |moved| == |current| && multiset(moved) == multiset(current)
      && moved[IndexOf(current, over)] == active
      && (NoDup(current) ==> NoDup(moved))
  {
    ReorderedSpec(current, active, over);
    var moved := Reordered(current, active, over);
    if tab == Drink {
      assert ([UNDECIDED] + moved)[1..] == moved;
    }
  }

  /** With "미정" hidden from the tab, the drink list sent up holds it exactly once. */
  lemma DragKeepsOneUndecided(drinks: seq<string>, desserts: seq<string>, active: string, over: string)
    requires var c := CurrentList(Drink, drinks, desserts); active in c && over in c && active != over
    ensures var r := DragList(Drink, CurrentList(Drink, drinks, desserts), active, Some(over)).value;
      multiset(r)[UNDECIDED] == 1
  {
    var c := CurrentList(Drink, drinks, desserts);
    DragListSpec(Drink, c, active, over);
    var r := DragList(Drink, c, active, Some(over)).value;
    assert r == [UNDECIDED] + r[1..];
    assert multiset(r) == multiset{UNDECIDED} + multiset(r[1..]);
    assert multiset(r[1..]) == multiset(c);
    assert UNDECIDED !in c;
    assert multiset(c)[UNDECIDED] == 0;
  }

  /** `handleDragEnd` against the application, through `onUpdateMenuList`. */
  method DragEnd(app: OrderApp, tab: ItemType, active: string, over: Option<string>)
    requires active in CurrentList(tab, app.drinkMenu, app.dessertMenu)
    requires over.Some? ==> over.value in CurrentList(tab, app.drinkMenu, app.dessertMenu)
    modifies app
    ensures var r := DragList(tab, CurrentList(tab, old(app.drinkMenu), old(app.dessertMenu)), active, over);
      && (r.None? ==> app.drinkMenu == old(app.drinkMenu) && app.dessertMenu == old(app.dessertMenu))
      && (r.Some? && tab == Drink ==> app.drinkMenu == r.value && app.dessertMenu == old(app.dessertMenu))
      && (r.Some? && tab == Dessert ==> app.dessertMenu == r.value && app.drinkMenu == old(app.drinkMenu))
    ensures app.groups == old(app.groups) && app.settings == old(app.settings) && app.history == old(app.history)
    ensures app.syncActive == old(app.syncActive) && app.lastSnapshot == old(app.lastSnapshot)
  {
    var r := DragList(tab, CurrentList(tab, app.drinkMenu, app.dessertMenu), active, over);
    if r.Some? {
      app.UpdateMenuList(r.value, tab);
    }
  }
}
