/**
 * The value-level edits App.tsx applies to the order tree outside the
 * shared-menu reconciler: table creation and numbering, slot removal with
 * empty-table cleanup, "not eating", loading people only, renaming, the
 * saved-order title, and the menu-selection callbacks.
 *
 * `uuidv4` is a parameter: `uuid(k)` is the k-th id a handler generates, and
 * `slotUuid(id)` the id generated while rewriting the slot `id`.
 */
module Tables {
  import opened Orders
  import opened Text

  // ===================================================================
  // Removing slots (App.tsx:492-497, 670, 782)
  // ===================================================================

  /** `items.filter(p => !ids.includes(p.id))`. */
  function KeepSlots(items: seq<Slot>, ids: seq<string>): seq<Slot> {
    if |items| == 0 then []
    else KeepSlots(items[..|items| - 1], ids) + (if items[|items| - 1].id in ids then [] else [items[|items| - 1]])
  }

  /** `groups.filter(g => g.items.length > 0)`. */
  function DropEmpty(gs: seq<Group>): seq<Group> {
    if |gs| == 0 then []
    else DropEmpty(gs[..|gs| - 1]) + (if |gs[|gs| - 1].items| > 0 then [gs[|gs| - 1]] else [])
  }

  function Filtered(gs: seq<Group>, ids: seq<string>): (r: seq<Group>)
    ensures |r| == |gs|
  {
    seq(|gs|, k requires 0 <= k < |gs| => gs[k].(items := KeepSlots(gs[k].items, ids)))
  }

  /** Remove every slot whose id is listed, then every table left without slots. */
  function RemoveSlots(gs: seq<Group>, ids: seq<string>): seq<Group> {
    DropEmpty(Filtered(gs, ids))
  }

  lemma {:induction false} KeepSlotsAppend(a: seq<Slot>, b: seq<Slot>, ids: seq<string>)
    ensures KeepSlots(a + b, ids) == KeepSlots(a, ids) + KeepSlots(b, ids)
  {
    if |b| == 0 {
      assert a + b == a;
    } else {
      KeepSlotsAppend(a, b[..|b| - 1], ids);
      assert (a + b)[..|a + b| - 1] == a + b[..|b| - 1];
    }
  }

  lemma {:induction false} KeepSlotsMembers(items: seq<Slot>, ids: seq<string>)
    ensures forall s :: s in KeepSlots(items, ids) <==> s in items && s.id !in ids
  {
    if |items| > 0 {
      KeepSlotsMembers(items[..|items| - 1], ids);
      assert items == items[..|items| - 1] + [items[|items| - 1]];
    }
  }

  lemma {:induction false} AllSlotsAppend(a: seq<Group>, b: seq<Group>)
    ensures AllSlots(a + b) == AllSlots(a) + AllSlots(b)
  {
    if |b| == 0 {
      assert a + b == a;
    } else {
      AllSlotsAppend(a, b[..|b| - 1]);
      assert (a + b)[..|a + b| - 1] == a + b[..|b| - 1];
    }
  }

  lemma {:induction false} DropEmptySpec(gs: seq<Group>)
    ensures AllSlots(DropEmpty(gs)) == AllSlots(gs)
    ensures forall g :: g in DropEmpty(gs) <==> g in gs && |g.items| > 0
  {
    if |gs| > 0 {
      var prev := gs[..|gs| - 1];
      var last := gs[|gs| - 1];
      DropEmptySpec(prev);
      assert gs == prev + [last];
      if |last.items| > 0 {
        AllSlotsAppend(DropEmpty(prev), [last]);
      } else {
        assert last.items == [];
        assert AllSlots(gs) == AllSlots(prev) + last.items;
        assert DropEmpty(gs) == DropEmpty(prev);
      }
    }
  }

  lemma {:induction false} FilteredSlots(gs: seq<Group>, ids: seq<string>)
    ensures AllSlots(Filtered(gs, ids)) == KeepSlots(AllSlots(gs), ids)
  {
    if |gs| > 0 {
      var prev := gs[..|gs| - 1];
      FilteredSlots(prev, ids);
      assert Filtered(gs, ids)[..|gs| - 1] == Filtered(prev, ids);
      KeepSlotsAppend(AllSlots(prev), gs[|gs| - 1].items, ids);
    }
  }

  /**
   * Removal deletes exactly the listed slots, keeps all others in their
   * order, and leaves no table without slots; every surviving table is an
   * original table with only its listed slots taken out.
   */
  lemma RemoveSlotsSpec(gs: seq<Group>, ids: seq<string>)
    ensures AllSlots(RemoveSlots(gs, ids)) == KeepSlots(AllSlots(gs), ids)
    ensures forall s :: s in AllSlots(RemoveSlots(gs, ids)) <==> s in AllSlots(gs) && s.id !in ids
    ensures forall g :: g in RemoveSlots(gs, ids) ==> |g.items| > 0 && g in Filtered(gs, ids)
    ensures forall k :: 0 <= k < |gs| && |KeepSlots(gs[k].items, ids)| > 0 ==>
      gs[k].(items := KeepSlots(gs[k].items, ids)) in RemoveSlots(gs, ids)
  {
    DropEmptySpec(Filtered(gs, ids));
    FilteredSlots(gs, ids);
    KeepSlotsMembers(AllSlots(gs), ids);
    forall k | 0 <= k < |gs| && |KeepSlots(gs[k].items, ids)| > 0
      ensures gs[k].(items := KeepSlots(gs[k].items, ids)) in RemoveSlots(gs, ids)
    {
      assert Filtered(gs, ids)[k] == gs[k].(items := KeepSlots(gs[k].items, ids));
    }
  }

  /** `groups.filter(g => g.id !== id)`. */
  function RemoveTableById(gs: seq<Group>, id: string): seq<Group> {
    if |gs| == 0 then []
    else RemoveTableById(gs[..|gs| - 1], id) + (if gs[|gs| - 1].id == id then [] else [gs[|gs| - 1]])
  }

  /** Removing a table drops exactly the tables with that id and keeps the others in order. */
  lemma {:induction false} RemoveTableSpec(gs: seq<Group>, id: string)
    ensures forall g :: g in RemoveTableById(gs, id) <==> g in gs && g.id != id
    ensures |RemoveTableById(gs, id)| <= |gs|
  {
    if |gs| > 0 {
      var prev, last := gs[..|gs| - 1], gs[|gs| - 1];
      RemoveTableSpec(prev, id);
      assert gs == prev + [last];
      var r := RemoveTableById(gs, id);
      assert r == RemoveTableById(prev, id) + (if last.id == id then [] else [last]);
      forall g ensures g in r <==> g in gs && g.id != id {
        assert g in gs <==> g in prev || g == last;
      }
    }
  }

  /** An id no table carries removes nothing. */
  lemma {:induction false} RemoveTableAbsent(gs: seq<Group>, id: string)
    requires forall k :: 0 <= k < |gs| ==> gs[k].id != id
    ensures RemoveTableById(gs, id) == gs
  {
    if |gs| > 0 {
      var prev := gs[..|gs| - 1];
      forall k | 0 <= k < |prev| ensures prev[k].id != id {
        assert prev[k] == gs[k];
      }
      RemoveTableAbsent(prev, id);
      assert gs == prev + [gs[|gs| - 1]];
    }
  }

  // ===================================================================
  // Not eating, people only (App.tsx:464-490, 501-513)
  // ===================================================================

  /** The single line a "not eating" person gets. */
  function NotEatingItem(id: string): SubItem {
    SubItem(id, NOT_EATING, Drink, Some(Hot), Some(Tall), 1, "", false)
  }

  function MarkNotEating(p: Slot, ids: seq<string>, slotUuid: string -> string): Slot {
    if p.id !in ids then p
    else p.(avatar := if p.avatar == "" then DEFAULT_PERSON_AVATAR else p.avatar,
            subItems := [NotEatingItem(slotUuid(p.id))])
  }

  /** `handleSetNotEating`. */
  function SetNotEating(gs: seq<Group>, ids: seq<string>, slotUuid: string -> string): seq<Group> {
    MapSlots(gs, p => MarkNotEating(p, ids, slotUuid))
  }

  /**
   * Marking people as not eating: every listed slot keeps its id and memo,
   * keeps its avatar or gets "👤", and holds only the "안 먹음" line with a
   * fresh id; every other slot, and every table's id and name, stay.
   */
  lemma SetNotEatingSpec(gs: seq<Group>, ids: seq<string>, slotUuid: string -> string)
    ensures var r := SetNotEating(gs, ids, slotUuid);
      && |r| == |gs|
      && (forall k :: 0 <= k < |gs| ==> r[k].id == gs[k].id && r[k].name == gs[k].name && |r[k].items| == |gs[k].items|)
      && forall k, j :: 0 <= k < |gs| && 0 <= j < |gs[k].items| ==>
        var before, after := gs[k].items[j], r[k].items[j];
        && (before.id !in ids ==> after == before)
        && (before.id in ids ==>
              && after.id == before.id && after.memo == before.memo && after.avatar != ""
              && after.avatar == (if before.avatar == "" then DEFAULT_PERSON_AVATAR else before.avatar)
              && after.subItems == [NotEatingItem(slotUuid(before.id))])
  {
  }

  /** `handleLoadPeopleOnly`: the saved tables with every order and memo cleared. */
  function PeopleOnly(gs: seq<Group>): (r: seq<Group>)
    ensures |r| == |gs|
    ensures forall k :: 0 <= k < |gs| ==> r[k].id == gs[k].id && r[k].name == gs[k].name && |r[k].items| == |gs[k].items|
    ensures forall k, j :: 0 <= k < |gs| && 0 <= j < |gs[k].items| ==>
      r[k].items[j] == gs[k].items[j].(subItems := [], memo := "")
  {
    MapSlots(gs, (p: Slot) => p.(subItems := [], memo := ""))
  }

  // ===================================================================
  // New tables (App.tsx:227-265)
  // ===================================================================

  /** `parseInt(name.match(/\d+/)?.[0] || "0")`. */
  function TableNumber(name: string): nat {
    DigitsValue(FirstDigitRun(name))
  }

  /** `Math.max(...tableNums)` over the positive table numbers, 0 when there are none. */
  function MaxTableNumber(gs: seq<Group>): nat {
    if |gs| == 0 then 0
    else
      var m := MaxTableNumber(gs[..|gs| - 1]);
      var n := TableNumber(gs[|gs| - 1].name);
      if n > 0 && n > m then n else m
  }

  /** One more than the largest positive table number, or 1. */
  function NextTableNumber(gs: seq<Group>): nat {
    MaxTableNumber(gs) + 1
  }

  /** The next number exceeds every table's number and follows the largest one. */
  lemma {:induction false} NextTableNumberSpec(gs: seq<Group>)
    ensures forall k :: 0 <= k < |gs| ==> TableNumber(gs[k].name) < NextTableNumber(gs)
    ensures NextTableNumber(gs) == 1 || exists k :: 0 <= k < |gs| && TableNumber(gs[k].name) + 1 == NextTableNumber(gs)
  {
    if |gs| > 0 {
      var prev := gs[..|gs| - 1];
      NextTableNumberSpec(prev);
      assert forall k :: 0 <= k < |prev| ==> prev[k] == gs[k];
      if MaxTableNumber(gs) != MaxTableNumber(prev) {
        assert TableNumber(gs[|gs| - 1].name) + 1 == NextTableNumber(gs);
      } else if NextTableNumber(gs) != 1 {
        var k :| 0 <= k < |prev| && TableNumber(prev[k].name) + 1 == NextTableNumber(prev);
        assert gs[k] == prev[k];
      }
    }
  }

  /** `${n}번 테이블`. */
  function TableName(n: nat): string {
    NatToString(n) + "번 테이블"
  }

  /** A generated name reads back as its number. */
  lemma TableNameNumber(n: nat)
    ensures TableNumber(TableName(n)) == n
  {
    FirstDigitRunOfNumberPrefix(n, "번 테이블");
    NatToStringValue(n);
  }

  function EmptySlot(id: string): Slot {
    Slot(id, "", [], "")
  }

  /** The sub-items of the first shared slot in `items`, or none. */
  function FirstSharedSubs(items: seq<Slot>): (r: seq<SubItem>)
    ensures (forall j :: 0 <= j < |items| ==> !IsShared(items[j])) ==> r == []
    ensures forall j :: 0 <= j < |items| && IsShared(items[j]) && (forall i :: 0 <= i < j ==> !IsShared(items[i])) ==>
      r == items[j].subItems
  {
    if |items| == 0 then []
    else if IsShared(items[0]) then items[0].subItems
    else
      var rest := FirstSharedSubs(items[1..]);
      assert forall j :: 0 < j < |items| ==> items[1..][j - 1] == items[j];
      rest
  }

  /** A new shared slot starts from the first table's shared menu while sync is on. */
  function InitialSharedSubs(gs: seq<Group>, syncActive: bool): seq<SubItem> {
    if syncActive && |gs| > 0 then FirstSharedSubs(gs[0].items) else []
  }

  /** Four empty person slots followed by a shared slot, ids `uuid(1)` to `uuid(5)`. */
  function StarterSlots(uuid: nat -> string, shared: seq<SubItem>): (r: seq<Slot>)
    ensures |r| == 5
    ensures forall j :: 0 <= j < 4 ==> r[j] == EmptySlot(uuid(j + 1))
    ensures r[4] == Slot(uuid(5), SHARED_AVATAR, shared, "")
  {
    [EmptySlot(uuid(1)), EmptySlot(uuid(2)), EmptySlot(uuid(3)), EmptySlot(uuid(4)),
     Slot(uuid(5), SHARED_AVATAR, shared, "")]
  }

  /** The table `addGroup` appends. */
  function NewGroup(gs: seq<Group>, syncActive: bool, uuid: nat -> string): Group {
    Group(uuid(0), TableName(NextTableNumber(gs)), StarterSlots(uuid, InitialSharedSubs(gs, syncActive)))
  }

  /**
   * The new table's number is one more than the largest existing number, so
   * no existing table has it; it has four empty person slots and a shared
   * slot that copies the first table's shared menu when sync is on.
   */
  lemma NewGroupSpec(gs: seq<Group>, syncActive: bool, uuid: nat -> string)
    ensures var g := NewGroup(gs, syncActive, uuid);
      && TableNumber(g.name) == NextTableNumber(gs)
      && (forall k :: 0 <= k < |gs| ==> TableNumber(gs[k].name) < TableNumber(g.name))
      && |g.items| == 5
      && (forall j :: 0 <= j < 4 ==> g.items[j].avatar == "" && g.items[j].subItems == [])
      && IsShared(g.items[4])
      && g.items[4].subItems == (if syncActive && |gs| > 0 then FirstSharedSubs(gs[0].items) else [])
  {
    TableNameNumber(NextTableNumber(gs));
    NextTableNumberSpec(gs);
  }

  /** `handleResetAllTables`: a single "1번 테이블" with the starter slots. */
  function ResetGroups(uuid: nat -> string): (r: seq<Group>)
    ensures |r| == 1 && TableNumber(r[0].name) == 1
  {
    TableNameNumber(1);
    assert TableName(1) == "1번 테이블";
    [Group(uuid(0), "1번 테이블", StarterSlots(uuid, []))]
  }

  /** `addOrderItem`: an empty person slot at the end of table `gid`. */
  function AddOrderItem(gs: seq<Group>, gid: string, newId: string): (r: seq<Group>)
    ensures |r| == |gs|
  {
    seq(|gs|, k requires 0 <= k < |gs| =>
      if gs[k].id == gid then gs[k].(items := gs[k].items + [EmptySlot(newId)]) else gs[k])
  }

  /** `addSharedMenuItem`: a shared slot at the end of table `gid`. */
  function AddSharedSlot(gs: seq<Group>, gid: string, newId: string, syncActive: bool): (r: seq<Group>)
    ensures |r| == |gs|
  {
    var shared := InitialSharedSubs(gs, syncActive);
    seq(|gs|, k requires 0 <= k < |gs| =>
      if gs[k].id == gid then gs[k].(items := gs[k].items + [Slot(newId, SHARED_AVATAR, shared, "")]) else gs[k])
  }

  /** Adding a slot to a table puts it last in exactly the tables with that id. */
  lemma AddSlotSpec(gs: seq<Group>, gid: string, newId: string, syncActive: bool)
    ensures forall k :: 0 <= k < |gs| && gs[k].id != gid ==>
      AddOrderItem(gs, gid, newId)[k] == gs[k] && AddSharedSlot(gs, gid, newId, syncActive)[k] == gs[k]
    ensures forall k :: 0 <= k < |gs| && gs[k].id == gid ==>
      AddOrderItem(gs, gid, newId)[k].items[..|gs[k].items|] == gs[k].items
      && AddOrderItem(gs, gid, newId)[k].items[|gs[k].items|] == EmptySlot(newId)
      && IsShared(AddSharedSlot(gs, gid, newId, syncActive)[k].items[|gs[k].items|])
      && AddSharedSlot(gs, gid, newId, syncActive)[k].items
         == gs[k].items + [Slot(newId, SHARED_AVATAR, InitialSharedSubs(gs, syncActive), "")]
  {
    forall k | 0 <= k < |gs| && gs[k].id == gid
      ensures AddOrderItem(gs, gid, newId)[k].items[..|gs[k].items|] == gs[k].items
    {
      assert (gs[k].items + [EmptySlot(newId)])[..|gs[k].items|] == gs[k].items;
    }
  }

  // ===================================================================
  // Renaming (App.tsx:285-296)
  // ===================================================================

  /** `updateGroupName`. */
  function RenameTable(gs: seq<Group>, gid: string, name: string): (r: seq<Group>)
    ensures |r| == |gs|
    ensures forall k :: 0 <= k < |gs| ==> r[k] == if gs[k].id == gid then gs[k].(name := name) else gs[k]
  {
    seq(|gs|, k requires 0 <= k < |gs| => if gs[k].id == gid then gs[k].(name := name) else gs[k])
  }

  /** `groups.find(g => g.id === gid)?.name`, `""` when no table has that id. */
  function FindGroupName(gs: seq<Group>, gid: string): (r: string)
    ensures (forall k :: 0 <= k < |gs| ==> gs[k].id != gid) ==> r == ""
    ensures forall k :: 0 <= k < |gs| && gs[k].id == gid && (forall i :: 0 <= i < k ==> gs[i].id != gid) ==>
      r == gs[k].name
  {
    if |gs| == 0 then ""
    else if gs[0].id == gid then gs[0].name
    else
      var rest := FindGroupName(gs[1..], gid);
      assert forall k :: 0 < k < |gs| ==> gs[1..][k - 1] == gs[k];
      rest
  }

  /** `tempName.trim() || current name || "새 테이블"`. */
  function FinalTableName(gs: seq<Group>, gid: string, tempName: string): (r: string)
    ensures r != ""
    ensures Trim(tempName) != "" ==> r == Trim(tempName)
    ensures Trim(tempName) == "" ==> forall k :: 0 <= k < |gs| && gs[k].id == gid && (forall i :: 0 <= i < k ==> gs[i].id != gid) ==>
      r == if gs[k].name != "" then gs[k].name else "새 테이블"
    ensures Trim(tempName) == "" && (forall k :: 0 <= k < |gs| ==> gs[k].id != gid) ==> r == "새 테이블"
  {
    var t := Trim(tempName);
    if t != "" then t
    else
      var current := FindGroupName(gs, gid);
      if current != "" then current else "새 테이블"
  }

  // ===================================================================
  // The saved-order title (App.tsx:334-341)
  // ===================================================================

  predicate HasOrders(g: Group) {
    exists j :: 0 <= j < |g.items| && |g.items[j].subItems| > 0
  }

  /** The table's number if its trimmed name has one, else the name's first character. */
  function TitleToken(g: Group): (r: string)
    ensures r == "" <==> Trim(g.name) == ""
  {
    var t := Trim(g.name);
    var d := FirstDigitRun(t);
    if d != "" then d else if t == "" then "" else [t[0]]
  }

  /** One non-empty token per table that has an order, in table order. */
  function TitleTokens(gs: seq<Group>): seq<string> {
    if |gs| == 0 then []
    else
      var g := gs[|gs| - 1];
      TitleTokens(gs[..|gs| - 1]) + (if HasOrders(g) && TitleToken(g) != "" then [TitleToken(g)] else [])
  }

  function SaveTitle(gs: seq<Group>): string {
    var tokens := TitleTokens(gs);
    if |tokens| > 0 then Join(tokens, ", ") + "번 테이블" else "새 주문"
  }

  /** Every token of the title is non-empty. */
  lemma {:induction false} TitleTokensNonEmpty(gs: seq<Group>)
    ensures forall i :: 0 <= i < |TitleTokens(gs)| ==> TitleTokens(gs)[i] != ""
  {
    if |gs| > 0 {
      TitleTokensNonEmpty(gs[..|gs| - 1]);
    }
  }

  /** A table gives no token: it has no order, or its name is blank. */
  predicate Untitled(g: Group) {
    HasOrders(g) ==> Trim(g.name) == ""
  }

  /** There is no token exactly when no table with an order has a non-blank name. */
  lemma {:induction false} TitleTokensEmpty(gs: seq<Group>)
    ensures |TitleTokens(gs)| == 0 <==> AllUntitled(gs)
  {
    if |gs| > 0 {
      TitleTokensEmpty(gs[..|gs| - 1]);
      TitleTokensSnoc(gs);
      AllUntitledSnoc(gs);
    }
  }

  predicate AllUntitled(gs: seq<Group>) {
    forall k :: 0 <= k < |gs| ==> Untitled(gs[k])
  }

  /** The last table adds a token exactly when it is not untitled. */
  lemma TitleTokensSnoc(gs: seq<Group>)
    requires |gs| > 0
    ensures |TitleTokens(gs)| == |TitleTokens(gs[..|gs| - 1])| + (if Untitled(gs[|gs| - 1]) then 0 else 1)
  {
  }

  lemma AllUntitledSnoc(gs: seq<Group>)
    requires |gs| > 0
    ensures AllUntitled(gs) <==> AllUntitled(gs[..|gs| - 1]) && Untitled(gs[|gs| - 1])
  {
    var prev := gs[..|gs| - 1];
    if AllUntitled(prev) && Untitled(gs[|gs| - 1]) {
      forall k | 0 <= k < |gs| ensures Untitled(gs[k]) {
        if k < |prev| {
          assert gs[k] == prev[k];
        }
      }
    }
    if AllUntitled(gs) {
      forall k | 0 <= k < |prev| ensures Untitled(prev[k]) {
        assert gs[k] == prev[k];
      }
    }
  }

  /** The title falls back to "새 주문" exactly when no table contributes a token. */
  lemma SaveTitleSpec(gs: seq<Group>)
    ensures SaveTitle(gs) == "새 주문" <==> AllUntitled(gs)
  {
    TitleTokensEmpty(gs);
    var tokens := TitleTokens(gs);
    if |tokens| > 0 {
      var t := Join(tokens, ", ") + "번 테이블";
      assert t[|t| - 1] == "번 테이블"[|"번 테이블"| - 1];
      assert t != "새 주문";
    }
  }

  // ===================================================================
  // The menu-selection callbacks (App.tsx:813-872)
  // ===================================================================

  /** What the menu picker hands back: a name, a type and possibly a size. */
  datatype Selection = Selection(itemName: string, itemType: ItemType, size: Option<Size>)

  /** `a || b || 'Tall'`. */
  function SizeOr(a: Option<Size>, b: Option<Size>): Size {
    if a.Some? then a.value else if b.Some? then b.value else Tall
  }

  /** In a shared slot under sync: rename the line with that id, or append a tagged line. */
  function SelectInShared(p: Slot, subItemId: Option<string>, sel: Selection, slotUuid: string -> string): Slot {
    if !IsShared(p) then p
    else
      var k := if subItemId.Some? then FindSubById(p.subItems, subItemId.value) else -1;
      if k > -1 then
        var si := p.subItems[k];
        p.(subItems := p.subItems[k := si.(itemName := sel.itemName, itemType := sel.itemType,
                                            size := Some(SizeOr(sel.size, si.size)), isSynced := true)])
      else
        p.(subItems := p.subItems + [SubItem(slotUuid(p.id), sel.itemName, sel.itemType, Some(Hot),
                                             Some(SizeOr(sel.size, None)), 1, "", true)])
  }

  /** In the chosen slot only: rename the line with that id, or append a new line. */
  function SelectInSlot(p: Slot, orderId: string, subItemId: Option<string>, sel: Selection, newId: string): Slot {
    if p.id != orderId then p
    else if subItemId.Some? then
      p.(subItems := seq(|p.subItems|, i requires 0 <= i < |p.subItems| =>
        var si := p.subItems[i];
        if si.id == subItemId.value
        then si.(itemName := sel.itemName, itemType := sel.itemType, size := Some(SizeOr(sel.size, si.size)))
        else si))
    else
      p.(subItems := p.subItems + [SubItem(newId, sel.itemName, sel.itemType, Some(DefaultTemperature(sel.itemName)),
                                           Some(SizeOr(sel.size, None)), 1, "", false)])
  }

  /** `onSelect`: with sync on and a shared slot chosen, every shared slot receives the choice. */
  function Select(gs: seq<Group>, syncActive: bool, orderId: Option<string>, subItemId: Option<string>,
                  sel: Selection, slotUuid: string -> string, newId: string): seq<Group> {
    if orderId.None? then gs
    else
      var person := FindSlot(gs, orderId.value);
      if syncActive && person.Some? && IsShared(person.value)
      then MapSlots(gs, p => SelectInShared(p, subItemId, sel, slotUuid))
      else MapSlots(gs, p => SelectInSlot(p, orderId.value, subItemId, sel, newId))
  }

  /** A line picked again: it takes the chosen name, type and size, and keeps every other field. */
  predicate Repicked(before: SubItem, after: SubItem, sel: Selection) {
    && after.id == before.id && after.temperature == before.temperature
    && after.quantity == before.quantity && after.memo == before.memo
    && after.itemName == sel.itemName && after.itemType == sel.itemType
    && after.size == Some(SizeOr(sel.size, before.size))
  }

  /**
   * Under sync, a choice made in a shared slot reaches every shared slot.
   * Where the slot has a line with the picked line's id, the first such line
   * is renamed in place and flagged; elsewhere a flagged HOT line of quantity
   * 1 is appended. Every other line, and every person slot, is unchanged.
   */
  lemma SelectSyncSpec(gs: seq<Group>, orderId: string, subItemId: Option<string>, sel: Selection,
                       slotUuid: string -> string, newId: string)
    requires FindSlot(gs, orderId).Some? && IsShared(FindSlot(gs, orderId).value)
    ensures var r := Select(gs, true, Some(orderId), subItemId, sel, slotUuid, newId);
      && |r| == |gs|
      && (forall k :: 0 <= k < |gs| ==> r[k].id == gs[k].id && r[k].name == gs[k].name && |r[k].items| == |gs[k].items|)
      && forall k, j :: 0 <= k < |gs| && 0 <= j < |gs[k].items| ==>
        var before, after := gs[k].items[j], r[k].items[j];
        && (!IsShared(before) ==> after == before)
        && (IsShared(before) ==>
              && after.id == before.id && after.avatar == before.avatar && after.memo == before.memo
              && (exists i :: 0 <= i < |after.subItems| && after.subItems[i].itemName == sel.itemName
                                                       && after.subItems[i].isSynced)
              && var m := if subItemId.Some? then FindSubById(before.subItems, subItemId.value) else -1;
                 && (m >= 0 ==>
                       && |after.subItems| == |before.subItems|
                       && Repicked(before.subItems[m], after.subItems[m], sel) && after.subItems[m].isSynced
                       && forall i :: 0 <= i < |before.subItems| && i != m ==> after.subItems[i] == before.subItems[i])
                 && (m < 0 ==>
                       after.subItems == before.subItems + [SubItem(slotUuid(before.id), sel.itemName, sel.itemType,
                                                                    Some(Hot), Some(SizeOr(sel.size, None)), 1, "", true)]))
  {
    var r := Select(gs, true, Some(orderId), subItemId, sel, slotUuid, newId);
    forall k, j | 0 <= k < |gs| && 0 <= j < |gs[k].items| && IsShared(gs[k].items[j])
      ensures exists i :: 0 <= i < |r[k].items[j].subItems| && r[k].items[j].subItems[i].itemName == sel.itemName
                                                          && r[k].items[j].subItems[i].isSynced
    {
      var p := gs[k].items[j];
      var after := r[k].items[j];
      var kk := if subItemId.Some? then FindSubById(p.subItems, subItemId.value) else -1;
      if kk > -1 {
        assert after.subItems[kk].itemName == sel.itemName;
      } else {
        assert after.subItems[|p.subItems|].itemName == sel.itemName;
      }
    }
  }

  /**
   * Any other choice touches only the slot the picker was opened on. With a
   * line id, every line with that id is renamed in place; without one, a new
   * unflagged line of quantity 1 is appended, ICE for smoothies and iced
   * drinks and HOT otherwise. Every other slot is unchanged.
   */
  lemma SelectLocalSpec(gs: seq<Group>, syncActive: bool, orderId: string, subItemId: Option<string>, sel: Selection,
                        slotUuid: string -> string, newId: string)
    requires !(syncActive && FindSlot(gs, orderId).Some? && IsShared(FindSlot(gs, orderId).value))
    ensures var r := Select(gs, syncActive, Some(orderId), subItemId, sel, slotUuid, newId);
      && |r| == |gs|
      && (forall k :: 0 <= k < |gs| ==> r[k].id == gs[k].id && r[k].name == gs[k].name && |r[k].items| == |gs[k].items|)
      && forall k, j :: 0 <= k < |gs| && 0 <= j < |gs[k].items| ==>
        var before, after := gs[k].items[j], r[k].items[j];
        && (before.id != orderId ==> after == before)
        && (before.id == orderId ==>
              && after.id == before.id && after.avatar == before.avatar && after.memo == before.memo
              && (subItemId.Some? ==>
                    && |after.subItems| == |before.subItems|
                    && forall i :: 0 <= i < |before.subItems| ==>
                         if before.subItems[i].id == subItemId.value
                         then Repicked(before.subItems[i], after.subItems[i], sel)
                              && after.subItems[i].isSynced == before.subItems[i].isSynced
                         else after.subItems[i] == before.subItems[i])
              && (subItemId.None? ==>
                    after.subItems == before.subItems + [SubItem(newId, sel.itemName, sel.itemType,
                                                                 Some(DefaultTemperature(sel.itemName)),
                                                                 Some(SizeOr(sel.size, None)), 1, "", false)]))
  {
  }

  /** `onDeleteSelection`, shared case: drop every line with that name from every shared slot. */
  function DropNameFromShared(p: Slot, name: string): Slot {
    if IsShared(p) then p.(subItems := DropName(p.subItems, name)) else p
  }

  function DropName(s: seq<SubItem>, name: string): seq<SubItem> {
    if |s| == 0 then []
    else DropName(s[..|s| - 1], name) + (if s[|s| - 1].itemName == name then [] else [s[|s| - 1]])
  }

  function DropId(s: seq<SubItem>, id: string): seq<SubItem> {
    if |s| == 0 then []
    else DropId(s[..|s| - 1], id) + (if s[|s| - 1].id == id then [] else [s[|s| - 1]])
  }

  lemma {:induction false} DropNameMembers(s: seq<SubItem>, name: string)
    ensures forall x :: x in DropName(s, name) <==> x in s && x.itemName != name
  {
    if |s| > 0 {
      DropNameMembers(s[..|s| - 1], name);
      assert s == s[..|s| - 1] + [s[|s| - 1]];
    }
  }

  /** The name filter distributes over concatenation, so the kept lines stay in order, each as often as before. */
  lemma {:induction false} DropNameAppend(s: seq<SubItem>, t: seq<SubItem>, name: string)
    ensures DropName(s + t, name) == DropName(s, name) + DropName(t, name)
  {
    if |t| == 0 {
      assert s + t == s;
    } else {
      DropNameAppend(s, t[..|t| - 1], name);
      assert (s + t)[..|s + t| - 1] == s + t[..|t| - 1];
    }
  }

  /** The id filter distributes over concatenation, so the kept lines stay in order, each as often as before. */
  lemma {:induction false} DropIdAppend(s: seq<SubItem>, t: seq<SubItem>, id: string)
    ensures DropId(s + t, id) == DropId(s, id) + DropId(t, id)
  {
    if |t| == 0 {
      assert s + t == s;
    } else {
      DropIdAppend(s, t[..|t| - 1], id);
      assert (s + t)[..|s + t| - 1] == s + t[..|t| - 1];
    }
  }

  lemma {:induction false} DropIdMembers(s: seq<SubItem>, id: string)
    ensures forall x :: x in DropId(s, id) <==> x in s && x.id != id
  {
    if |s| > 0 {
      DropIdMembers(s[..|s| - 1], id);
      assert s == s[..|s| - 1] + [s[|s| - 1]];
    }
  }

  function DeleteSelection(gs: seq<Group>, syncActive: bool, orderId: Option<string>, subItemId: Option<string>): seq<Group> {
    if orderId.None? || subItemId.None? then gs
    else
      var person := FindSlot(gs, orderId.value);
      var k := if person.Some? then FindSubById(person.value.subItems, subItemId.value) else -1;
      if syncActive && person.Some? && IsShared(person.value) && k >= 0
      then MapSlots(gs, p => DropNameFromShared(p, person.value.subItems[k].itemName))
      else MapSlots(gs, (p: Slot) => if p.id != orderId.value then p else p.(subItems := DropId(p.subItems, subItemId.value)))
  }

  /**
   * Deleting a line: under sync from a shared slot, every shared slot loses
   * exactly its lines of that name; otherwise only the chosen slot loses
   * exactly the line with that id. Nothing else changes.
   */
  lemma DeleteSelectionSpec(gs: seq<Group>, syncActive: bool, orderId: string, subItemId: string)
    ensures var r := DeleteSelection(gs, syncActive, Some(orderId), Some(subItemId));
      var person := FindSlot(gs, orderId);
      var k := if person.Some? then FindSubById(person.value.subItems, subItemId) else -1;
      && |r| == |gs|
      && forall g, j :: 0 <= g < |gs| && 0 <= j < |gs[g].items| ==>
        var before, after := gs[g].items[j], r[g].items[j];
        && after.id == before.id && after.avatar == before.avatar && after.memo == before.memo
        && (if syncActive && person.Some? && IsShared(person.value) && k >= 0 then
              (IsShared(before) ==>
                 && after.subItems == DropName(before.subItems, person.value.subItems[k].itemName)
                 && forall x :: x in after.subItems <==>
                                x in before.subItems && x.itemName != person.value.subItems[k].itemName)
              && (!IsShared(before) ==> after == before)
            else
              (before.id == orderId ==>
                 && after.subItems == DropId(before.subItems, subItemId)
                 && forall x :: x in after.subItems <==> x in before.subItems && x.id != subItemId)
              && (before.id != orderId ==> after == before))
  {
    var person := FindSlot(gs, orderId);
    forall p: Slot {
      DropIdMembers(p.subItems, subItemId);
    }
    if person.Some? {
      var k := FindSubById(person.value.subItems, subItemId);
      if k >= 0 {
        forall p: Slot {
          DropNameMembers(p.subItems, person.value.subItems[k].itemName);
        }
      }
    }
  }
}
