/**
 * The per-slot order card of components/OrderCard.tsx: the status of a
 * slot, its memo chips, the first-order shortcut, the comma-separated memo
 * edits, the shared slot's quantity buttons and the avatar re-roll.
 */
module Card {
  import opened Orders
  import opened Text
  import opened Lists
  import opened Settings
  import opened SharedSync
  import opened App
  import Tables

  // ===================================================================
  // Status (OrderCard.tsx:86-89, 299-304)
  // ===================================================================

  predicate IsNotEating(p: Slot) {
    p.avatar != "" && !IsShared(p) && |p.subItems| == 1 && p.subItems[0].itemName == NOT_EATING
  }

  /** No lines, or only "미정" lines (blank names do not count here, unlike the summary). */
  predicate IsUndecided(p: Slot) {
    && p.avatar != "" && !IsShared(p) && !IsNotEating(p)
    && (|p.subItems| == 0 || forall i :: 0 <= i < |p.subItems| ==> p.subItems[i].itemName == UNDECIDED)
  }

  predicate IsDecided(p: Slot) {
    p.avatar != "" && !IsShared(p) && !IsNotEating(p) && !IsUndecided(p)
  }

  datatype CardStatus = StatusUndecided | StatusNotEating | StatusDecided

  /**
   * `getStatusStyle`: the first flag that holds. A person slot with an
   * avatar has exactly one status, and a slot without an avatar or the
   * shared slot has none; "not eating" is exactly the single "안 먹음" line.
   */
  function Status(p: Slot): (r: Option<CardStatus>)
    ensures r == Some(StatusUndecided) <==> IsUndecided(p)
    ensures r == Some(StatusNotEating) <==> IsNotEating(p)
    ensures r == Some(StatusDecided) <==> IsDecided(p)
    ensures r.None? <==> p.avatar == "" || IsShared(p)
    ensures p.avatar != "" && !IsShared(p) ==>
      (r == Some(StatusNotEating) <==> |p.subItems| == 1 && p.subItems[0].itemName == NOT_EATING)
  {
    if IsUndecided(p) then Some(StatusUndecided)
    else if IsNotEating(p) then Some(StatusNotEating)
    else if IsDecided(p) then Some(StatusDecided)
    else None
  }

  /** A person marked "not eating" from the summary shows the "not eating" status on their card. */
  lemma SetNotEatingStatus(gs: seq<Group>, ids: seq<string>, slotUuid: string -> string)
    ensures var r := Tables.SetNotEating(gs, ids, slotUuid);
      forall k, j :: 0 <= k < |gs| && 0 <= j < |gs[k].items| && gs[k].items[j].id in ids && !IsShared(gs[k].items[j]) ==>
        Status(r[k].items[j]) == Some(StatusNotEating)
  {
    Tables.SetNotEatingSpec(gs, ids, slotUuid);
  }

  // ===================================================================
  // Memo chips (OrderCard.tsx:124-134)
  // ===================================================================

  datatype Chip = Chip(text: string, subItemId: string)

  /** `si.memo ? si.memo.split(',').map(trim).filter(Boolean) : []`. */
  function MemoList(memo: string): (r: seq<string>)
    ensures forall k :: 0 <= k < |r| ==> r[k] != "" && IsTrimmed(r[k]) && ',' !in r[k]
  {
    if memo == "" then [] else Pieces(memo)
  }

  /** One chip per piece, in order, all for the same sub-item. */
  function ChipsOfPieces(pieces: seq<string>, id: string): (r: seq<Chip>)
    ensures |r| == |pieces|
    ensures forall k :: 0 <= k < |r| ==> r[k] == Chip(pieces[k], id)
  {
    if |pieces| == 0 then []
    else ChipsOfPieces(pieces[..|pieces| - 1], id) + [Chip(pieces[|pieces| - 1], id)]
  }

  function ChipsFor(si: SubItem): (r: seq<Chip>)
    ensures |r| == |MemoList(si.memo)|
    ensures forall k :: 0 <= k < |r| ==> r[k] == Chip(MemoList(si.memo)[k], si.id)
  {
    ChipsOfPieces(MemoList(si.memo), si.id)
  }

  function ChipsOf(subs: seq<SubItem>): seq<Chip> {
    if |subs| == 0 then [] else ChipsOf(subs[..|subs| - 1]) + ChipsFor(subs[|subs| - 1])
  }

  function PieceCount(subs: seq<SubItem>): nat {
    if |subs| == 0 then 0 else PieceCount(subs[..|subs| - 1]) + |MemoList(subs[|subs| - 1].memo)|
  }

  /** One chip per piece, each a trimmed, non-empty text without a comma. */
  lemma {:induction false} ChipsOfSpec(subs: seq<SubItem>)
    ensures |ChipsOf(subs)| == PieceCount(subs)
    ensures forall k :: 0 <= k < |ChipsOf(subs)| ==>
      ChipsOf(subs)[k].text != "" && IsTrimmed(ChipsOf(subs)[k].text) && ',' !in ChipsOf(subs)[k].text
  {
    if |subs| > 0 {
      var init := subs[..|subs| - 1];
      var si := subs[|subs| - 1];
      ChipsOfSpec(init);
      var prev, cf := ChipsOf(init), ChipsFor(si);
      var all := prev + cf;
      assert ChipsOf(subs) == all;
      var m := MemoList(si.memo);
      forall k | 0 <= k < |all| ensures all[k].text != "" && IsTrimmed(all[k].text) && ',' !in all[k].text {
        if k < |prev| {
          assert all[k] == prev[k];
        } else {
          assert all[k] == cf[k - |prev|];
          assert all[k].text == m[k - |prev|];
        }
      }
    }
  }

  /** The inner `forEach`: one chip per piece, pushed in order. */
  method PushPieces(base: seq<Chip>, pieces: seq<string>, id: string) returns (chips: seq<Chip>)
    ensures chips == base + ChipsOfPieces(pieces, id)
  {
    chips := base;
    for k := 0 to |pieces|
      invariant chips == base + ChipsOfPieces(pieces[..k], id)
    {
      assert pieces[..k + 1][..k] == pieces[..k];
      chips := chips + [Chip(pieces[k], id)];
    }
    assert pieces[..|pieces|] == pieces;
  }

  /** The chips of one sub-item: nothing for an empty memo. */
  method PushChips(base: seq<Chip>, si: SubItem) returns (chips: seq<Chip>)
    ensures chips == base + ChipsFor(si)
  {
    chips := base;
    if si.memo != "" {
      chips := PushPieces(base, Pieces(si.memo), si.id);
    }
  }

  /** `memoChips`: the nested `forEach` pushing one chip per piece. */
  method MemoChips(subs: seq<SubItem>) returns (chips: seq<Chip>)
    ensures chips == ChipsOf(subs)
  {
    chips := [];
    for i := 0 to |subs|
      invariant chips == ChipsOf(subs[..i])
    {
      assert subs[..i + 1][..i] == subs[..i];
      chips := PushChips(chips, subs[i]);
    }
    assert subs[..|subs|] == subs;
  }

  // ===================================================================
  // First order (OrderCard.tsx:147-167)
  // ===================================================================

  /** `menuName || '미정'`. */
  function FinalName(menuName: string): (r: string)
    ensures r != ""
    ensures menuName != "" ==> r == menuName
    ensures menuName == "" ==> r == UNDECIDED
  {
    if menuName == "" then UNDECIDED else menuName
  }

  /** A new name, not a placeholder, goes into the drink menu and the quick list. */
  predicate AddsToMenu(name: string, drinkItems: seq<string>) {
    name != UNDECIDED && name != NOT_EATING && name !in drinkItems
  }

  /** Smoothies and iced drinks default to ICE. */
  predicate IceDefault(name: string) {
    Contains(name, "스무디") || Contains(name, "아이스")
  }

  /** The single line the card's order becomes. */
  function FinalizedLine(menuName: string, force: Option<Temperature>, newId: string): (r: SubItem)
    ensures r.id == newId && r.itemName == FinalName(menuName)
    ensures r.itemType == Drink && r.size == Some(Tall) && r.quantity == 1 && r.memo == "" && !r.isSynced
    ensures force.Some? ==> r.temperature == force
    ensures force.None? ==> r.temperature.Some? && (r.temperature == Some(Ice) <==> IceDefault(r.itemName))
  {
    var name := FinalName(menuName);
    var t := if force.Some? then force.value else if IceDefault(name) then Ice else Hot;
    SubItem(newId, name, Drink, Some(t), Some(Tall), 1, "", false)
  }

  /**
   * `handleInitialOrderFinalize` against the application state: a new
   * drink name joins the drink menu and the quick list, then the slot's
   * lines become the one finalized line through `updateOrder`.
   */
  method FinalizeInitialOrder(app: OrderApp, orderId: string, menuName: string,
                              force: Option<Temperature>, newId: string)
    modifies app
    ensures var name := FinalName(menuName);
      && (AddsToMenu(name, old(app.drinkMenu)) ==>
            && app.drinkMenu == Dedup(old(app.drinkMenu) + [name]) && name in app.drinkMenu
            && app.settings == old(app.settings).(checkedDrinkItems := Dedup(old(app.settings).checkedDrinkItems + [name]))
            && name in app.settings.checkedDrinkItems)
      && (!AddsToMenu(name, old(app.drinkMenu)) ==>
            app.drinkMenu == old(app.drinkMenu) && app.settings == old(app.settings))
    ensures app.groups == SharedSync.UpdateOrder(old(app.groups), old(app.syncActive), orderId,
                                                 SlotUpdate(None, Some([FinalizedLine(menuName, force, newId)]), None))
    ensures app.dessertMenu == old(app.dessertMenu) && app.syncActive == old(app.syncActive)
    ensures app.history == old(app.history) && app.lastSnapshot == old(app.lastSnapshot)
  {
    var name := FinalName(menuName);
    if AddsToMenu(name, app.drinkMenu) {
      app.AddMenuItem(name, Drink);
      DedupSpec(old(app.drinkMenu) + [name]);
      app.UpdateCheckedItems(name, true);
      DedupSpec(old(app.settings).checkedDrinkItems + [name]);
    }
    app.UpdateOrder(orderId, SlotUpdate(None, Some([FinalizedLine(menuName, force, newId)]), None));
  }

  // ===================================================================
  // Memo edits (OrderCard.tsx:180-206, 581-604)
  // ===================================================================

  /** `subItems.map(s => s.id === id ? { ...s, memo } : s)`. */
  function WithMemo(subs: seq<SubItem>, id: string, memo: string): (r: seq<SubItem>)
    ensures |r| == |subs|
    ensures forall i :: 0 <= i < |subs| && subs[i].id != id ==> r[i] == subs[i]
    ensures forall i :: 0 <= i < |subs| && subs[i].id == id ==> r[i] == subs[i].(memo := memo)
  {
    seq(|subs|, i requires 0 <= i < |subs| => if subs[i].id == id then subs[i].(memo := memo) else subs[i])
  }

  /**
   * `handleAddCustomMemo`'s edit of the card: `None` when it returns
   * without calling `onUpdate`. `activeId == ""` is no active sub-item.
   */
  function AddCustomMemo(subs: seq<SubItem>, activeId: string, custom: string): (r: Option<seq<SubItem>>)
    ensures r.None? <==>
      || Trim(custom) == "" || activeId == ""
      || FindSubById(subs, activeId) < 0
      || Trim(custom) in MemoList(subs[FindSubById(subs, activeId)].memo)
  {
    var text := Trim(custom);
    if text == "" || activeId == "" then None
    else
      var k := FindSubById(subs, activeId);
      if k < 0 then None
      else
        var m := MemoList(subs[k].memo);
        if text in m then None else Some(WithMemo(subs, activeId, Join(m + [text], ", ")))
  }

  /**
   * An added memo reads back as the old pieces followed by the pieces of the
   * trimmed text, so a text with commas adds one chip per piece and a text
   * without adds exactly itself; every sub-item with another id is
   * unchanged, and those with the id change only their memo.
   */
  lemma AddCustomMemoSpec(subs: seq<SubItem>, activeId: string, custom: string)
    requires AddCustomMemo(subs, activeId, custom).Some?
    ensures var r, k := AddCustomMemo(subs, activeId, custom).value, FindSubById(subs, activeId);
      && |r| == |subs|
      && MemoList(r[k].memo) == MemoList(subs[k].memo) + MemoList(Trim(custom))
      && (',' !in Trim(custom) ==> MemoList(r[k].memo) == MemoList(subs[k].memo) + [Trim(custom)])
      && (forall i :: 0 <= i < |subs| && subs[i].id != activeId ==> r[i] == subs[i])
      && (forall i :: 0 <= i < |subs| && subs[i].id == activeId ==> r[i] == subs[i].(memo := r[k].memo))
  {
    var k := FindSubById(subs, activeId);
    var m, t := MemoList(subs[k].memo), Trim(custom);
    var r := AddCustomMemo(subs, activeId, custom).value;
    assert r[k].memo == Join(m + [t], ", ");
    AppendedReadBack(m, t);
  }

  /** A list of proper pieces joined with ", " reads back as itself. */
  lemma MemoListOfJoin(m: seq<string>)
    requires forall k :: 0 <= k < |m| ==> m[k] != "" && IsTrimmed(m[k]) && ',' !in m[k]
    ensures MemoList(Join(m, ", ")) == m
  {
    PiecesOfJoin(m);
    NonEmptyOfNonEmpty(m);
    if |m| > 0 {
      MemoOfJoin(m);
    }
  }

  /** A non-empty join is a non-empty memo, so the reading goes through `Pieces`. */
  lemma MemoOfJoin(parts: seq<string>)
    requires |parts| > 0 && parts[|parts| - 1] != ""
    ensures Join(parts, ", ") != ""
  {
    if |parts| > 1 {
      MemoOfJoin(parts[1..]);
    }
  }

  /** The example chips gain the text, once, whenever the guard passes. */
  function AddLocalQuickMemo(local: seq<string>, activeId: string, custom: string): (r: seq<string>)
    ensures Trim(custom) == "" || activeId == "" || Trim(custom) in local ==> r == local
    ensures Trim(custom) != "" && activeId != "" && Trim(custom) !in local ==> r == local + [Trim(custom)]
    ensures NoDup(local) ==> NoDup(r)
  {
    var text := Trim(custom);
    if text == "" || activeId == "" || text in local then local else local + [text]
  }

  /** `handleDeleteChip`: every trimmed piece but `text`, blank ones included, joined again. */
  function DeleteChip(subs: seq<SubItem>, subItemId: string, text: string): (r: Option<seq<SubItem>>)
    ensures r.None? <==> FindSubById(subs, subItemId) < 0 || subs[FindSubById(subs, subItemId)].memo == ""
  {
    var k := FindSubById(subs, subItemId);
    if k < 0 || subs[k].memo == "" then None
    else Some(WithMemo(subs, subItemId, Join(RemoveAll(TrimAll(Split(subs[k].memo, ',')), text), ", ")))
  }

  /** Dropping blanks and dropping `t` commute, one element at a time. */
  lemma NonEmptyRemoveOne(x: string, t: string)
    ensures NonEmpty(RemoveAll([x], t)) == RemoveAll(KeepPiece(x), t)
  {
    assert [x][..0] == [];
    assert RemoveAll([x], t) == if x == t then [] else [x];
    assert NonEmpty([x]) == KeepPiece(x) by {
      assert [x][1..] == [];
    }
    if x != "" {
      assert RemoveAll(KeepPiece(x), t) == RemoveAll([x], t);
    }
  }

  lemma {:induction false} NonEmptyRemoveAll(xs: seq<string>, t: string)
    ensures NonEmpty(RemoveAll(xs, t)) == RemoveAll(NonEmpty(xs), t)
  {
    if |xs| > 0 {
      var x, rest := xs[0], xs[1..];
      assert xs == [x] + rest;
      calc {
        NonEmpty(RemoveAll(xs, t));
        { RemoveAllAppend([x], rest, t); }
        NonEmpty(RemoveAll([x], t) + RemoveAll(rest, t));
        { NonEmptyAppend(RemoveAll([x], t), RemoveAll(rest, t)); }
        NonEmpty(RemoveAll([x], t)) + NonEmpty(RemoveAll(rest, t));
        { NonEmptyRemoveOne(x, t); NonEmptyRemoveAll(rest, t); }
        RemoveAll(KeepPiece(x), t) + RemoveAll(NonEmpty(rest), t);
        { RemoveAllAppend(KeepPiece(x), NonEmpty(rest), t); }
        RemoveAll(KeepPiece(x) + NonEmpty(rest), t);
        RemoveAll(NonEmpty(xs), t);
      }
    }
  }

  /** The memo read as a list is its pieces; an empty memo has none. */
  lemma MemoListIsPieces(memo: string)
    ensures MemoList(memo) == Pieces(memo)
  {
    if memo == "" {
      assert Split("", ',') == [""];
      assert TrimNonEmpty([""]) == TrimmedPiece("") + TrimNonEmpty([]);
    }
  }

  /** What is left after the removal are still proper pieces: trimmed and comma-free. */
  lemma KeptProper(parts: seq<string>, text: string, kept: seq<string>)
    requires forall k :: 0 <= k < |parts| ==> ',' !in parts[k]
    requires kept == RemoveAll(TrimAll(parts), text)
    ensures forall j :: 0 <= j < |kept| ==> IsTrimmed(kept[j]) && ',' !in kept[j]
  {
    var t := TrimAll(parts);
    forall j | 0 <= j < |kept| ensures IsTrimmed(kept[j]) && ',' !in kept[j] {
      var y := kept[j];
      assert y in t by {
        assert y in kept;
        RemoveAllMembers(t, text);
      }
      var i :| 0 <= i < |t| && t[i] == y;
      assert ',' !in parts[i];
    }
  }

  /** Proper pieces, possibly blank, joined with ", " read back without the blanks. */
  lemma MemoListOfKept(kept: seq<string>)
    requires forall j :: 0 <= j < |kept| ==> IsTrimmed(kept[j]) && ',' !in kept[j]
    ensures MemoList(Join(kept, ", ")) == NonEmpty(kept)
  {
    MemoListIsPieces(Join(kept, ", "));
    PiecesOfJoin(kept);
  }

  /** Removing `text` from the trimmed parts, then dropping blanks, is removing it from the pieces. */
  lemma PiecesWithout(memo: string, text: string)
    ensures NonEmpty(RemoveAll(TrimAll(Split(memo, ',')), text)) == RemoveAll(MemoList(memo), text)
  {
    var parts := Split(memo, ',');
    NonEmptyRemoveAll(TrimAll(parts), text);
    TrimNonEmptyAsFilter(parts);
    MemoListIsPieces(memo);
  }

  /** The heart of `handleDeleteChip`: the rejoined memo reads back as the old pieces without `text`. */
  lemma DeletedMemo(memo: string, text: string)
    ensures MemoList(Join(RemoveAll(TrimAll(Split(memo, ',')), text), ", ")) == RemoveAll(MemoList(memo), text)
  {
    var parts := Split(memo, ',');
    var kept := RemoveAll(TrimAll(parts), text);
    KeptProper(parts, text, kept);
    MemoListOfKept(kept);
    PiecesWithout(memo, text);
  }

  /** Deleting a chip removes exactly that text from the sub-item's pieces and keeps the rest in order. */
  lemma DeleteChipSpec(subs: seq<SubItem>, subItemId: string, text: string)
    requires DeleteChip(subs, subItemId, text).Some?
    ensures var r, k := DeleteChip(subs, subItemId, text).value, FindSubById(subs, subItemId);
      && |r| == |subs|
      && MemoList(r[k].memo) == RemoveAll(MemoList(subs[k].memo), text)
      && r[k] == subs[k].(memo := r[k].memo)
      && (forall i :: 0 <= i < |subs| && subs[i].id != subItemId ==> r[i] == subs[i])
  {
    DeletedMemo(subs[FindSubById(subs, subItemId)].memo, text);
  }

  /** The expanded chip grid: a selected memo is removed, another one appended. */
  function ToggleMemo(subs: seq<SubItem>, k: nat, memo: string): (r: seq<SubItem>)
    requires k < |subs|
    ensures |r| == |subs|
  {
    var selected := MemoList(subs[k].memo);
    var m := if memo in selected then RemoveAll(selected, memo) else selected + [memo];
    WithMemo(subs, subs[k].id, Join(m, ", "))
  }

  /**
   * Toggling reads back as the selected pieces without the memo when it is
   * selected, and as the selected pieces followed by the memo's own pieces
   * otherwise. A proper memo (non-empty, trimmed, no comma) flips its
   * membership. A memo with a comma is never among the pieces, so each click
   * appends its pieces again and none removes it. The line keeps its other
   * fields, and lines with another id are unchanged.
   */
  lemma {:induction false} ToggleMemoSpec(subs: seq<SubItem>, k: nat, memo: string)
    requires k < |subs|
    ensures var r, selected := ToggleMemo(subs, k, memo), MemoList(subs[k].memo);
      && MemoList(r[k].memo) == (if memo in selected then RemoveAll(selected, memo) else selected + MemoList(memo))
      && (memo != "" && IsTrimmed(memo) && ',' !in memo ==> (memo in MemoList(r[k].memo) <==> memo !in selected))
      && (',' in memo ==> memo !in selected && memo !in MemoList(r[k].memo)
                          && MemoList(r[k].memo) == selected + MemoList(memo))
      && r[k] == subs[k].(memo := r[k].memo)
      && (forall i :: 0 <= i < |subs| && subs[i].id != subs[k].id ==> r[i] == subs[i])
  {
    var selected := MemoList(subs[k].memo);
    if memo in selected {
      RemovedReadBack(selected, memo);
    } else {
      AppendedReadBack(selected, memo);
    }
  }

  /** A selected memo toggled off: the rejoined memo reads back without it, the rest in order. */
  lemma {:induction false} RemovedReadBack(selected: seq<string>, memo: string)
    requires forall j :: 0 <= j < |selected| ==> selected[j] != "" && IsTrimmed(selected[j]) && ',' !in selected[j]
    ensures MemoList(Join(RemoveAll(selected, memo), ", ")) == RemoveAll(selected, memo)
    ensures memo !in RemoveAll(selected, memo)
  {
    var m := RemoveAll(selected, memo);
    RemoveAllMembers(selected, memo);
    assert forall j :: 0 <= j < |m| ==> m[j] in selected;
    MemoListOfJoin(m);
  }

  /** An unselected memo toggled on: the rejoined memo reads back as the old pieces, then the memo's own. */
  lemma {:induction false} AppendedReadBack(selected: seq<string>, memo: string)
    requires forall j :: 0 <= j < |selected| ==> selected[j] != "" && IsTrimmed(selected[j]) && ',' !in selected[j]
    ensures MemoList(Join(selected + [memo], ", ")) == selected + MemoList(memo)
    ensures memo != "" && IsTrimmed(memo) && ',' !in memo ==> MemoList(memo) == [memo]
    ensures ',' in memo ==> memo !in selected + MemoList(memo)
  {
    MemoListIsPieces(Join(selected + [memo], ", "));
    PiecesOfJoinSnoc(selected, memo);
    NonEmptyOfNonEmpty(selected);
    MemoListIsPieces(memo);
    if memo != "" && IsTrimmed(memo) && ',' !in memo {
      MemoListOfJoin([memo]);
      assert Join([memo], ", ") == memo;
    }
    if ',' in memo {
      var all := selected + MemoList(memo);
      forall j | 0 <= j < |all| ensures all[j] != memo {
        assert ',' !in all[j];
      }
    }
  }

  // ===================================================================
  // Shared slot quantity buttons (OrderCard.tsx:281-283, 292)
  // ===================================================================

  /** Minus: `Math.max(1, (quantity || 1) - 1)` on the line with that id. */
  function QtyMinus(subs: seq<SubItem>, id: string): (r: seq<SubItem>)
    ensures |r| == |subs|
    ensures forall i :: 0 <= i < |subs| && subs[i].id != id ==> r[i] == subs[i]
    ensures forall i :: 0 <= i < |subs| && subs[i].id == id ==>
      r[i].quantity >= 1 && r[i].quantity <= Qty(subs[i]) && r[i] == subs[i].(quantity := r[i].quantity)
    ensures forall i :: 0 <= i < |subs| && subs[i].id == id && Qty(subs[i]) > 1 ==> r[i].quantity == Qty(subs[i]) - 1
  {
    seq(|subs|, i requires 0 <= i < |subs| =>
      if subs[i].id == id then subs[i].(quantity := if Qty(subs[i]) - 1 > 1 then Qty(subs[i]) - 1 else 1) else subs[i])
  }

  /** Plus: `(quantity || 1) + 1` on the line with that id. */
  function QtyPlus(subs: seq<SubItem>, id: string): (r: seq<SubItem>)
    ensures |r| == |subs|
    ensures forall i :: 0 <= i < |subs| && subs[i].id != id ==> r[i] == subs[i]
    ensures forall i :: 0 <= i < |subs| && subs[i].id == id ==>
      r[i] == subs[i].(quantity := Qty(subs[i]) + 1)
  {
    seq(|subs|, i requires 0 <= i < |subs| =>
      if subs[i].id == id then subs[i].(quantity := Qty(subs[i]) + 1) else subs[i])
  }

  /** Minus undoes plus, on lines whose quantity is set. */
  lemma PlusThenMinus(subs: seq<SubItem>, id: string)
    requires forall i :: 0 <= i < |subs| && subs[i].id == id ==> subs[i].quantity >= 1
    ensures QtyMinus(QtyPlus(subs, id), id) == subs
  {
    var r := QtyMinus(QtyPlus(subs, id), id);
    assert forall i :: 0 <= i < |subs| ==> r[i] == subs[i];
  }

  /** "비우기" and the undo button: the lines become empty. */
  function ClearLines(): (u: SlotUpdate)
    ensures u.subItems == Some([]) && u.avatar.None? && u.memo.None?
  {
    SlotUpdate(None, Some([]), None)
  }

  /** `handleResetCard`: no avatar and no lines. */
  function ResetCard(): (u: SlotUpdate)
    ensures u.subItems == Some([]) && u.avatar == Some("") && u.memo.None?
  {
    SlotUpdate(Some(""), Some([]), None)
  }

  // ===================================================================
  // Avatar re-roll (OrderCard.tsx:434-437)
  // ===================================================================

  /** The dice on a random avatar: a new draw from the configured category. */
  function Reroll(category: string, roll: nat): (u: SlotUpdate)
    requires roll < |CategoryEmojis(category)|
    ensures u.avatar.Some? && u.avatar.value in CategoryEmojis(category) && u.avatar.value != ""
    ensures u.subItems.None? && u.memo.None?
  {
    SlotUpdate(Some(RandomAvatar(category, roll)), None, None)
  }
}
