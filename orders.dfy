/**
 * The order tree shared by every part of the application: groups (tables)
 * hold order slots (one per person, plus the shared slot), and slots hold
 * sub-items (one ordered drink or dessert line each).
 */
module Orders {
  import opened Text

  datatype Option<T> = None | Some(value: T)

  datatype ItemType = Drink | Dessert
  datatype Temperature = Hot | Ice
  datatype Size = Tall | Grande | Venti

  /**
   * One ordered line. `quantity == 0` stands for a missing or zero quantity
   * (both falsy in the source, which reads them as 1); `memo == ""` for a
   * missing memo; `isSynced` is false when the flag is absent.
   */
  datatype SubItem = SubItem(
    id: string,
    itemName: string,
    itemType: ItemType,
    temperature: Option<Temperature>,
    size: Option<Size>,
    quantity: nat,
    memo: string,
    isSynced: bool)

  /** An order slot: a person, or the shared slot when its avatar is the shared marker. */
  datatype Slot = Slot(id: string, avatar: string, subItems: seq<SubItem>, memo: string)

  /** A table. */
  datatype Group = Group(id: string, name: string, items: seq<Slot>)

  /** A partial update of a slot's fields; `None` leaves the field as it is. */
  datatype SlotUpdate = SlotUpdate(avatar: Option<string>, subItems: Option<seq<SubItem>>, memo: Option<string>)

  /** The avatar that marks the shared slot of a group. */
  const SHARED_AVATAR: string := "😋"
  /** The name of a placeholder order ("undecided"). */
  const UNDECIDED: string := "미정"
  /** The name of the "not eating" order. */
  const NOT_EATING: string := "안 먹음"
  /** The avatar given to a person marked "not eating" who had none. */
  const DEFAULT_PERSON_AVATAR: string := "👤"

  predicate IsShared(s: Slot) {
    s.avatar == SHARED_AVATAR
  }

  /** `quantity || 1`: the quantity a sub-item counts for. */
  function Qty(si: SubItem): (q: nat)
    ensures q >= 1
    ensures si.quantity >= 1 ==> q == si.quantity
  {
    if si.quantity == 0 then 1 else si.quantity
  }

  /** The object spread `{ ...s, ...u }`: fields present in `u` win. */
  function ApplyUpdate(s: Slot, u: SlotUpdate): (r: Slot)
    ensures r.id == s.id
  {
    Slot(
      s.id,
      if u.avatar.Some? then u.avatar.value else s.avatar,
      if u.subItems.Some? then u.subItems.value else s.subItems,
      if u.memo.Some? then u.memo.value else s.memo)
  }

  predicate HasName(s: seq<SubItem>, name: string) {
    exists i :: 0 <= i < |s| && s[i].itemName == name
  }

  /** `findIndex(si => si.itemName === name)`: the first index with that name, or -1. */
  function FindByName(s: seq<SubItem>, name: string): (r: int)
    ensures -1 <= r < |s|
    ensures r >= 0 ==> s[r].itemName == name
    ensures r >= 0 ==> forall j :: 0 <= j < r ==> s[j].itemName != name
    ensures r == -1 <==> !HasName(s, name)
  {
    if |s| == 0 then -1
    else if s[0].itemName == name then 0
    else
      var k := FindByName(s[1..], name);
      assert HasName(s[1..], name) ==> HasName(s, name);
      assert HasName(s, name) ==> HasName(s[1..], name);
      if k == -1 then -1 else k + 1
  }

  /** `findIndex(si => si.id === id)` over sub-items. */
  function FindSubById(s: seq<SubItem>, id: string): (r: int)
    ensures -1 <= r < |s|
    ensures r >= 0 ==> s[r].id == id
    ensures r >= 0 ==> forall j :: 0 <= j < r ==> s[j].id != id
    ensures r == -1 <==> forall j :: 0 <= j < |s| ==> s[j].id != id
  {
    if |s| == 0 then -1
    else if s[0].id == id then 0
    else
      var k := FindSubById(s[1..], id);
      if k == -1 then -1 else k + 1
  }

  /**
   * `findIndex(item => item.id === id)` over slots: the same lookup as
   * `FindSubById`, kept separate because slots and sub-items are distinct
   * datatypes with no shared id field.
   */
  function FindSlotIndex(items: seq<Slot>, id: string): (r: int)
    ensures -1 <= r < |items|
    ensures r >= 0 ==> items[r].id == id
    ensures r >= 0 ==> forall j :: 0 <= j < r ==> items[j].id != id
    ensures r == -1 ==> forall j :: 0 <= j < |items| ==> items[j].id != id
  {
    if |items| == 0 then -1
    else if items[0].id == id then 0
    else
      var k := FindSlotIndex(items[1..], id);
      if k == -1 then -1 else k + 1
  }

  /** `groups.flatMap(g => g.items)`. */
  function AllSlots(gs: seq<Group>): seq<Slot> {
    if |gs| == 0 then [] else AllSlots(gs[..|gs| - 1]) + gs[|gs| - 1].items
  }

  /** `groups.flatMap(g => g.items).find(i => i.id === id)`. */
  function FindSlot(gs: seq<Group>, id: string): (r: Option<Slot>)
    ensures r.Some? ==> r.value.id == id
    ensures r.None? ==> forall s :: s in AllSlots(gs) ==> s.id != id
  {
    var slots := AllSlots(gs);
    var k := FindSlotIndex(slots, id);
    if k >= 0 then Some(slots[k]) else None
  }

  /** The sub-item with its `isSynced` flag set, as `{ ...si, isSynced: true }`. */
  function Tagged(si: SubItem): SubItem {
    si.(isSynced := true)
  }

  /** `subItems.map(si => ({ ...si, isSynced: true }))`. */
  function TagAll(s: seq<SubItem>): (r: seq<SubItem>)
    ensures |r| == |s|
    ensures forall i :: 0 <= i < |s| ==> r[i] == Tagged(s[i])
  {
    seq(|s|, i requires 0 <= i < |s| => Tagged(s[i]))
  }

  /** `groups.map(g => ({ ...g, items: g.items.map(f) }))`. */
  function MapSlots(gs: seq<Group>, f: Slot -> Slot): (r: seq<Group>)
    ensures |r| == |gs|
    ensures forall k :: 0 <= k < |gs| ==>
      r[k].id == gs[k].id && r[k].name == gs[k].name && |r[k].items| == |gs[k].items|
    ensures forall k, j :: 0 <= k < |gs| && 0 <= j < |gs[k].items| ==> r[k].items[j] == f(gs[k].items[j])
  {
    seq(|gs|, k requires 0 <= k < |gs| =>
      gs[k].(items := seq(|gs[k].items|, j requires 0 <= j < |gs[k].items| => f(gs[k].items[j]))))
  }

  /** A name containing "스무디" (smoothie) or "아이스" (iced) defaults to ICE; anything else to HOT. */
  function DefaultTemperature(name: string): (t: Temperature)
    ensures t == Ice <==> Contains(name, "스무디") || Contains(name, "아이스")
  {
    if Contains(name, "스무디") || Contains(name, "아이스") then Ice else Hot
  }
}
