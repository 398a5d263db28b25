/**
 * The quick actions of one table (components/OrderGroupSection.tsx). Each
 * action walks the table's person slots and issues one `updateOrder` call
 * per slot; the model returns those calls, in order, as a list.
 */
module GroupSection {
  import opened Orders
  import opened Settings

  /** `individualItems`: the person slots, in order. */
  function Individuals(items: seq<Slot>): (r: seq<Slot>)
    ensures |r| <= |items|
  {
    if |items| == 0 then []
    else
      var last := items[|items| - 1];
      Individuals(items[..|items| - 1]) + (if IsShared(last) then [] else [last])
  }

  /** Exactly the slots that are not shared are kept. */
  lemma {:induction false} IndividualsMembers(items: seq<Slot>)
    ensures forall s :: s in Individuals(items) <==> s in items && !IsShared(s)
  {
    if |items| > 0 {
      IndividualsMembers(items[..|items| - 1]);
      assert items == items[..|items| - 1] + [items[|items| - 1]];
    }
  }

  /** The filter keeps the table's order: it distributes over concatenation. */
  lemma {:induction false} IndividualsAppend(a: seq<Slot>, b: seq<Slot>)
    ensures Individuals(a + b) == Individuals(a) + Individuals(b)
  {
    if |b| == 0 {
      assert a + b == a;
    } else {
      var ab, init, last := a + b, b[..|b| - 1], b[|b| - 1];
      var tail := if IsShared(last) then [] else [last];
      assert ab[..|ab| - 1] == a + init && ab[|ab| - 1] == last;
      calc {
        Individuals(ab);
        Individuals(a + init) + tail;
      == { IndividualsAppend(a, init); }
        Individuals(a) + Individuals(init) + tail;
        Individuals(a) + (Individuals(init) + tail);
        Individuals(a) + Individuals(b);
      }
    }
  }

  /** `sharedItem`: the first shared slot, if any. */
  function SharedItem(items: seq<Slot>): (r: Option<Slot>)
    ensures r.Some? ==> r.value in items && IsShared(r.value)
    ensures r.None? <==> forall s :: s in items ==> !IsShared(s)
    ensures r.Some? ==> exists k :: 0 <= k < |items| && items[k] == r.value &&
                                (forall j :: 0 <= j < k ==> !IsShared(items[j]))
  {
    if |items| == 0 then None
    else if IsShared(items[0]) then Some(items[0])
    else
      var r := SharedItem(items[1..]);
      assert forall s :: s in items[1..] ==> s in items;
      assert forall s :: s in items ==> s == items[0] || s in items[1..];
      if r.Some? then
        var k :| 0 <= k < |items[1..]| && items[1..][k] == r.value &&
          forall j :: 0 <= j < k ==> !IsShared(items[1..][j]);
        assert items[k + 1] == r.value;
        r
      else r
  }

  /** One `updateOrder(id, updates)` call. */
  datatype Call = Call(id: string, update: SlotUpdate)

  /** The calls address the person slots one by one, in order. */
  predicate Targets(calls: seq<Call>, items: seq<Slot>) {
    var ind := Individuals(items);
    |calls| == |ind| && forall k :: 0 <= k < |calls| ==> calls[k].id == ind[k].id
  }

  /** One draw per person slot, each an index into the category's list. */
  predicate RollsFit(rolls: seq<nat>, items: seq<Slot>, category: string) {
    |rolls| >= |Individuals(items)| && forall k :: 0 <= k < |rolls| ==> rolls[k] < |CategoryEmojis(category)|
  }

  const TABLE_EMOJIS: seq<string> := ["◰", "◱", "◳", "◲"]
  const AMERICANO: string := "아메리카노"

  /** "이모지 랜덤": a random avatar from the category for every person slot. */
  function AllRandom(items: seq<Slot>, category: string, rolls: seq<nat>): (r: seq<Call>)
    requires RollsFit(rolls, items, category)
    ensures Targets(r, items)
    ensures forall k :: 0 <= k < |r| ==>
      && r[k].update.avatar.Some? && r[k].update.avatar.value in CategoryEmojis(category)
      && r[k].update.subItems.None? && r[k].update.memo.None?
  {
    var ind := Individuals(items);
    seq(|ind|, k requires 0 <= k < |ind| => Call(ind[k].id, SlotUpdate(Some(RandomAvatar(category, rolls[k])), None, None)))
  }

  /** The seat action: the `k`-th person slot gets `TABLE_EMOJIS[k % 4]`. */
  function SeatEmojis(items: seq<Slot>): (r: seq<Call>)
    ensures Targets(r, items)
    ensures forall k :: 0 <= k < |r| ==>
      r[k].update == SlotUpdate(Some(TABLE_EMOJIS[k % 4]), None, None)
  {
    var ind := Individuals(items);
    seq(|ind|, k requires 0 <= k < |ind| => Call(ind[k].id, SlotUpdate(Some(TABLE_EMOJIS[k % 4]), None, None)))
  }

  /** A single quantity-1 Tall Americano. */
  function Americano(id: string, t: Temperature): (si: SubItem)
    ensures si.itemName == AMERICANO && si.itemType == Drink && si.temperature == Some(t)
    ensures si.size == Some(Tall) && si.quantity == 1 && si.memo == "" && !si.isSynced
  {
    SubItem(id, AMERICANO, Drink, Some(t), Some(Tall), 1, "", false)
  }

  /** `item.avatar || emojis[random]`. */
  function KeepOrDraw(avatar: string, category: string, roll: nat): (r: string)
    requires roll < |CategoryEmojis(category)|
    ensures r != ""
    ensures avatar != "" ==> r == avatar
    ensures avatar == "" ==> r in CategoryEmojis(category)
  {
    if avatar != "" then avatar else RandomAvatar(category, roll)
  }

  /** "모두 아메리카노": a HOT Americano each; an empty avatar is drawn, a set one kept. */
  function AllAmericano(items: seq<Slot>, category: string, rolls: seq<nat>, ids: seq<string>): (r: seq<Call>)
    requires RollsFit(rolls, items, category) && |ids| >= |Individuals(items)|
    ensures Targets(r, items)
    ensures forall k :: 0 <= k < |r| ==>
      r[k].update == SlotUpdate(Some(KeepOrDraw(Individuals(items)[k].avatar, category, rolls[k])),
                                Some([Americano(ids[k], Hot)]), None)
  {
    var ind := Individuals(items);
    seq(|ind|, k requires 0 <= k < |ind| =>
      Call(ind[k].id, SlotUpdate(Some(KeepOrDraw(ind[k].avatar, category, rolls[k])), Some([Americano(ids[k], Hot)]), None)))
  }

  /** `Math.ceil(n / 2)`. */
  function Half(n: nat): (h: nat)
    ensures h + h == n || h + h == n + 1
  {
    (n + 1) / 2
  }

  /** "반반": the first half (rounded up) HOT, the rest ICE. */
  function HalfHalf(items: seq<Slot>, category: string, rolls: seq<nat>, ids: seq<string>): (r: seq<Call>)
    requires RollsFit(rolls, items, category) && |ids| >= |Individuals(items)|
    ensures Targets(r, items)
    ensures forall k :: 0 <= k < |r| ==>
      r[k].update == SlotUpdate(Some(KeepOrDraw(Individuals(items)[k].avatar, category, rolls[k])),
                                Some([Americano(ids[k], if k < Half(|r|) then Hot else Ice)]), None)
  {
    var ind := Individuals(items);
    var half := Half(|ind|);
    seq(|ind|, k requires 0 <= k < |ind| =>
      Call(ind[k].id, SlotUpdate(Some(KeepOrDraw(ind[k].avatar, category, rolls[k])),
                                 Some([Americano(ids[k], if k < half then Hot else Ice)]), None)))
  }

  /** The temperature of a call's single line, if it sets lines. */
  function LineTemp(c: Call): Option<Temperature> {
    if c.update.subItems.Some? && |c.update.subItems.value| > 0 then c.update.subItems.value[0].temperature else None
  }

  function CountTemp(calls: seq<Call>, t: Temperature): nat {
    if |calls| == 0 then 0
    else CountTemp(calls[..|calls| - 1], t) + (if LineTemp(calls[|calls| - 1]) == Some(t) then 1 else 0)
  }

  lemma {:induction false} CountPrefix(calls: seq<Call>, h: nat, i: nat)
    requires i <= |calls|
    requires forall k :: 0 <= k < |calls| ==> LineTemp(calls[k]) == Some(if k < h then Hot else Ice)
    ensures CountTemp(calls[..i], Hot) == if i < h then i else h
    ensures CountTemp(calls[..i], Ice) == if i < h then 0 else i - h
  {
    if i > 0 {
      CountPrefix(calls, h, i - 1);
      assert calls[..i][..i - 1] == calls[..i - 1];
    }
  }

  /** Half/half pours ceil(n/2) HOT and floor(n/2) ICE Americanos. */
  lemma HalfHalfCounts(items: seq<Slot>, category: string, rolls: seq<nat>, ids: seq<string>)
    requires RollsFit(rolls, items, category) && |ids| >= |Individuals(items)|
    ensures var r, n := HalfHalf(items, category, rolls, ids), |Individuals(items)|;
      CountTemp(r, Hot) == (n + 1) / 2 && CountTemp(r, Ice) == n / 2
  {
    var r := HalfHalf(items, category, rolls, ids);
    CountPrefix(r, Half(|r|), |r|);
    assert r[..|r|] == r;
  }

  /**
   * With distinct slot ids, no quick action ever addresses the shared
   * slot: every call goes to a person slot of the table.
   */
  lemma NeverTargetsShared(calls: seq<Call>, items: seq<Slot>)
    requires Targets(calls, items)
    requires forall i, j :: 0 <= i < j < |items| ==> items[i].id != items[j].id
    ensures forall k, j :: 0 <= k < |calls| && 0 <= j < |items| && IsShared(items[j]) ==> calls[k].id != items[j].id
  {
    var ind := Individuals(items);
    IndividualsMembers(items);
    forall k, j | 0 <= k < |calls| && 0 <= j < |items| && IsShared(items[j])
      ensures calls[k].id != items[j].id
    {
      assert ind[k] in ind;
      var i :| 0 <= i < |items| && items[i] == ind[k];
      assert i != j;
    }
  }
}
