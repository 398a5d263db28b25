/**
 * The order summary of components/OrderSummary.tsx: headcounts over the
 * person slots, and the aggregation of every sub-item into rows keyed by
 * type, temperature, optional size and trimmed name, sorted for display.
 */
module Summary {
  import opened Orders
  import opened Text

  // ===================================================================
  // Headcounts (OrderSummary.tsx:100-122)
  // ===================================================================

  /** A person slot with the table it sits at. */
  datatype Person = Person(slot: Slot, groupId: string, groupName: string)

  function PersonsIn(g: Group, items: seq<Slot>): seq<Person> {
    if |items| == 0 then []
    else
      var p := items[|items| - 1];
      PersonsIn(g, items[..|items| - 1]) + (if IsShared(p) then [] else [Person(p, g.id, g.name)])
  }

  /** `personsWithGroup`: every slot but the shared ones, in table order. */
  function Persons(gs: seq<Group>): seq<Person> {
    if |gs| == 0 then [] else Persons(gs[..|gs| - 1]) + PersonsIn(gs[|gs| - 1], gs[|gs| - 1].items)
  }

  /** The reference: the slots of the tree, shared ones filtered out. */
  function NonShared(slots: seq<Slot>): seq<Slot> {
    if |slots| == 0 then []
    else NonShared(slots[..|slots| - 1]) + (if IsShared(slots[|slots| - 1]) then [] else [slots[|slots| - 1]])
  }

  function SlotsOf(ps: seq<Person>): (r: seq<Slot>)
    ensures |r| == |ps|
  {
    seq(|ps|, i requires 0 <= i < |ps| => ps[i].slot)
  }

  lemma {:induction false} NonSharedAppend(a: seq<Slot>, b: seq<Slot>)
    ensures NonShared(a + b) == NonShared(a) + NonShared(b)
  {
    if |b| == 0 {
      assert a + b == a;
    } else {
      NonSharedAppend(a, b[..|b| - 1]);
      assert (a + b)[..|a + b| - 1] == a + b[..|b| - 1];
    }
  }

  lemma {:induction false} PersonsInSlots(g: Group, items: seq<Slot>)
    ensures SlotsOf(PersonsIn(g, items)) == NonShared(items)
    ensures forall i :: 0 <= i < |PersonsIn(g, items)| ==> PersonsIn(g, items)[i].groupId == g.id
  {
    if |items| > 0 {
      PersonsInSlots(g, items[..|items| - 1]);
    }
  }

  /** The persons are exactly the non-shared slots of the tree, in order. */
  lemma {:induction false} PersonsSpec(gs: seq<Group>)
    ensures SlotsOf(Persons(gs)) == NonShared(AllSlots(gs))
    ensures forall i :: 0 <= i < |Persons(gs)| ==> !IsShared(Persons(gs)[i].slot)
  {
    if |gs| > 0 {
      var prev := gs[..|gs| - 1];
      var g := gs[|gs| - 1];
      PersonsSpec(prev);
      PersonsInSlots(g, g.items);
      NonSharedAppend(AllSlots(prev), g.items);
      assert SlotsOf(Persons(gs)) == SlotsOf(Persons(prev)) + SlotsOf(PersonsIn(g, g.items));
      NonSharedMembers(AllSlots(gs));
      assert forall i :: 0 <= i < |Persons(gs)| ==> Persons(gs)[i].slot == SlotsOf(Persons(gs))[i];
    }
  }

  lemma {:induction false} NonSharedMembers(slots: seq<Slot>)
    ensures forall i :: 0 <= i < |NonShared(slots)| ==> !IsShared(NonShared(slots)[i])
  {
    if |slots| > 0 {
      NonSharedMembers(slots[..|slots| - 1]);
    }
  }

  /** No orders yet, or only undecided or blank names. */
  predicate Undecided(p: Slot) {
    |p.subItems| == 0 || forall i :: 0 <= i < |p.subItems| ==> p.subItems[i].itemName in {UNDECIDED, ""}
  }

  /** An avatar, not shared, and exactly the one "not eating" line. */
  predicate NotEating(p: Slot) {
    p.avatar != "" && !IsShared(p) && |p.subItems| == 1 && p.subItems[0].itemName == NOT_EATING
  }

  function CountUndecided(ps: seq<Person>): (n: nat)
    ensures n <= |ps|
  {
    if |ps| == 0 then 0 else CountUndecided(ps[..|ps| - 1]) + (if Undecided(ps[|ps| - 1].slot) then 1 else 0)
  }

  function CountNotEating(ps: seq<Person>): (n: nat)
    ensures n <= |ps|
  {
    if |ps| == 0 then 0 else CountNotEating(ps[..|ps| - 1]) + (if NotEating(ps[|ps| - 1].slot) then 1 else 0)
  }

  /** The reference count of people who ordered something to eat or drink. */
  function CountEating(ps: seq<Person>): nat {
    if |ps| == 0 then 0
    else
      var p := ps[|ps| - 1].slot;
      CountEating(ps[..|ps| - 1]) + (if !Undecided(p) && !NotEating(p) then 1 else 0)
  }

  datatype Headcount = Headcount(total: nat, undecided: nat, notEating: nat, decided: int, eating: int, allDecided: bool)

  /** The header's counts: decided = total - undecided, eating = decided - not eating. */
  function Headcounts(gs: seq<Group>): Headcount {
    var ps := Persons(gs);
    var total, undecided, notEating := |ps|, CountUndecided(ps), CountNotEating(ps);
    Headcount(total, undecided, notEating, total - undecided, total - undecided - notEating,
              total > 0 && undecided == 0)
  }

  /** Nobody "not eating" is undecided, so the three groups split the people. */
  lemma {:induction false} CountsSplit(ps: seq<Person>)
    ensures CountUndecided(ps) + CountNotEating(ps) + CountEating(ps) == |ps|
  {
    if |ps| > 0 {
      CountsSplit(ps[..|ps| - 1]);
      var p := ps[|ps| - 1].slot;
      if NotEating(p) {
        assert p.subItems[0].itemName !in {UNDECIDED, ""};
      }
    }
  }

  /**
   * The header's arithmetic never goes negative: the eating count is
   * exactly the number of people who are neither undecided nor "not eating".
   */
  lemma HeadcountsSpec(gs: seq<Group>)
    ensures var h := Headcounts(gs);
      && h.total == |NonShared(AllSlots(gs))|
      && h.eating == CountEating(Persons(gs)) && h.eating >= 0
      && h.decided == h.eating + h.notEating
      && (h.allDecided <==> h.total > 0 && forall i :: 0 <= i < |Persons(gs)| ==> !Undecided(Persons(gs)[i].slot))
  {
    PersonsSpec(gs);
    CountsSplit(Persons(gs));
    NoUndecided(Persons(gs));
  }

  lemma {:induction false} NoUndecided(ps: seq<Person>)
    ensures CountUndecided(ps) == 0 <==> forall i :: 0 <= i < |ps| ==> !Undecided(ps[i].slot)
  {
    if |ps| > 0 {
      NoUndecided(ps[..|ps| - 1]);
      assert forall i :: 0 <= i < |ps| - 1 ==> ps[..|ps| - 1][i] == ps[i];
    }
  }

  // ===================================================================
  // Rows (OrderSummary.tsx:124-176)
  // ===================================================================

  datatype MemoEntry = MemoEntry(memos: seq<string>, avatar: string, personId: string, groupId: string)

  datatype Row = Row(
    key: string,
    itemType: ItemType,
    itemName: string,
    temperature: Option<Temperature>,
    size: Option<Size>,
    count: nat,
    memoCounts: map<string, nat>,
    individualMemos: seq<MemoEntry>)

  /** A slot with the id of its table, as the aggregation walks them. */
  datatype Owner = Owner(slot: Slot, groupId: string)

  /** `groups.flatMap(g => g.items.map(p => ({ ...p, groupId: g.id })))`: shared slots included. */
  function Owners(gs: seq<Group>): seq<Owner> {
    if |gs| == 0 then []
    else
      var g := gs[|gs| - 1];
      Owners(gs[..|gs| - 1]) + seq(|g.items|, j requires 0 <= j < |g.items| => Owner(g.items[j], g.id))
  }

  /** Empty names, "미정" and "안 먹음" are skipped. */
  predicate Contributes(si: SubItem) {
    si.itemName != "" && si.itemName != UNDECIDED && si.itemName != NOT_EATING
  }

  function TempText(t: Option<Temperature>): string {
    match t
    case Some(Hot) => "HOT"
    case Some(Ice) => "ICE"
    case None => "undefined"
  }

  function SizeText(s: Size): string {
    match s
    case Tall => "Tall"
    case Grande => "Grande"
    case Venti => "Venti"
  }

  /** `size || 'Tall'` when sizes are shown and the line is a drink. */
  function SizeTag(si: SubItem, showSize: bool): Option<Size> {
    if showSize && si.itemType == Drink then Some(if si.size.Some? then si.size.value else Tall) else None
  }

  /** The size tag as the key writes it: the size, or nothing. */
  function TagText(tag: Option<Size>): string {
    if tag.Some? then SizeText(tag.value) else ""
  }

  /** `DRINK-${temperature}-${sizeTag}-${name}`. */
  function DrinkKey(t: Option<Temperature>, tag: Option<Size>, name: string): string {
    "DRINK-" + (TempText(t) + ("-" + (TagText(tag) + ("-" + name))))
  }

  /** The row key string: `DRINK-temperature-sizeTag-name` or `DESSERT-name`. */
  function KeyOf(si: SubItem, showSize: bool): string {
    if si.itemType == Drink then DrinkKey(si.temperature, SizeTag(si, showSize), Trim(si.itemName))
    else "DESSERT-" + Trim(si.itemName)
  }

  /** When two lines belong in one row. */
  predicate SameRow(a: SubItem, b: SubItem, showSize: bool) {
    && a.itemType == b.itemType
    && Trim(a.itemName) == Trim(b.itemName)
    && (a.itemType == Drink ==> a.temperature == b.temperature && SizeTag(a, showSize) == SizeTag(b, showSize))
  }

  lemma StripPrefix(p: string, x: string, y: string)
    requires p + x == p + y
    ensures x == y
  {
    assert x == (p + x)[|p|..];
    assert y == (p + y)[|p|..];
  }

  lemma StripTemp(t1: Option<Temperature>, t2: Option<Temperature>, x: string, y: string)
    requires |x| > 0 && |y| > 0
    requires TempText(t1) + x == TempText(t2) + y
    ensures t1 == t2 && x == y
  {
    assert (TempText(t1) + x)[0] == TempText(t1)[0];
    assert (TempText(t2) + y)[0] == TempText(t2)[0];
    if t1 == t2 {
      StripPrefix(TempText(t1), x, y);
    }
  }

  /** The first character after the temperature's dash names the size tag. */
  lemma StripTag(s1: Option<Size>, s2: Option<Size>, x: string, y: string)
    requires TagText(s1) + ("-" + x) == TagText(s2) + ("-" + y)
    ensures s1 == s2 && x == y
  {
    var a, b := TagText(s1) + ("-" + x), TagText(s2) + ("-" + y);
    assert a[0] == (if s1.Some? then TagText(s1)[0] else '-');
    assert b[0] == (if s2.Some? then TagText(s2)[0] else '-');
    StripPrefix(TagText(s1), "-" + x, "-" + y);
    StripPrefix("-", x, y);
  }

  /** A drink key never equals a dessert key. */
  lemma KindsDiffer(t: Option<Temperature>, tag: Option<Size>, n: string, m: string)
    ensures DrinkKey(t, tag, n) != "DESSERT-" + m
  {
    assert DrinkKey(t, tag, n)[1] == 'R';
    assert ("DESSERT-" + m)[1] == 'E';
  }

  /** The drink key's fields can be read back: the key string is injective. */
  lemma DrinkKeyInjective(t1: Option<Temperature>, s1: Option<Size>, n1: string,
                          t2: Option<Temperature>, s2: Option<Size>, n2: string)
    requires DrinkKey(t1, s1, n1) == DrinkKey(t2, s2, n2)
    ensures t1 == t2 && s1 == s2 && n1 == n2
  {
    var r1, r2 := "-" + (TagText(s1) + ("-" + n1)), "-" + (TagText(s2) + ("-" + n2));
    StripPrefix("DRINK-", TempText(t1) + r1, TempText(t2) + r2);
    StripTemp(t1, t2, r1, r2);
    StripPrefix("-", TagText(s1) + ("-" + n1), TagText(s2) + ("-" + n2));
    StripTag(s1, s2, n1, n2);
  }

  /**
   * Two contributing lines share a key exactly when they have the same type
   * and trimmed name and, for drinks, the same temperature and size tag.
   */
  lemma KeyOfSpec(a: SubItem, b: SubItem, showSize: bool)
    ensures KeyOf(a, showSize) == KeyOf(b, showSize) <==> SameRow(a, b, showSize)
  {
    var ka, kb := KeyOf(a, showSize), KeyOf(b, showSize);
    if a.itemType == Drink && b.itemType == Dessert {
      KindsDiffer(a.temperature, SizeTag(a, showSize), Trim(a.itemName), Trim(b.itemName));
    } else if a.itemType == Dessert && b.itemType == Drink {
      KindsDiffer(b.temperature, SizeTag(b, showSize), Trim(b.itemName), Trim(a.itemName));
    } else if ka == kb {
      if a.itemType == Drink {
        var ta, tb := SizeTag(a, showSize), SizeTag(b, showSize);
        DrinkKeyInjective(a.temperature, ta, Trim(a.itemName), b.temperature, tb, Trim(b.itemName));
      } else {
        StripPrefix("DESSERT-", Trim(a.itemName), Trim(b.itemName));
      }
    }
  }

  /** `si.memo ? si.memo.split(',').map(trim).filter(Boolean) : []`. */
  function MemosOf(si: SubItem): seq<string> {
    if si.memo == "" then [] else Pieces(si.memo)
  }

  function EntryOf(o: Owner, memos: seq<string>): MemoEntry {
    MemoEntry(memos, if o.slot.avatar == "" then DEFAULT_PERSON_AVATAR else o.slot.avatar, o.slot.id, o.groupId)
  }

  /** `Array(qty).fill(entry)`. */
  function Copies(e: MemoEntry, n: nat): (r: seq<MemoEntry>)
    ensures |r| == n && forall i :: 0 <= i < n ==> r[i] == e
  {
    seq(n, i requires 0 <= i < n => e)
  }

  /** An existing row's `memoCounts[m] = (memoCounts[m] || 0) + qty`, memo by memo. */
  function AddCounts(m: map<string, nat>, memos: seq<string>, qty: nat): map<string, nat> {
    if |memos| == 0 then m
    else
      var m' := AddCounts(m, memos[..|memos| - 1], qty);
      var x := memos[|memos| - 1];
      m'[x := (if x in m' then m'[x] else 0) + qty]
  }

  /** A new row's `memoCounts[m] = qty`, memo by memo. */
  function NewCounts(memos: seq<string>, qty: nat): map<string, nat> {
    map x | x in memos :: qty
  }

  function NewRow(si: SubItem, showSize: bool, o: Owner): Row {
    var qty, memos := Qty(si), MemosOf(si);
    Row(KeyOf(si, showSize), si.itemType, Trim(si.itemName), si.temperature, SizeTag(si, showSize), qty,
        NewCounts(memos, qty), if |memos| > 0 then Copies(EntryOf(o, memos), qty) else [])
  }

  function Bumped(r: Row, si: SubItem, o: Owner): Row {
    var qty, memos := Qty(si), MemosOf(si);
    r.(count := r.count + qty,
       memoCounts := AddCounts(r.memoCounts, memos, qty),
       individualMemos := r.individualMemos + (if |memos| > 0 then Copies(EntryOf(o, memos), qty) else []))
  }

  /** The index of the row with that key, or -1. */
  function FindKey(rows: seq<Row>, key: string): (r: int)
    ensures -1 <= r < |rows|
    ensures r >= 0 ==> rows[r].key == key
    ensures r == -1 ==> forall i :: 0 <= i < |rows| ==> rows[i].key != key
  {
    if |rows| == 0 then -1
    else if rows[0].key == key then 0
    else
      var k := FindKey(rows[1..], key);
      if k == -1 then -1 else k + 1
  }

  /** One sub-item of one slot: skip, add to its row, or open a new row. */
  function AddLine(rows: seq<Row>, o: Owner, si: SubItem, showSize: bool): seq<Row> {
    if !Contributes(si) then rows
    else
      var k := FindKey(rows, KeyOf(si, showSize));
      if k >= 0 then rows[k := Bumped(rows[k], si, o)] else rows + [NewRow(si, showSize, o)]
  }

  function AddSubs(rows: seq<Row>, o: Owner, subs: seq<SubItem>, showSize: bool): seq<Row> {
    if |subs| == 0 then rows
    else AddLine(AddSubs(rows, o, subs[..|subs| - 1], showSize), o, subs[|subs| - 1], showSize)
  }

  function AddOwners(rows: seq<Row>, os: seq<Owner>, showSize: bool): seq<Row> {
    if |os| == 0 then rows
    else
      var o := os[|os| - 1];
      AddSubs(AddOwners(rows, os[..|os| - 1], showSize), o, o.slot.subItems, showSize)
  }

  /** The rows in the order the `Map` holds them: first appearance of each key. */
  function Rows(gs: seq<Group>, showSize: bool): seq<Row> {
    AddOwners([], Owners(gs), showSize)
  }

  /** The callback for one sub-item: the existing row is edited field by field. */
  method TallyLine(rows0: seq<Row>, person: Owner, si: SubItem, showSize: bool) returns (rows: seq<Row>)
    ensures rows == AddLine(rows0, person, si, showSize)
  {
    rows := rows0;
    if Contributes(si) {
      var k := FindKey(rows, KeyOf(si, showSize));
      if k >= 0 {
        rows := rows[k := Bumped(rows[k], si, person)];
      } else {
        rows := rows + [NewRow(si, showSize, person)];
      }
    }
  }

  /** The inner `forEach` over one slot's sub-items. */
  method CollectSlot(rows0: seq<Row>, person: Owner, showSize: bool) returns (rows: seq<Row>)
    ensures rows == AddSubs(rows0, person, person.slot.subItems, showSize)
  {
    var subs := person.slot.subItems;
    rows := rows0;
    for j := 0 to |subs|
      invariant rows == AddSubs(rows0, person, subs[..j], showSize)
    {
      assert subs[..j + 1][..j] == subs[..j];
      rows := TallyLine(rows, person, subs[j], showSize);
    }
    assert subs[..|subs|] == subs;
  }

  /** The outer `forEach` over every slot of every table. */
  method CollectRows(gs: seq<Group>, showSize: bool) returns (rows: seq<Row>)
    ensures rows == Rows(gs, showSize)
  {
    var os := Owners(gs);
    rows := [];
    for i := 0 to |os|
      invariant rows == AddOwners([], os[..i], showSize)
    {
      assert os[..i + 1][..i] == os[..i];
      rows := CollectSlot(rows, os[i], showSize);
    }
    assert os[..|os|] == os;
  }

  // ----------------------------------------------- what the rows add up to

  /** The sum of `f` over the rows. */
  function SumOf(rows: seq<Row>, f: Row -> nat): nat {
    if |rows| == 0 then 0 else f(rows[0]) + SumOf(rows[1..], f)
  }

  function CountAt(key: string): Row -> nat {
    (r: Row) => if r.key == key then r.count else 0
  }

  function MemosAt(key: string): Row -> nat {
    (r: Row) => if r.key == key then |r.individualMemos| else 0
  }

  function AllCounts(): Row -> nat {
    (r: Row) => r.count
  }

  /** `totalItemCount`: the sum of all row counts. */
  function TotalCount(rows: seq<Row>): nat {
    SumOf(rows, AllCounts())
  }

  lemma {:induction false} SumAppend(a: seq<Row>, b: seq<Row>, f: Row -> nat)
    ensures SumOf(a + b, f) == SumOf(a, f) + SumOf(b, f)
  {
    if |a| == 0 {
      assert a + b == b;
    } else {
      SumAppend(a[1..], b, f);
      assert (a + b)[1..] == a[1..] + b;
    }
  }

  lemma {:induction false} SumUpdate(rows: seq<Row>, k: nat, r: Row, f: Row -> nat)
    requires k < |rows|
    ensures SumOf(rows[k := r], f) + f(rows[k]) == SumOf(rows, f) + f(r)
  {
    if k > 0 {
      SumUpdate(rows[1..], k - 1, r, f);
      assert rows[k := r][1..] == rows[1..][k - 1 := r];
    } else {
      assert rows[k := r][1..] == rows[1..];
    }
  }

  /** No two rows share a key. */
  predicate DistinctKeys(rows: seq<Row>) {
    forall i, j :: 0 <= i < j < |rows| ==> rows[i].key != rows[j].key
  }

  /** The per-key sums the sub-items call for. */
  function QtyOf(si: SubItem, key: string, showSize: bool): nat {
    if Contributes(si) && KeyOf(si, showSize) == key then Qty(si) else 0
  }

  function MemoQtyOf(si: SubItem, key: string, showSize: bool): nat {
    if Contributes(si) && KeyOf(si, showSize) == key && |MemosOf(si)| > 0 then Qty(si) else 0
  }

  function TotalQtyOf(si: SubItem): nat {
    if Contributes(si) then Qty(si) else 0
  }

  function SubsQty(subs: seq<SubItem>, key: string, showSize: bool): nat {
    if |subs| == 0 then 0 else SubsQty(subs[..|subs| - 1], key, showSize) + QtyOf(subs[|subs| - 1], key, showSize)
  }

  function SubsMemoQty(subs: seq<SubItem>, key: string, showSize: bool): nat {
    if |subs| == 0 then 0 else SubsMemoQty(subs[..|subs| - 1], key, showSize) + MemoQtyOf(subs[|subs| - 1], key, showSize)
  }

  function SubsTotal(subs: seq<SubItem>): nat {
    if |subs| == 0 then 0 else SubsTotal(subs[..|subs| - 1]) + TotalQtyOf(subs[|subs| - 1])
  }

  function OwnersQty(os: seq<Owner>, key: string, showSize: bool): nat {
    if |os| == 0 then 0 else OwnersQty(os[..|os| - 1], key, showSize) + SubsQty(os[|os| - 1].slot.subItems, key, showSize)
  }

  function OwnersMemoQty(os: seq<Owner>, key: string, showSize: bool): nat {
    if |os| == 0 then 0 else OwnersMemoQty(os[..|os| - 1], key, showSize) + SubsMemoQty(os[|os| - 1].slot.subItems, key, showSize)
  }

  function OwnersTotal(os: seq<Owner>): nat {
    if |os| == 0 then 0 else OwnersTotal(os[..|os| - 1]) + SubsTotal(os[|os| - 1].slot.subItems)
  }

  /** The rows' running sums, stated once for a step, a slot and a walk. */
  predicate Tallies(before: seq<Row>, after: seq<Row>, key: string, qty: nat, memoQty: nat, total: nat) {
    && SumOf(after, CountAt(key)) == SumOf(before, CountAt(key)) + qty
    && SumOf(after, MemosAt(key)) == SumOf(before, MemosAt(key)) + memoQty
    && TotalCount(after) == TotalCount(before) + total
  }

  lemma AddLineStep(rows: seq<Row>, o: Owner, si: SubItem, showSize: bool, key: string)
    requires DistinctKeys(rows)
    ensures DistinctKeys(AddLine(rows, o, si, showSize))
    ensures Tallies(rows, AddLine(rows, o, si, showSize), key,
                    QtyOf(si, key, showSize), MemoQtyOf(si, key, showSize), TotalQtyOf(si))
  {
    if Contributes(si) {
      var k := FindKey(rows, KeyOf(si, showSize));
      if k >= 0 {
        AddLineBump(rows, k, o, si, showSize, key);
      } else {
        AddLineNew(rows, o, si, showSize, key);
      }
    }
  }

  /** A line whose key has a row: that row is bumped in place. */
  lemma AddLineBump(rows: seq<Row>, k: nat, o: Owner, si: SubItem, showSize: bool, key: string)
    requires DistinctKeys(rows) && Contributes(si)
    requires k < |rows| && rows[k].key == KeyOf(si, showSize)
    ensures var b := Bumped(rows[k], si, o);
      DistinctKeys(rows[k := b]) && Tallies(rows, rows[k := b], key, QtyOf(si, key, showSize), MemoQtyOf(si, key, showSize), TotalQtyOf(si))
  {
    var b := Bumped(rows[k], si, o);
    assert b.key == rows[k].key;
    assert DistinctKeys(rows[k := b]) by {
      forall i, j | 0 <= i < j < |rows| ensures rows[k := b][i].key == rows[i].key && rows[k := b][j].key == rows[j].key {}
    }
    SumUpdate(rows, k, b, CountAt(key));
    SumUpdate(rows, k, b, MemosAt(key));
    SumUpdate(rows, k, b, AllCounts());
  }

  /** A line with a new key: its row is appended. */
  lemma AddLineNew(rows: seq<Row>, o: Owner, si: SubItem, showSize: bool, key: string)
    requires DistinctKeys(rows) && Contributes(si)
    requires forall i :: 0 <= i < |rows| ==> rows[i].key != KeyOf(si, showSize)
    ensures var nr := NewRow(si, showSize, o);
      DistinctKeys(rows + [nr]) && Tallies(rows, rows + [nr], key, QtyOf(si, key, showSize), MemoQtyOf(si, key, showSize), TotalQtyOf(si))
  {
    var nr := NewRow(si, showSize, o);
    var r := rows + [nr];
    assert nr.key == KeyOf(si, showSize);
    forall i, j | 0 <= i < j < |r| ensures r[i].key != r[j].key {
      assert r[i] == rows[i];
      if j < |rows| {
        assert r[j] == rows[j];
      }
    }
    SumAppend(rows, [nr], CountAt(key));
    SumAppend(rows, [nr], MemosAt(key));
    SumAppend(rows, [nr], AllCounts());
    assert SumOf([nr], AllCounts()) == nr.count;
  }

  lemma {:induction false} AddSubsStep(rows: seq<Row>, o: Owner, subs: seq<SubItem>, showSize: bool, key: string)
    requires DistinctKeys(rows)
    ensures DistinctKeys(AddSubs(rows, o, subs, showSize))
    ensures Tallies(rows, AddSubs(rows, o, subs, showSize), key,
                    SubsQty(subs, key, showSize), SubsMemoQty(subs, key, showSize), SubsTotal(subs))
  {
    if |subs| > 0 {
      AddSubsStep(rows, o, subs[..|subs| - 1], showSize, key);
      AddLineStep(AddSubs(rows, o, subs[..|subs| - 1], showSize), o, subs[|subs| - 1], showSize, key);
    }
  }

  lemma {:induction false} AddOwnersStep(os: seq<Owner>, showSize: bool, key: string)
    ensures DistinctKeys(AddOwners([], os, showSize))
    ensures Tallies([], AddOwners([], os, showSize), key,
                    OwnersQty(os, key, showSize), OwnersMemoQty(os, key, showSize), OwnersTotal(os))
  {
    if |os| > 0 {
      var o := os[|os| - 1];
      AddOwnersStep(os[..|os| - 1], showSize, key);
      AddSubsStep(AddOwners([], os[..|os| - 1], showSize), o, o.slot.subItems, showSize, key);
    }
  }

  /** With distinct keys, the per-key sum is the count of the one row with that key, or 0. */
  lemma {:induction false} SumAtKey(rows: seq<Row>, key: string)
    requires DistinctKeys(rows)
    ensures var k := FindKey(rows, key);
      && SumOf(rows, CountAt(key)) == (if k >= 0 then rows[k].count else 0)
      && SumOf(rows, MemosAt(key)) == (if k >= 0 then |rows[k].individualMemos| else 0)
  {
    if |rows| > 0 {
      SumAtKey(rows[1..], key);
      if rows[0].key == key {
        assert forall i :: 0 <= i < |rows[1..]| ==> rows[1..][i].key != key;
        SumAbsent(rows[1..], key);
      }
    }
  }

  lemma {:induction false} SumAbsent(rows: seq<Row>, key: string)
    requires forall i :: 0 <= i < |rows| ==> rows[i].key != key
    ensures SumOf(rows, CountAt(key)) == 0 && SumOf(rows, MemosAt(key)) == 0
  {
    if |rows| > 0 {
      SumAbsent(rows[1..], key);
    }
  }

  lemma {:induction false} RowsCountPositive(rows: seq<Row>, o: Owner, si: SubItem, showSize: bool)
    requires forall i :: 0 <= i < |rows| ==> rows[i].count >= 1
    ensures forall i :: 0 <= i < |AddLine(rows, o, si, showSize)| ==> AddLine(rows, o, si, showSize)[i].count >= 1
  {
  }

  // ------------------------------------------- what each row holds

  /** A row shows a line: same key, type, trimmed name and size tag, and a drink's temperature. */
  predicate Fits(r: Row, si: SubItem, showSize: bool) {
    && r.key == KeyOf(si, showSize)
    && r.itemType == si.itemType
    && r.itemName == Trim(si.itemName)
    && r.size == SizeTag(si, showSize)
    && (si.itemType == Drink ==> r.temperature == si.temperature)
  }

  /** A row shows every contributing line that has its key. */
  ghost predicate FitsKey(r: Row, showSize: bool) {
    forall si :: Contributes(si) && KeyOf(si, showSize) == r.key ==> Fits(r, si, showSize)
  }

  ghost predicate AllFit(rows: seq<Row>, showSize: bool) {
    forall i :: 0 <= i < |rows| ==> FitsKey(rows[i], showSize)
  }

  /** The memo entries one line adds to its key's row: `qty` copies when it has memos. */
  function LineMemos(o: Owner, si: SubItem, key: string, showSize: bool): seq<MemoEntry> {
    if Contributes(si) && KeyOf(si, showSize) == key && |MemosOf(si)| > 0 then Copies(EntryOf(o, MemosOf(si)), Qty(si)) else []
  }

  function SubsMemos(o: Owner, subs: seq<SubItem>, key: string, showSize: bool): seq<MemoEntry> {
    if |subs| == 0 then [] else SubsMemos(o, subs[..|subs| - 1], key, showSize) + LineMemos(o, subs[|subs| - 1], key, showSize)
  }

  /** The reference: every line's memo entries for that key, in walk order. */
  function OwnersMemos(os: seq<Owner>, key: string, showSize: bool): seq<MemoEntry> {
    if |os| == 0 then []
    else OwnersMemos(os[..|os| - 1], key, showSize) + SubsMemos(os[|os| - 1], os[|os| - 1].slot.subItems, key, showSize)
  }

  /** The memo entries of the row with that key, or none. */
  function MemosAtKey(rows: seq<Row>, key: string): seq<MemoEntry> {
    var k := FindKey(rows, key);
    if k >= 0 then rows[k].individualMemos else []
  }

  /** A new row shows every line of its key, since the key determines what it shows. */
  lemma NewRowFits(si: SubItem, showSize: bool, o: Owner)
    requires Contributes(si)
    ensures FitsKey(NewRow(si, showSize, o), showSize)
  {
    forall b | Contributes(b) && KeyOf(b, showSize) == KeyOf(si, showSize)
      ensures Fits(NewRow(si, showSize, o), b, showSize)
    {
      KeyOfSpec(si, b, showSize);
    }
  }

  lemma {:induction false} FindKeySameKeys(a: seq<Row>, b: seq<Row>, key: string)
    requires |a| == |b| && forall i :: 0 <= i < |a| ==> a[i].key == b[i].key
    ensures FindKey(a, key) == FindKey(b, key)
  {
    if |a| > 0 {
      FindKeySameKeys(a[1..], b[1..], key);
    }
  }

  lemma {:induction false} FindKeyAppend(rows: seq<Row>, x: Row, key: string)
    ensures FindKey(rows + [x], key) ==
      if FindKey(rows, key) >= 0 then FindKey(rows, key) else if x.key == key then |rows| else -1
  {
    if |rows| > 0 {
      assert (rows + [x])[1..] == rows[1..] + [x];
      FindKeyAppend(rows[1..], x, key);
    } else {
      assert rows + [x] == [x];
    }
  }

  /** One line: its row keeps showing its key's lines, and that key's entries grow by the line's. */
  lemma AddLineContents(rows: seq<Row>, o: Owner, si: SubItem, showSize: bool, key: string)
    requires DistinctKeys(rows) && AllFit(rows, showSize)
    ensures AllFit(AddLine(rows, o, si, showSize), showSize)
    ensures MemosAtKey(AddLine(rows, o, si, showSize), key) == MemosAtKey(rows, key) + LineMemos(o, si, key, showSize)
  {
    if Contributes(si) {
      var k := FindKey(rows, KeyOf(si, showSize));
      if k >= 0 {
        BumpContents(rows, k, o, si, showSize, key);
      } else {
        NewContents(rows, o, si, showSize, key);
      }
    } else {
      assert MemosAtKey(rows, key) + [] == MemosAtKey(rows, key);
    }
  }

  lemma BumpContents(rows: seq<Row>, k: nat, o: Owner, si: SubItem, showSize: bool, key: string)
    requires DistinctKeys(rows) && AllFit(rows, showSize) && Contributes(si)
    requires k < |rows| && rows[k].key == KeyOf(si, showSize)
    ensures AllFit(rows[k := Bumped(rows[k], si, o)], showSize)
    ensures MemosAtKey(rows[k := Bumped(rows[k], si, o)], key) == MemosAtKey(rows, key) + LineMemos(o, si, key, showSize)
  {
    BumpFits(rows, k, o, si, showSize);
    BumpMemos(rows, k, o, si, showSize, key);
  }

  lemma BumpFits(rows: seq<Row>, k: nat, o: Owner, si: SubItem, showSize: bool)
    requires AllFit(rows, showSize) && k < |rows|
    ensures AllFit(rows[k := Bumped(rows[k], si, o)], showSize)
  {
    var b := Bumped(rows[k], si, o);
    assert FitsKey(b, showSize) by {
      assert FitsKey(rows[k], showSize);
    }
  }

  lemma BumpMemos(rows: seq<Row>, k: nat, o: Owner, si: SubItem, showSize: bool, key: string)
    requires DistinctKeys(rows) && Contributes(si)
    requires k < |rows| && rows[k].key == KeyOf(si, showSize)
    ensures MemosAtKey(rows[k := Bumped(rows[k], si, o)], key) == MemosAtKey(rows, key) + LineMemos(o, si, key, showSize)
  {
    var r := rows[k := Bumped(rows[k], si, o)];
    FindKeySameKeys(rows, r, key);
    var f := FindKey(rows, key);
    if f == k {
      assert key == KeyOf(si, showSize);
    } else if f >= 0 {
      assert r[f] == rows[f];
      assert LineMemos(o, si, key, showSize) == [];
    } else {
      assert LineMemos(o, si, key, showSize) == [];
    }
  }

  lemma NewContents(rows: seq<Row>, o: Owner, si: SubItem, showSize: bool, key: string)
    requires AllFit(rows, showSize) && Contributes(si)
    requires forall i :: 0 <= i < |rows| ==> rows[i].key != KeyOf(si, showSize)
    ensures AllFit(rows + [NewRow(si, showSize, o)], showSize)
    ensures MemosAtKey(rows + [NewRow(si, showSize, o)], key) == MemosAtKey(rows, key) + LineMemos(o, si, key, showSize)
  {
    NewFits(rows, o, si, showSize);
    NewMemos(rows, o, si, showSize, key);
  }

  lemma NewFits(rows: seq<Row>, o: Owner, si: SubItem, showSize: bool)
    requires AllFit(rows, showSize) && Contributes(si)
    ensures AllFit(rows + [NewRow(si, showSize, o)], showSize)
  {
    NewRowFits(si, showSize, o);
  }

  lemma NewMemos(rows: seq<Row>, o: Owner, si: SubItem, showSize: bool, key: string)
    requires Contributes(si)
    requires forall i :: 0 <= i < |rows| ==> rows[i].key != KeyOf(si, showSize)
    ensures MemosAtKey(rows + [NewRow(si, showSize, o)], key) == MemosAtKey(rows, key) + LineMemos(o, si, key, showSize)
  {
    var nr := NewRow(si, showSize, o);
    FindKeyAppend(rows, nr, key);
    var f := FindKey(rows, key);
    if f >= 0 {
      assert (rows + [nr])[f] == rows[f];
      assert LineMemos(o, si, key, showSize) == [];
    }
  }

  lemma {:induction false} AddSubsContents(rows: seq<Row>, o: Owner, subs: seq<SubItem>, showSize: bool, key: string)
    requires DistinctKeys(rows) && AllFit(rows, showSize)
    ensures AllFit(AddSubs(rows, o, subs, showSize), showSize)
    ensures MemosAtKey(AddSubs(rows, o, subs, showSize), key) == MemosAtKey(rows, key) + SubsMemos(o, subs, key, showSize)
  {
    if |subs| == 0 {
      assert MemosAtKey(rows, key) + [] == MemosAtKey(rows, key);
    } else {
      var init := subs[..|subs| - 1];
      var mid := AddSubs(rows, o, init, showSize);
      AddSubsContents(rows, o, init, showSize, key);
      AddSubsStep(rows, o, init, showSize, key);
      AddLineContents(mid, o, subs[|subs| - 1], showSize, key);
      ConcatAssoc(MemosAtKey(rows, key), SubsMemos(o, init, key, showSize), LineMemos(o, subs[|subs| - 1], key, showSize));
    }
  }

  /** The walk: every row shows its key's lines, and holds that key's memo entries in walk order. */
  lemma {:induction false} AddOwnersContents(os: seq<Owner>, showSize: bool, key: string)
    ensures AllFit(AddOwners([], os, showSize), showSize)
    ensures MemosAtKey(AddOwners([], os, showSize), key) == OwnersMemos(os, key, showSize)
  {
    if |os| > 0 {
      var o := os[|os| - 1];
      var prev := os[..|os| - 1];
      AddOwnersContents(prev, showSize, key);
      AddOwnersStep(prev, showSize, key);
      AddSubsContents(AddOwners([], prev, showSize), o, o.slot.subItems, showSize, key);
    }
  }

  // ------------------------------------------------------------- sorting

  /** The comparator: DRINK before DESSERT, then by name. */
  predicate RowLe(a: Row, b: Row) {
    (a.itemType == Drink && b.itemType == Dessert) || (a.itemType == b.itemType && LexLe(a.itemName, b.itemName))
  }

  /** Strictly before: the comparator is negative. */
  predicate RowLt(a: Row, b: Row) {
    RowLe(a, b) && !RowLe(b, a)
  }

  predicate SortedRows(s: seq<Row>) {
    forall i, j :: 0 <= i < j < |s| ==> RowLe(s[i], s[j])
  }

  /** Insert after every row that does not sort strictly after it, which keeps the sort stable. */
  function Insert(x: Row, s: seq<Row>): seq<Row> {
    if |s| == 0 then [x]
    else if RowLt(x, s[0]) then [x] + s
    else [s[0]] + Insert(x, s[1..])
  }

  /** `Array.from(map.values()).sort(...)`, a stable sort. */
  function SortRows(s: seq<Row>): seq<Row> {
    if |s| == 0 then [] else Insert(s[|s| - 1], SortRows(s[..|s| - 1]))
  }

  lemma RowLeTotal(a: Row, b: Row)
    ensures RowLe(a, b) || RowLe(b, a)
  {
    LexTotal(a.itemName, b.itemName);
  }

  lemma RowLeTrans(a: Row, b: Row, c: Row)
    requires RowLe(a, b) && RowLe(b, c)
    ensures RowLe(a, c)
  {
    if a.itemType == b.itemType && b.itemType == c.itemType {
      LexTrans(a.itemName, b.itemName, c.itemName);
    }
  }

  lemma {:induction false} InsertMultiset(x: Row, s: seq<Row>)
    ensures multiset(Insert(x, s)) == multiset(s) + multiset{x}
  {
    if |s| > 0 && !RowLt(x, s[0]) {
      InsertMultiset(x, s[1..]);
      MultisetCons(s);
    }
  }

  lemma MultisetCons<T>(s: seq<T>)
    requires |s| > 0
    ensures multiset(s) == multiset{s[0]} + multiset(s[1..])
  {
    assert s == [s[0]] + s[1..];
  }

  lemma MultisetSnoc<T>(s: seq<T>)
    requires |s| > 0
    ensures multiset(s) == multiset(s[..|s| - 1]) + multiset{s[|s| - 1]}
  {
    assert s == s[..|s| - 1] + [s[|s| - 1]];
  }

  lemma SortedCons(x: Row, s: seq<Row>)
    requires SortedRows(s)
    requires forall j :: 0 <= j < |s| ==> RowLe(x, s[j])
    ensures SortedRows([x] + s)
  {
    var r := [x] + s;
    forall i, j | 0 <= i < j < |r| ensures RowLe(r[i], r[j]) {
      if i > 0 {
        assert r[i] == s[i - 1] && r[j] == s[j - 1];
      }
    }
  }

  lemma BeforeAll(x: Row, s: seq<Row>)
    requires SortedRows(s) && |s| > 0 && RowLt(x, s[0])
    ensures forall j :: 0 <= j < |s| ==> RowLe(x, s[j])
  {
    forall j | 0 < j < |s| ensures RowLe(x, s[j]) {
      RowLeTrans(x, s[0], s[j]);
    }
  }

  lemma HeadBeforeInserted(x: Row, s: seq<Row>, t: seq<Row>)
    requires SortedRows(s) && |s| > 0 && RowLe(s[0], x)
    requires multiset(t) == multiset(s[1..]) + multiset{x}
    ensures forall j :: 0 <= j < |t| ==> RowLe(s[0], t[j])
  {
    forall j | 0 <= j < |t| ensures RowLe(s[0], t[j]) {
      assert t[j] in multiset(t);
      if t[j] != x {
        assert t[j] in multiset(s[1..]);
        var k :| 0 <= k < |s[1..]| && s[1..][k] == t[j];
        assert s[k + 1] == t[j];
      }
    }
  }

  lemma {:induction false} InsertSpec(x: Row, s: seq<Row>)
    requires SortedRows(s)
    ensures SortedRows(Insert(x, s))
    ensures multiset(Insert(x, s)) == multiset(s) + multiset{x}
  {
    InsertMultiset(x, s);
    if |s| > 0 {
      if RowLt(x, s[0]) {
        BeforeAll(x, s);
        SortedCons(x, s);
      } else {
        RowLeTotal(x, s[0]);
        InsertSpec(x, s[1..]);
        HeadBeforeInserted(x, s, Insert(x, s[1..]));
        SortedCons(s[0], Insert(x, s[1..]));
      }
    }
  }

  lemma {:induction false} InsertSum(x: Row, s: seq<Row>, f: Row -> nat)
    ensures SumOf(Insert(x, s), f) == f(x) + SumOf(s, f)
  {
    if |s| > 0 {
      if RowLt(x, s[0]) {
        assert ([x] + s)[1..] == s;
      } else {
        InsertSum(x, s[1..], f);
        assert ([s[0]] + Insert(x, s[1..]))[1..] == Insert(x, s[1..]);
      }
    }
  }

  /** Sorting orders the rows and only permutes them. */
  lemma SortRowsSpec(s: seq<Row>)
    ensures SortedRows(SortRows(s))
    ensures multiset(SortRows(s)) == multiset(s)
  {
    SortRowsSorted(s);
    SortRowsPermutes(s);
  }

  lemma {:induction false} SortRowsSorted(s: seq<Row>)
    ensures SortedRows(SortRows(s))
  {
    if |s| > 0 {
      var p := s[..|s| - 1];
      SortRowsSorted(p);
      InsertSpec(s[|s| - 1], SortRows(p));
    }
  }

  lemma {:induction false} SortRowsPermutes(s: seq<Row>)
    ensures multiset(SortRows(s)) == multiset(s)
  {
    if |s| > 0 {
      var p := s[..|s| - 1];
      SortRowsPermutes(p);
      InsertMultiset(s[|s| - 1], SortRows(p));
      MultisetSnoc(s);
    }
  }

  /** So every sum over the rows is kept. */
  lemma {:induction false} SortSum(s: seq<Row>, f: Row -> nat)
    ensures SumOf(SortRows(s), f) == SumOf(s, f)
  {
    if |s| > 0 {
      var p := s[..|s| - 1];
      SortSum(p, f);
      InsertSum(s[|s| - 1], SortRows(p), f);
      SumAppend(p, [s[|s| - 1]], f);
      assert s == p + [s[|s| - 1]];
    }
  }

  lemma DistinctKeysPermutation(a: seq<Row>, b: seq<Row>)
    requires multiset(a) == multiset(b) && DistinctKeys(a)
    ensures DistinctKeys(b)
  {
    forall i, j | 0 <= i < j < |b| ensures b[i].key != b[j].key {
      if b[i] == b[j] {
        MultisetTwice(b, i, j);
        OnceIfDistinct(a, b[i]);
      } else {
        assert b[i] in multiset(a) && b[j] in multiset(a);
        var i' :| 0 <= i' < |a| && a[i'] == b[i];
        var j' :| 0 <= j' < |a| && a[j'] == b[j];
      }
    }
  }

  lemma MultisetTwice(b: seq<Row>, i: nat, j: nat)
    requires i < j < |b| && b[i] == b[j]
    ensures multiset(b)[b[i]] >= 2
  {
    assert b == b[..i] + [b[i]] + b[i + 1..j] + [b[j]] + b[j + 1..];
  }

  lemma {:induction false} OnceIfDistinct(a: seq<Row>, x: Row)
    requires DistinctKeys(a)
    ensures multiset(a)[x] <= 1
  {
    if |a| > 0 {
      assert DistinctKeys(a[1..]) by {
        assert forall i :: 0 <= i < |a[1..]| ==> a[1..][i] == a[i + 1];
      }
      OnceIfDistinct(a[1..], x);
      assert a == [a[0]] + a[1..];
      if a[0] == x {
        assert forall i :: 0 <= i < |a[1..]| ==> a[1..][i].key != x.key;
        assert x !in a[1..];
      }
    }
  }

  /** `aggregatedOrders`. */
  function Aggregate(gs: seq<Group>, showSize: bool): seq<Row> {
    SortRows(Rows(gs, showSize))
  }

  /**
   * The aggregated rows have distinct keys and are sorted. For every key,
   * the row with that key (if any) counts the sum of `quantity || 1` over
   * the contributing lines with that key, and carries one memo entry per
   * unit of those lines that have memos; a key has a row exactly when
   * some contributing line has it. The total is the sum over all
   * contributing lines.
   */
  lemma AggregateSpec(gs: seq<Group>, showSize: bool, key: string)
    ensures var r, os := Aggregate(gs, showSize), Owners(gs);
      var k := FindKey(r, key);
      && SortedRows(r) && DistinctKeys(r)
      && (k >= 0 <==> OwnersQty(os, key, showSize) > 0)
      && (k >= 0 ==> r[k].count == OwnersQty(os, key, showSize)
                     && |r[k].individualMemos| == OwnersMemoQty(os, key, showSize))
      && TotalCount(r) == OwnersTotal(os)
  {
    var os := Owners(gs);
    var rows := Rows(gs, showSize);
    var r := Aggregate(gs, showSize);
    AddOwnersStep(os, showSize, key);
    SortRowsSpec(rows);
    SortSum(rows, CountAt(key));
    SortSum(rows, MemosAt(key));
    SortSum(rows, AllCounts());
    DistinctKeysPermutation(rows, r);
    SumAtKey(r, key);
    assert SumOf([], CountAt(key)) == 0 && SumOf([], MemosAt(key)) == 0 && TotalCount([]) == 0;
    RowsPositive(os, showSize);
    var k := FindKey(r, key);
    if k >= 0 {
      assert r[k] in multiset(rows);
    }
  }

  /**
   * What the printed rows hold: each row shows type, trimmed name and size
   * tag of every contributing line with its key (and a drink's temperature),
   * and the row of a key holds exactly that key's memo entries, `qty` copies
   * per line with memos, in the order the tables, slots and lines are walked.
   */
  lemma AggregateContents(gs: seq<Group>, showSize: bool, key: string)
    ensures var r, os := Aggregate(gs, showSize), Owners(gs);
      var k := FindKey(r, key);
      && (forall i :: 0 <= i < |r| ==> FitsKey(r[i], showSize))
      && (k >= 0 ==> forall si :: Contributes(si) && KeyOf(si, showSize) == key ==> Fits(r[k], si, showSize))
      && (k >= 0 ==> r[k].individualMemos == OwnersMemos(os, key, showSize))
  {
    var os := Owners(gs);
    var rows := Rows(gs, showSize);
    var r := Aggregate(gs, showSize);
    AddOwnersContents(os, showSize, key);
    AddOwnersStep(os, showSize, key);
    SortRowsPermutes(rows);
    forall i | 0 <= i < |r| ensures FitsKey(r[i], showSize) {
      assert r[i] in multiset(rows);
    }
    var k := FindKey(r, key);
    if k >= 0 {
      assert r[k] in multiset(rows);
      var j :| 0 <= j < |rows| && rows[j] == r[k];
      assert FindKey(rows, key) == j by {
        var f := FindKey(rows, key);
        assert f >= 0 && rows[f].key == rows[j].key;
      }
    }
  }

  lemma {:induction false} RowsPositive(os: seq<Owner>, showSize: bool)
    ensures forall i :: 0 <= i < |AddOwners([], os, showSize)| ==> AddOwners([], os, showSize)[i].count >= 1
  {
    if |os| > 0 {
      RowsPositive(os[..|os| - 1], showSize);
      SubsPositive(AddOwners([], os[..|os| - 1], showSize), os[|os| - 1], os[|os| - 1].slot.subItems, showSize);
    }
  }

  lemma {:induction false} SubsPositive(rows: seq<Row>, o: Owner, subs: seq<SubItem>, showSize: bool)
    requires forall i :: 0 <= i < |rows| ==> rows[i].count >= 1
    ensures forall i :: 0 <= i < |AddSubs(rows, o, subs, showSize)| ==> AddSubs(rows, o, subs, showSize)[i].count >= 1
  {
    if |subs| > 0 {
      SubsPositive(rows, o, subs[..|subs| - 1], showSize);
      RowsCountPositive(AddSubs(rows, o, subs[..|subs| - 1], showSize), o, subs[|subs| - 1], showSize);
    }
  }

  /** The method the component runs: fill the map, then sort its values. */
  method AggregatedOrders(gs: seq<Group>, showSize: bool) returns (r: seq<Row>)
    ensures r == Aggregate(gs, showSize)
  {
    var rows := CollectRows(gs, showSize);
    r := SortRows(rows);
  }
}
