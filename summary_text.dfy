/**
 * The two copyable texts of components/OrderSummary.tsx: the per-table
 * summary (one line per table that has a listed order) and the overall
 * summary (one line per aggregated row).
 */
module SummaryText {
  import opened Orders
  import opened Text
  import opened Summary

  // ===================================================================
  // Per-table summary (OrderSummary.tsx:199-212)
  // ===================================================================

  /** Everything but "미정" and "안 먹음" is listed; blank names are, too. */
  predicate Listed(si: SubItem) {
    si.itemName != UNDECIDED && si.itemName != NOT_EATING
  }

  /** ` x${quantity}` when the quantity is above one. */
  function QtySuffix(q: nat): (r: string)
    ensures r == "" <==> q <= 1
    ensures q > 1 ==> |r| > 2 && r[..2] == " x" && AllDigits(r[2..]) && DigitsValue(r[2..]) == q
  {
    if q > 1 then
      NatToStringValue(q);
      assert (" x" + NatToString(q))[2..] == NatToString(q);
      " x" + NatToString(q)
    else ""
  }

  /** The `[temperature] ` prefix drinks carry. */
  function TempPrefix(itemType: ItemType, t: Option<Temperature>): string {
    if itemType == Drink then "[" + TempText(t) + "] " else ""
  }

  function ItemText(si: SubItem): string {
    TempPrefix(si.itemType, si.temperature) + si.itemName + QtySuffix(si.quantity)
  }

  function SubTexts(subs: seq<SubItem>): seq<string> {
    if |subs| == 0 then []
    else
      var si := subs[|subs| - 1];
      SubTexts(subs[..|subs| - 1]) + (if Listed(si) then [ItemText(si)] else [])
  }

  /** `orderTexts` of one table: the listed lines of every slot, in order. */
  function TableTexts(items: seq<Slot>): seq<string> {
    if |items| == 0 then [] else TableTexts(items[..|items| - 1]) + SubTexts(items[|items| - 1].subItems)
  }

  function ListedCount(subs: seq<SubItem>): nat {
    if |subs| == 0 then 0 else ListedCount(subs[..|subs| - 1]) + (if Listed(subs[|subs| - 1]) then 1 else 0)
  }

  function TableListed(items: seq<Slot>): nat {
    if |items| == 0 then 0 else TableListed(items[..|items| - 1]) + ListedCount(items[|items| - 1].subItems)
  }

  /** One text per listed line. */
  lemma {:induction false} TableTextsCount(items: seq<Slot>)
    ensures |TableTexts(items)| == TableListed(items)
  {
    if |items| > 0 {
      TableTextsCount(items[..|items| - 1]);
      SubTextsCount(items[|items| - 1].subItems);
    }
  }

  lemma {:induction false} SubTextsCount(subs: seq<SubItem>)
    ensures |SubTexts(subs)| == ListedCount(subs)
  {
    if |subs| > 0 {
      SubTextsCount(subs[..|subs| - 1]);
    }
  }

  /** `${g.name}: ${orderTexts.join(', ')}`, or null without listed lines. */
  function TableLine(g: Group): Option<string> {
    var texts := TableTexts(g.items);
    if |texts| > 0 then Some(g.name + ": " + Join(texts, ", ")) else None
  }

  /** `.map(...).filter(Boolean)`. */
  function TableLines(gs: seq<Group>): seq<string> {
    if |gs| == 0 then []
    else
      var line := TableLine(gs[|gs| - 1]);
      TableLines(gs[..|gs| - 1]) + (if line.Some? then [line.value] else [])
  }

  function TableSummary(gs: seq<Group>): string {
    Join(TableLines(gs), "\n")
  }

  /** The reference: keep the tables with a listed line, then write one line for each. */
  function TablesWithOrders(gs: seq<Group>): (r: seq<Group>)
    ensures |r| <= |gs|
  {
    if |gs| == 0 then []
    else TablesWithOrders(gs[..|gs| - 1]) + (if TableListed(gs[|gs| - 1].items) > 0 then [gs[|gs| - 1]] else [])
  }

  /**
   * Mapping to lines and then dropping the nulls is filtering the tables
   * and then mapping: line `i` is the `i`-th table with a listed line, its
   * name, a colon and the texts of its listed lines.
   */
  lemma {:induction false} TableLinesSpec(gs: seq<Group>)
    ensures |TableLines(gs)| == |TablesWithOrders(gs)|
    ensures forall i :: 0 <= i < |TableLines(gs)| ==>
      TableLines(gs)[i] == TablesWithOrders(gs)[i].name + ": " + Join(TableTexts(TablesWithOrders(gs)[i].items), ", ")
  {
    if |gs| > 0 {
      TableLinesSpec(gs[..|gs| - 1]);
      TableTextsCount(gs[|gs| - 1].items);
    }
  }

  /**
   * With no line break in any table name or item name, the summary splits
   * back into exactly those lines: one per table with a listed line.
   */
  lemma TableSummaryLines(gs: seq<Group>)
    requires |TablesWithOrders(gs)| > 0
    requires forall i :: 0 <= i < |TableLines(gs)| ==> '\n' !in TableLines(gs)[i]
    ensures Split(TableSummary(gs), '\n') == TableLines(gs)
    ensures |Split(TableSummary(gs), '\n')| == |TablesWithOrders(gs)|
  {
    TableLinesSpec(gs);
    SplitJoin(TableLines(gs), '\n');
  }

  /** The innermost loop: the listed lines of one slot. */
  method CollectSlotTexts(subs: seq<SubItem>) returns (texts: seq<string>)
    ensures texts == SubTexts(subs)
  {
    texts := [];
    for j := 0 to |subs|
      invariant texts == SubTexts(subs[..j])
    {
      assert subs[..j + 1][..j] == subs[..j];
      var si := subs[j];
      if si.itemName != UNDECIDED && si.itemName != NOT_EATING {
        var t := si.itemName;
        if si.itemType == Drink {
          t := "[" + TempText(si.temperature) + "] " + t;
        }
        assert t == TempPrefix(si.itemType, si.temperature) + si.itemName;
        if si.quantity > 1 {
          t := t + " x" + NatToString(si.quantity);
        }
        assert t == ItemText(si);
        texts := texts + [t];
      }
    }
    assert subs[..|subs|] == subs;
  }

  /** One table's `orderTexts`. */
  method CollectTableTexts(g: Group) returns (orderTexts: seq<string>)
    ensures orderTexts == TableTexts(g.items)
  {
    orderTexts := [];
    for i := 0 to |g.items|
      invariant orderTexts == TableTexts(g.items[..i])
    {
      assert g.items[..i + 1][..i] == g.items[..i];
      var texts := CollectSlotTexts(g.items[i].subItems);
      orderTexts := orderTexts + texts;
    }
    assert g.items[..|g.items|] == g.items;
  }

  /** `tableSummary`. */
  method TableSummaryText(gs: seq<Group>) returns (text: string)
    ensures text == TableSummary(gs)
  {
    var lines: seq<string> := [];
    for k := 0 to |gs|
      invariant lines == TableLines(gs[..k])
    {
      assert gs[..k + 1][..k] == gs[..k];
      var orderTexts := CollectTableTexts(gs[k]);
      if |orderTexts| > 0 {
        lines := lines + [gs[k].name + ": " + Join(orderTexts, ", ")];
      }
    }
    assert gs[..|gs|] == gs;
    text := Join(lines, "\n");
  }

  // ===================================================================
  // Overall summary (OrderSummary.tsx:214-218)
  // ===================================================================

  function RowLabel(o: Row): string {
    TempPrefix(o.itemType, o.temperature) + o.itemName
  }

  /** `${t}: ${o.count}개`. */
  function RowLine(o: Row): string {
    RowLabel(o) + ": " + NatToString(o.count) + "개"
  }

  function RowLines(rows: seq<Row>): (r: seq<string>)
    ensures |r| == |rows|
  {
    seq(|rows|, i requires 0 <= i < |rows| => RowLine(rows[i]))
  }

  function AllSummary(rows: seq<Row>): string {
    Join(RowLines(rows), "\n")
  }

  /** The count can be read back from the row's line, right after the label and ": ". */
  lemma RowLineCount(o: Row)
    ensures var s, p := RowLine(o), |RowLabel(o)| + 2;
      p <= |s| && DigitsValue(TakeDigits(s[p..])) == o.count
  {
    var s, p := RowLine(o), |RowLabel(o)| + 2;
    assert s[p..] == NatToString(o.count) + "개";
    TakeDigitsOfDigits(NatToString(o.count), "개");
    NatToStringValue(o.count);
  }

  /**
   * With no line break in the names, the overall summary has exactly one
   * line per aggregated row, in the rows' order.
   */
  lemma AllSummaryLines(rows: seq<Row>)
    requires |rows| > 0
    requires forall i :: 0 <= i < |rows| ==> '\n' !in rows[i].itemName
    ensures Split(AllSummary(rows), '\n') == RowLines(rows)
    ensures |Split(AllSummary(rows), '\n')| == |rows|
  {
    forall i | 0 <= i < |rows| ensures '\n' !in RowLines(rows)[i] {
      NoBreakInLine(rows[i]);
    }
    SplitJoin(RowLines(rows), '\n');
  }

  lemma NoBreakInLine(o: Row)
    requires '\n' !in o.itemName
    ensures '\n' !in RowLine(o)
  {
    var d := NatToString(o.count);
    assert forall c :: c in d ==> IsDigit(c);
  }
}
