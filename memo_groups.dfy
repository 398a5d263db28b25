/**
 * `getMemoGroups` of components/OrderSummary.tsx: the memo entries of one
 * aggregated row, grouped by their sorted list of memos.
 */
module MemoGroups {
  import opened Orders
  import opened Text
  import opened Summary

  // ----------------------------------------------------------- sorting

  predicate SortedStrings(s: seq<string>) {
    forall i, j :: 0 <= i < j < |s| ==> LexLe(s[i], s[j])
  }

  function InsertString(x: string, s: seq<string>): seq<string> {
    if |s| == 0 then [x]
    else if LexLe(x, s[0]) then [x] + s
    else [s[0]] + InsertString(x, s[1..])
  }

  /** `Array.prototype.sort()` on strings. */
  function SortStrings(s: seq<string>): seq<string> {
    if |s| == 0 then [] else InsertString(s[|s| - 1], SortStrings(s[..|s| - 1]))
  }

  lemma {:induction false} InsertStringMultiset(x: string, s: seq<string>)
    ensures multiset(InsertString(x, s)) == multiset(s) + multiset{x}
  {
    if |s| > 0 && !LexLe(x, s[0]) {
      InsertStringMultiset(x, s[1..]);
      assert s == [s[0]] + s[1..];
    }
  }

  lemma SortedStringsCons(x: string, s: seq<string>)
    requires SortedStrings(s)
    requires forall j :: 0 <= j < |s| ==> LexLe(x, s[j])
    ensures SortedStrings([x] + s)
  {
    var r := [x] + s;
    forall i, j | 0 <= i < j < |r| ensures LexLe(r[i], r[j]) {
      if i > 0 {
        assert r[i] == s[i - 1] && r[j] == s[j - 1];
      }
    }
  }

  lemma HeadBelowInserted(x: string, s: seq<string>, t: seq<string>)
    requires SortedStrings(s) && |s| > 0 && LexLe(s[0], x)
    requires multiset(t) == multiset(s[1..]) + multiset{x}
    ensures forall j :: 0 <= j < |t| ==> LexLe(s[0], t[j])
  {
    forall j | 0 <= j < |t| ensures LexLe(s[0], t[j]) {
      assert t[j] in multiset(t);
      if t[j] != x {
        assert t[j] in multiset(s[1..]);
        var k :| 0 <= k < |s[1..]| && s[1..][k] == t[j];
        assert s[k + 1] == t[j];
      }
    }
  }

  lemma {:induction false} InsertStringSpec(x: string, s: seq<string>)
    requires SortedStrings(s)
    ensures SortedStrings(InsertString(x, s))
    ensures multiset(InsertString(x, s)) == multiset(s) + multiset{x}
  {
    InsertStringMultiset(x, s);
    if |s| > 0 {
      if LexLe(x, s[0]) {
        forall j | 0 < j < |s| ensures LexLe(x, s[j]) {
          LexTrans(x, s[0], s[j]);
        }
        SortedStringsCons(x, s);
      } else {
        LexTotal(x, s[0]);
        InsertStringSpec(x, s[1..]);
        HeadBelowInserted(x, s, InsertString(x, s[1..]));
        SortedStringsCons(s[0], InsertString(x, s[1..]));
      }
    }
  }

  /** The sort orders the strings and only permutes them. */
  lemma {:induction false} SortStringsSpec(s: seq<string>)
    ensures SortedStrings(SortStrings(s))
    ensures multiset(SortStrings(s)) == multiset(s)
  {
    if |s| > 0 {
      var p := s[..|s| - 1];
      SortStringsSpec(p);
      InsertStringSpec(s[|s| - 1], SortStrings(p));
      assert s == p + [s[|s| - 1]];
    }
  }

  /** A sorted arrangement of a multiset of strings is unique. */
  lemma {:induction false} SortedUnique(a: seq<string>, b: seq<string>)
    requires SortedStrings(a) && SortedStrings(b)
    requires multiset(a) == multiset(b)
    ensures a == b
  {
    assert |a| == |multiset(a)| == |multiset(b)| == |b|;
    if |a| > 0 {
      SortedPeel(a, b);
      SortedUnique(a[1..], b[1..]);
      assert a == [a[0]] + a[1..] && b == [b[0]] + b[1..];
    }
  }

  /** Two sorted arrangements of one multiset share their head; their tails are again such a pair. */
  lemma SortedPeel(a: seq<string>, b: seq<string>)
    requires SortedStrings(a) && SortedStrings(b)
    requires multiset(a) == multiset(b) && |a| > 0 && |b| > 0
    ensures a[0] == b[0]
    ensures SortedStrings(a[1..]) && SortedStrings(b[1..])
    ensures multiset(a[1..]) == multiset(b[1..])
  {
    SortedHeadBelow(a, b[0]);
    SortedHeadBelow(b, a[0]);
    LexAntisym(a[0], b[0]);
    MultisetTail(a);
    MultisetTail(b);
  }

  lemma MultisetTail(a: seq<string>)
    requires |a| > 0
    ensures multiset(a[1..]) == multiset(a) - multiset{a[0]}
  {
    assert a == [a[0]] + a[1..];
  }

  /** The head of a sorted list is below everything in it. */
  lemma SortedHeadBelow(a: seq<string>, x: string)
    requires SortedStrings(a) && x in multiset(a)
    ensures LexLe(a[0], x)
  {
    var i :| 0 <= i < |a| && a[i] == x;
    if i == 0 {
      LexTotal(x, x);
    }
  }

  // ----------------------------------------------------------- grouping

  /** A group of people with the same memos; the record key is kept with it. */
  datatype MemoGroup = MemoGroup(key: string, memos: seq<string>, people: seq<MemoEntry>)

  /** `[...m.memos].map(x => x.trim()).filter(Boolean).sort()`. */
  function SortedMemos(e: MemoEntry): seq<string> {
    SortStrings(TrimNonEmpty(e.memos))
  }

  /** `sortedMemos.join(', ')`. */
  function GroupKey(e: MemoEntry): string {
    Join(SortedMemos(e), ", ")
  }

  /** The position of the group with that key, or -1. */
  function FindGroup(gs: seq<MemoGroup>, key: string): (r: int)
    ensures -1 <= r < |gs|
    ensures r >= 0 ==> gs[r].key == key
    ensures r == -1 ==> forall i :: 0 <= i < |gs| ==> gs[i].key != key
  {
    if |gs| == 0 then -1
    else if gs[|gs| - 1].key == key then |gs| - 1
    else FindGroup(gs[..|gs| - 1], key)
  }

  /** One entry: join its key's group, or open a new one. */
  function AddEntry(gs: seq<MemoGroup>, e: MemoEntry): seq<MemoGroup> {
    var key := GroupKey(e);
    var k := FindGroup(gs, key);
    if k >= 0 then gs[k := gs[k].(people := gs[k].people + [e])]
    else gs + [MemoGroup(key, SortedMemos(e), [e])]
  }

  /** The groups in the order their keys were first seen. */
  function Grouped(es: seq<MemoEntry>): seq<MemoGroup> {
    if |es| == 0 then [] else AddEntry(Grouped(es[..|es| - 1]), es[|es| - 1])
  }

  /** The callback for one entry: create its key's group if missing, then push the entry. */
  method PushEntry(groups0: seq<MemoGroup>, e: MemoEntry) returns (groups: seq<MemoGroup>)
    ensures groups == AddEntry(groups0, e)
  {
    var sortedMemos := SortedMemos(e);
    var key := Join(sortedMemos, ", ");
    var k := FindGroup(groups0, key);
    if k < 0 {
      groups := groups0 + [MemoGroup(key, sortedMemos, [])];
      k := |groups| - 1;
      groups := groups[k := groups[k].(people := groups[k].people + [e])];
      NewThenPush(groups0, MemoGroup(key, sortedMemos, []), e);
      assert [] + [e] == [e];
    } else {
      groups := groups0[k := groups0[k].(people := groups0[k].people + [e])];
    }
  }

  /** `getMemoGroups`, with the entry list absent as `None`. */
  method GetMemoGroups(memos: Option<seq<MemoEntry>>) returns (groups: seq<MemoGroup>)
    ensures memos.None? ==> groups == []
    ensures memos.Some? ==> groups == Grouped(memos.value)
  {
    if memos.None? {
      return [];
    }
    var es := memos.value;
    groups := [];
    for i := 0 to |es|
      invariant groups == Grouped(es[..i])
    {
      assert es[..i + 1][..i] == es[..i];
      groups := PushEntry(groups, es[i]);
    }
    assert es[..|es|] == es;
  }

  /** Creating an empty group and then pushing onto it is appending a one-person group. */
  lemma NewThenPush(gs: seq<MemoGroup>, g: MemoGroup, e: MemoEntry)
    ensures (gs + [g])[|gs| := (gs + [g])[|gs|].(people := (gs + [g])[|gs|].people + [e])]
         == gs + [g.(people := g.people + [e])]
  {
  }

  /** The reference: the entries with that key, in order. */
  function WithKey(es: seq<MemoEntry>, key: string): seq<MemoEntry> {
    if |es| == 0 then []
    else WithKey(es[..|es| - 1], key) + (if GroupKey(es[|es| - 1]) == key then [es[|es| - 1]] else [])
  }

  predicate KeysDistinct(gs: seq<MemoGroup>) {
    forall i, j :: 0 <= i < j < |gs| ==> gs[i].key != gs[j].key
  }

  /** A group holds the entries with its key, and its memos are its first entry's sorted memos. */
  predicate GroupOk(g: MemoGroup, es: seq<MemoEntry>) {
    && g.people == WithKey(es, g.key)
    && |g.people| > 0
    && g.key == GroupKey(g.people[0])
    && g.memos == SortedMemos(g.people[0])
  }

  predicate PeopleOk(gs: seq<MemoGroup>, es: seq<MemoEntry>) {
    forall i :: 0 <= i < |gs| ==> GroupOk(gs[i], es)
  }

  /** Every entry has a group. */
  predicate Covered(gs: seq<MemoGroup>, es: seq<MemoEntry>) {
    forall j :: 0 <= j < |es| ==> FindGroup(gs, GroupKey(es[j])) >= 0
  }

  lemma {:induction false} WithKeyEmpty(es: seq<MemoEntry>, key: string)
    requires forall j :: 0 <= j < |es| ==> GroupKey(es[j]) != key
    ensures WithKey(es, key) == []
  {
    if |es| > 0 {
      WithKeyEmpty(es[..|es| - 1], key);
    }
  }

  lemma AddEntryKeys(gs: seq<MemoGroup>, e: MemoEntry)
    requires KeysDistinct(gs)
    ensures KeysDistinct(AddEntry(gs, e))
    ensures |AddEntry(gs, e)| >= |gs|
    ensures forall i :: 0 <= i < |gs| ==> AddEntry(gs, e)[i].key == gs[i].key
  {
    var key := GroupKey(e);
    var k := FindGroup(gs, key);
    var r := AddEntry(gs, e);
    if k >= 0 {
      assert r == gs[k := gs[k].(people := gs[k].people + [e])];
      forall i | 0 <= i < |gs| ensures r[i].key == gs[i].key {}
    } else {
      assert r == gs + [MemoGroup(key, SortedMemos(e), [e])];
      forall i | 0 <= i < |gs| ensures r[i].key == gs[i].key {
        assert r[i] == gs[i];
      }
      forall i, j | 0 <= i < j < |r| ensures r[i].key != r[j].key {
        if j == |gs| {
          assert r[i].key == gs[i].key;
        }
      }
    }
  }

  lemma AddEntryCovered(gs: seq<MemoGroup>, es: seq<MemoEntry>)
    requires |es| > 0
    requires KeysDistinct(gs) && Covered(gs, es[..|es| - 1])
    ensures Covered(AddEntry(gs, es[|es| - 1]), es)
  {
    var e := es[|es| - 1];
    var r := AddEntry(gs, e);
    AddEntryKeys(gs, e);
    forall j | 0 <= j < |es| ensures FindGroup(r, GroupKey(es[j])) >= 0 {
      if j < |es| - 1 {
        assert es[..|es| - 1][j] == es[j];
        var kj := FindGroup(gs, GroupKey(es[j]));
        assert r[kj].key == GroupKey(es[j]);
      } else {
        var k := FindGroup(gs, GroupKey(e));
        assert r[if k >= 0 then k else |gs|].key == GroupKey(e);
      }
    }
  }

  lemma AddEntryPeople(gs: seq<MemoGroup>, es: seq<MemoEntry>)
    requires |es| > 0
    requires KeysDistinct(gs) && Covered(gs, es[..|es| - 1]) && PeopleOk(gs, es[..|es| - 1])
    ensures PeopleOk(AddEntry(gs, es[|es| - 1]), es)
  {
    var prev, e := es[..|es| - 1], es[|es| - 1];
    var key := GroupKey(e);
    var r := AddEntry(gs, e);
    forall i | 0 <= i < |r| ensures GroupOk(r[i], es) {
      if i >= |gs| {
        forall j | 0 <= j < |prev| ensures GroupKey(prev[j]) != key {
          assert FindGroup(gs, GroupKey(prev[j])) >= 0;
        }
        WithKeyEmpty(prev, key);
      }
    }
  }

  /**
   * The groups have distinct keys; each holds, in order, exactly the
   * entries whose sorted memos join to its key, and its memo list is that
   * sorted list; every entry lands in a group.
   */
  lemma {:induction false} GroupedSpec(es: seq<MemoEntry>)
    ensures KeysDistinct(Grouped(es))
    ensures PeopleOk(Grouped(es), es)
    ensures Covered(Grouped(es), es)
  {
    if |es| > 0 {
      var prev := es[..|es| - 1];
      GroupedSpec(prev);
      AddEntryKeys(Grouped(prev), es[|es| - 1]);
      AddEntryCovered(Grouped(prev), es);
      AddEntryPeople(Grouped(prev), es);
    }
  }

  /**
   * The grouping ignores memo order and blank memos: two entries whose
   * memo lists are permutations of each other fall in the same group,
   * with the same sorted memo list.
   */
  lemma SameMemosSameGroup(a: MemoEntry, b: MemoEntry)
    requires multiset(a.memos) == multiset(b.memos)
    ensures SortedMemos(a) == SortedMemos(b)
    ensures GroupKey(a) == GroupKey(b)
  {
    TrimNonEmptyPermutation(a.memos, b.memos);
    SortStringsSpec(TrimNonEmpty(a.memos));
    SortStringsSpec(TrimNonEmpty(b.memos));
    SortedUnique(SortedMemos(a), SortedMemos(b));
  }

  /** A group's memo list is sorted and is a permutation of its entries' trimmed memos. */
  lemma SortedMemosSpec(e: MemoEntry)
    ensures SortedStrings(SortedMemos(e))
    ensures multiset(SortedMemos(e)) == multiset(TrimNonEmpty(e.memos))
  {
    SortStringsSpec(TrimNonEmpty(e.memos));
  }
}
