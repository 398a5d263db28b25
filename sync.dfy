/**
 * The shared-menu reconciler of App.tsx: the activation merge of
 * `handleCopySharedMenuToAll`, and the three paths of `updateOrder`
 * (teardown on an emptied shared slot, the name-keyed mirror, and the
 * local field merge with its seat-marker rotation).
 *
 * Sub-items are matched across shared slots by exact `itemName`.
 */
module SharedSync {
  import opened Orders

  // ===================================================================
  // Activation merge (App.tsx:379-387)
  // ===================================================================

  /** One turn of the `forEach`: overwrite the first same-named item, or append a tagged copy. */
  function MergeStep(cur: seq<SubItem>, s: SubItem): seq<SubItem> {
    var k := FindByName(cur, s.itemName);
    if k > -1 then cur[k := cur[k].(quantity := s.quantity, isSynced := true)]
    else cur + [Tagged(s)]
  }

  /** The whole `forEach` over the origin's items, in order. */
  function MergeAll(cur: seq<SubItem>, src: seq<SubItem>): seq<SubItem> {
    if |src| == 0 then cur else MergeStep(MergeAll(cur, src[..|src| - 1]), src[|src| - 1])
  }

  /** The merge loop as the source runs it: `currentSubItems` is updated in place or pushed onto. */
  method MergeSynced(cur: seq<SubItem>, src: seq<SubItem>) returns (r: seq<SubItem>)
    ensures r == MergeAll(cur, src)
  {
    r := cur;
    for i := 0 to |src|
      invariant r == MergeAll(cur, src[..i])
    {
      assert src[..i + 1][..i] == src[..i];
      var existingIdx := FindByName(r, src[i].itemName);
      if existingIdx > -1 {
        r := r[existingIdx := r[existingIdx].(quantity := src[i].quantity, isSynced := true)];
      } else {
        r := r + [Tagged(src[i])];
      }
    }
    assert src[..|src|] == src;
  }

  // ----- an independent description of what the merge produces

  /** The quantity of the last item of `src` named `n`: the one the loop writes last. */
  function LastQty(src: seq<SubItem>, n: string): nat
    requires HasName(src, n)
  {
    var last := src[|src| - 1];
    if last.itemName == n then last.quantity
    else
      assert HasName(src[..|src| - 1], n) by {
        var i :| 0 <= i < |src| && src[i].itemName == n;
        assert src[..|src| - 1][i].itemName == n;
      }
      LastQty(src[..|src| - 1], n)
  }

  /** The existing items after the merge: the first item of each origin name takes that name's last quantity and the flag. */
  function Updated(cur: seq<SubItem>, src: seq<SubItem>): (r: seq<SubItem>)
    ensures |r| == |cur|
  {
    seq(|cur|, i requires 0 <= i < |cur| =>
      if HasName(src, cur[i].itemName) && FindByName(cur, cur[i].itemName) == i
      then cur[i].(quantity := LastQty(src, cur[i].itemName), isSynced := true)
      else cur[i])
  }

  /** The first occurrence in `src` of every name that `cur` lacks, in order. */
  function Fresh(cur: seq<SubItem>, src: seq<SubItem>): seq<SubItem> {
    if |src| == 0 then []
    else
      var prev := src[..|src| - 1];
      var s := src[|src| - 1];
      if HasName(cur, s.itemName) || HasName(prev, s.itemName) then Fresh(cur, prev)
      else Fresh(cur, prev) + [s]
  }

  /** The appended items: tagged copies of `Fresh`, each with its name's last quantity. */
  function Appended(cur: seq<SubItem>, src: seq<SubItem>): (r: seq<SubItem>)
    ensures |r| == |Fresh(cur, src)|
  {
    var f := Fresh(cur, src);
    FreshFacts(cur, src);
    seq(|f|, j requires 0 <= j < |f| => Tagged(f[j]).(quantity := LastQty(src, f[j].itemName)))
  }

  /** What `Fresh` holds: origin items whose names are new to `cur`, each name once. */
  lemma {:induction false} FreshFacts(cur: seq<SubItem>, src: seq<SubItem>)
    ensures forall j :: 0 <= j < |Fresh(cur, src)| ==>
      HasName(src, Fresh(cur, src)[j].itemName) && !HasName(cur, Fresh(cur, src)[j].itemName)
    ensures forall j, k :: 0 <= j < k < |Fresh(cur, src)| ==> Fresh(cur, src)[j].itemName != Fresh(cur, src)[k].itemName
    ensures forall n :: HasName(src, n) && !HasName(cur, n) <==> HasName(Fresh(cur, src), n)
  {
    if |src| > 0 {
      var prev := src[..|src| - 1];
      var s := src[|src| - 1];
      FreshFacts(cur, prev);
      var f := Fresh(cur, src);
      var fp := Fresh(cur, prev);
      forall n | HasName(prev, n) ensures HasName(src, n) {
        var i :| 0 <= i < |prev| && prev[i].itemName == n;
        assert src[i] == prev[i];
      }
      forall n | HasName(src, n) && n != s.itemName ensures HasName(prev, n) {
        var i :| 0 <= i < |src| && src[i].itemName == n;
        assert prev[i] == src[i];
      }
      if !(HasName(cur, s.itemName) || HasName(prev, s.itemName)) {
        assert f == fp + [s];
        forall n | HasName(f, n) ensures HasName(fp, n) || n == s.itemName {
          var i :| 0 <= i < |f| && f[i].itemName == n;
          if i < |fp| { assert fp[i] == f[i]; }
        }
        forall n | HasName(fp, n) ensures HasName(f, n) {
          var i :| 0 <= i < |fp| && fp[i].itemName == n;
          assert f[i] == fp[i];
        }
        assert f[|f| - 1] == s;
      }
    }
  }

  /** The merge reference: updated existing items, then the appended new names. */
  function MergeRef(cur: seq<SubItem>, src: seq<SubItem>): seq<SubItem> {
    Updated(cur, src) + Appended(cur, src)
  }

  lemma FindByNameSame(a: seq<SubItem>, b: seq<SubItem>, n: string)
    requires |a| == |b|
    requires forall i :: 0 <= i < |a| ==> a[i].itemName == b[i].itemName
    ensures FindByName(a, n) == FindByName(b, n)
  {
    var x, y := FindByName(a, n), FindByName(b, n);
    if x >= 0 {
      assert b[x].itemName == n;
    }
  }

  lemma FindByNameInPrefix(a: seq<SubItem>, b: seq<SubItem>, n: string)
    requires HasName(a, n)
    ensures FindByName(a + b, n) == FindByName(a, n)
  {
    var y := FindByName(a, n);
    assert (a + b)[y] == a[y];
    assert forall j :: 0 <= j < y ==> (a + b)[j] == a[j];
  }

  lemma FindByNameInSuffix(a: seq<SubItem>, b: seq<SubItem>, n: string)
    requires !HasName(a, n)
    ensures FindByName(a + b, n) == if HasName(b, n) then |a| + FindByName(b, n) else -1
  {
    var ab := a + b;
    forall j | 0 <= j < |a| ensures ab[j].itemName != n {
      assert ab[j] == a[j];
    }
    if HasName(b, n) {
      var y := FindByName(b, n);
      forall j | |a| <= j < |a| + y ensures ab[j].itemName != n {
        assert ab[j] == b[j - |a|];
      }
      assert ab[|a| + y] == b[y];
      assert HasName(ab, n);
      var r := FindByName(ab, n);
      assert r <= |a| + y;
      assert r >= |a| + y;
    } else {
      forall j | |a| <= j < |ab| ensures ab[j].itemName != n {
        assert ab[j] == b[j - |a|];
      }
      assert !HasName(ab, n);
    }
  }

  lemma LastQtyOther(prev: seq<SubItem>, s: SubItem, n: string)
    requires HasName(prev, n) && n != s.itemName
    ensures HasName(prev + [s], n) && LastQty(prev + [s], n) == LastQty(prev, n)
  {
    var src := prev + [s];
    var i :| 0 <= i < |prev| && prev[i].itemName == n;
    assert src[i] == prev[i];
    assert src[..|src| - 1] == prev;
  }

  lemma LastQtyLast(prev: seq<SubItem>, s: SubItem)
    ensures HasName(prev + [s], s.itemName) && LastQty(prev + [s], s.itemName) == s.quantity
  {
    var src := prev + [s];
    assert src[|src| - 1] == s;
  }

  lemma UpdatedNames(cur: seq<SubItem>, src: seq<SubItem>)
    ensures forall i :: 0 <= i < |cur| ==> Updated(cur, src)[i].itemName == cur[i].itemName
    ensures forall n :: HasName(Updated(cur, src), n) <==> HasName(cur, n)
  {
    var u := Updated(cur, src);
    forall n | HasName(u, n) ensures HasName(cur, n) {
      var i :| 0 <= i < |u| && u[i].itemName == n;
      assert cur[i].itemName == n;
    }
    forall n | HasName(cur, n) ensures HasName(u, n) {
      var i :| 0 <= i < |cur| && cur[i].itemName == n;
      assert u[i].itemName == n;
    }
  }

  lemma HasNameExtend(prev: seq<SubItem>, s: SubItem)
    ensures forall n :: HasName(prev + [s], n) <==> HasName(prev, n) || n == s.itemName
  {
    var src := prev + [s];
    assert src[|prev|] == s;
    forall n | HasName(prev, n) ensures HasName(src, n) {
      var i :| 0 <= i < |prev| && prev[i].itemName == n;
      assert src[i] == prev[i];
    }
    forall n | HasName(src, n) && n != s.itemName ensures HasName(prev, n) {
      var i :| 0 <= i < |src| && src[i].itemName == n;
      assert prev[i] == src[i];
    }
  }

  lemma UpdatedExisting(cur: seq<SubItem>, prev: seq<SubItem>, s: SubItem)
    requires HasName(cur, s.itemName)
    ensures var k := FindByName(cur, s.itemName);
      Updated(cur, prev + [s]) == Updated(cur, prev)[k := Updated(cur, prev)[k].(quantity := s.quantity, isSynced := true)]
  {
    var src := prev + [s];
    var u', u := Updated(cur, prev), Updated(cur, src);
    var k := FindByName(cur, s.itemName);
    HasNameExtend(prev, s);
    forall i | 0 <= i < |cur|
      ensures u[i] == u'[k := u'[k].(quantity := s.quantity, isSynced := true)][i]
    {
      if cur[i].itemName == s.itemName {
        LastQtyLast(prev, s);
      } else if HasName(prev, cur[i].itemName) {
        LastQtyOther(prev, s, cur[i].itemName);
      }
    }
  }

  lemma AppendedUnchanged(cur: seq<SubItem>, prev: seq<SubItem>, s: SubItem)
    requires HasName(cur, s.itemName)
    ensures Appended(cur, prev + [s]) == Appended(cur, prev)
  {
    var src := prev + [s];
    assert src[..|src| - 1] == prev;
    assert Fresh(cur, src) == Fresh(cur, prev);
    FreshFacts(cur, prev);
    var a', a := Appended(cur, prev), Appended(cur, src);
    forall j | 0 <= j < |a| ensures a[j] == a'[j] {
      LastQtyOther(prev, s, Fresh(cur, prev)[j].itemName);
    }
  }

  lemma UpdateInPrefix(u: seq<SubItem>, a: seq<SubItem>, k: nat, x: SubItem)
    requires k < |u|
    ensures (u + a)[k := x] == u[k := x] + a
  {
  }

  lemma UpdateInSuffix(u: seq<SubItem>, a: seq<SubItem>, j: nat, x: SubItem)
    requires j < |a|
    ensures (u + a)[|u| + j := x] == u + a[j := x]
  {
  }

  /** A step whose name the existing list already has updates that existing item. */
  lemma MergeStepExisting(cur: seq<SubItem>, prev: seq<SubItem>, s: SubItem)
    requires HasName(cur, s.itemName)
    ensures MergeStep(MergeRef(cur, prev), s) == MergeRef(cur, prev + [s])
  {
    var u', a' := Updated(cur, prev), Appended(cur, prev);
    var k := FindByName(cur, s.itemName);
    var m := u' + a';
    assert FindByName(m, s.itemName) == k by {
      UpdatedNames(cur, prev);
      FindByNameSame(u', cur, s.itemName);
      FindByNameInPrefix(u', a', s.itemName);
    }
    var x := u'[k].(quantity := s.quantity, isSynced := true);
    assert MergeStep(m, s) == m[k := x] by {
      assert m[k] == u'[k];
    }
    UpdateInPrefix(u', a', k, x);
    UpdatedExisting(cur, prev, s);
    AppendedUnchanged(cur, prev, s);
  }

  lemma UpdatedUnchanged(cur: seq<SubItem>, prev: seq<SubItem>, s: SubItem)
    requires !HasName(cur, s.itemName)
    ensures Updated(cur, prev + [s]) == Updated(cur, prev)
  {
    var u', u := Updated(cur, prev), Updated(cur, prev + [s]);
    HasNameExtend(prev, s);
    forall i | 0 <= i < |cur| ensures u[i] == u'[i] {
      if HasName(prev, cur[i].itemName) {
        LastQtyOther(prev, s, cur[i].itemName);
      }
    }
  }

  lemma AppendedRepeated(cur: seq<SubItem>, prev: seq<SubItem>, s: SubItem)
    requires !HasName(cur, s.itemName) && HasName(prev, s.itemName)
    ensures var a' := Appended(cur, prev); var j0 := FindByName(Fresh(cur, prev), s.itemName);
      0 <= j0 < |a'| && Appended(cur, prev + [s]) == a'[j0 := a'[j0].(quantity := s.quantity, isSynced := true)]
  {
    var src := prev + [s];
    assert src[..|src| - 1] == prev;
    var fp := Fresh(cur, prev);
    assert Fresh(cur, src) == fp;
    FreshFacts(cur, prev);
    var a', a := Appended(cur, prev), Appended(cur, src);
    var j0 := FindByName(fp, s.itemName);
    var a2 := a'[j0 := a'[j0].(quantity := s.quantity, isSynced := true)];
    forall j | 0 <= j < |a| ensures a[j] == a2[j] {
      if j == j0 {
        LastQtyLast(prev, s);
      } else {
        LastQtyOther(prev, s, fp[j].itemName);
      }
    }
  }

  /** A step repeating a name the merge appended earlier updates that appended copy. */
  lemma {:induction false} MergeStepRepeated(cur: seq<SubItem>, prev: seq<SubItem>, s: SubItem)
    requires !HasName(cur, s.itemName) && HasName(prev, s.itemName)
    ensures MergeStep(MergeRef(cur, prev), s) == MergeRef(cur, prev + [s])
  {
    var u', a' := Updated(cur, prev), Appended(cur, prev);
    var j0 := FindByName(Fresh(cur, prev), s.itemName);
    AppendedRepeated(cur, prev, s);
    var m := u' + a';
    var x := a'[j0].(quantity := s.quantity, isSynced := true);
    calc {
      MergeStep(MergeRef(cur, prev), s);
      MergeStep(m, s);
    == { RepeatedFound(cur, prev, s.itemName);
         MergeStepAt(m, s, |u'| + j0);
         assert m[|u'| + j0] == a'[j0]; }
      m[|u'| + j0 := x];
    == { UpdateInSuffix(u', a', j0, x); }
      u' + a'[j0 := x];
    == { UpdatedUnchanged(cur, prev, s); }
      Updated(cur, prev + [s]) + Appended(cur, prev + [s]);
    }
  }

  /** A step whose name is first found at `k` updates the item at `k`. */
  lemma MergeStepAt(m: seq<SubItem>, s: SubItem, k: int)
    requires 0 <= k < |m| && FindByName(m, s.itemName) == k
    ensures MergeStep(m, s) == m[k := m[k].(quantity := s.quantity, isSynced := true)]
  {
  }

  /** A name new to `cur` but seen in `prev` is found among the appended copies, at its place in `Fresh`. */
  lemma RepeatedFound(cur: seq<SubItem>, prev: seq<SubItem>, n: string)
    requires !HasName(cur, n) && HasName(prev, n)
    ensures var u', a' := Updated(cur, prev), Appended(cur, prev);
      FindByName(u' + a', n) == |u'| + FindByName(Fresh(cur, prev), n)
  {
    var u', a' := Updated(cur, prev), Appended(cur, prev);
    var fp := Fresh(cur, prev);
    UpdatedNames(cur, prev);
    FreshFacts(cur, prev);
    forall j | 0 <= j < |a'| ensures a'[j].itemName == fp[j].itemName {}
    FindByNameSame(a', fp, n);
    FindByNameInSuffix(u', a', n);
  }

  lemma AppendedNew(cur: seq<SubItem>, prev: seq<SubItem>, s: SubItem)
    requires !HasName(cur, s.itemName) && !HasName(prev, s.itemName)
    ensures Appended(cur, prev + [s]) == Appended(cur, prev) + [Tagged(s)]
  {
    var src := prev + [s];
    var a', a := Appended(cur, prev), Appended(cur, src);
    var fp := Fresh(cur, prev);
    assert src[..|src| - 1] == prev;
    assert Fresh(cur, src) == fp + [s];
    FreshFacts(cur, prev);
    forall j | 0 <= j < |a| ensures a[j] == (a' + [Tagged(s)])[j] {
      if j < |fp| {
        LastQtyOther(prev, s, fp[j].itemName);
      } else {
        LastQtyLast(prev, s);
      }
    }
  }

  /** A step with a name seen for the first time appends its tagged copy. */
  lemma MergeStepNew(cur: seq<SubItem>, prev: seq<SubItem>, s: SubItem)
    requires !HasName(cur, s.itemName) && !HasName(prev, s.itemName)
    ensures MergeStep(MergeRef(cur, prev), s) == MergeRef(cur, prev + [s])
  {
    var u', a' := Updated(cur, prev), Appended(cur, prev);
    var m := u' + a';
    assert FindByName(m, s.itemName) == -1 by {
      UpdatedNames(cur, prev);
      FreshFacts(cur, prev);
      var fp := Fresh(cur, prev);
      forall j | 0 <= j < |a'| ensures a'[j].itemName == fp[j].itemName {}
      assert !HasName(a', s.itemName) by {
        FindByNameSame(a', fp, s.itemName);
      }
      FindByNameInSuffix(u', a', s.itemName);
    }
    assert MergeStep(m, s) == u' + (a' + [Tagged(s)]);
    UpdatedUnchanged(cur, prev, s);
    AppendedNew(cur, prev, s);
  }

  /**
   * The merge loop produces exactly the reference: the existing items in
   * their order (only the first item of each origin name changes, taking the
   * quantity of the last origin item of that name and the flag), followed by
   * tagged copies of the origin's new names in first-occurrence order.
   */
  lemma {:induction false} MergeMatchesReference(cur: seq<SubItem>, src: seq<SubItem>)
    ensures MergeAll(cur, src) == MergeRef(cur, src)
  {
    if |src| == 0 {
      assert Updated(cur, src) == cur;
    } else {
      var prev := src[..|src| - 1];
      var s := src[|src| - 1];
      assert src == prev + [s];
      MergeMatchesReference(cur, prev);
      if HasName(cur, s.itemName) {
        MergeStepExisting(cur, prev, s);
      } else if HasName(prev, s.itemName) {
        MergeStepRepeated(cur, prev, s);
      } else {
        MergeStepNew(cur, prev, s);
      }
    }
  }

  /** The merge never removes or reorders an existing item and changes at most its quantity and flag. */
  lemma MergeNeverRemoves(cur: seq<SubItem>, src: seq<SubItem>)
    ensures |MergeAll(cur, src)| >= |cur|
    ensures forall i :: 0 <= i < |cur| ==>
      MergeAll(cur, src)[i] == cur[i].(quantity := MergeAll(cur, src)[i].quantity, isSynced := MergeAll(cur, src)[i].isSynced)
    ensures forall i :: 0 <= i < |cur| && !HasName(src, cur[i].itemName) ==> MergeAll(cur, src)[i] == cur[i]
  {
    MergeMatchesReference(cur, src);
  }

  /** Every origin name ends up in the merged list, flagged, with the origin's quantity. */
  lemma MergeCarriesOrigin(cur: seq<SubItem>, src: seq<SubItem>, n: string)
    requires HasName(src, n)
    ensures var r := MergeAll(cur, src); var k := FindByName(r, n);
      k >= 0 && r[k].isSynced && r[k].quantity == LastQty(src, n)
      && (HasName(cur, n) <==> k < |cur|)
  {
    MergeMatchesReference(cur, src);
    if HasName(cur, n) {
      RefCarriesExisting(cur, src, n);
    } else {
      RefCarriesNew(cur, src, n);
    }
  }

  lemma RefCarriesExisting(cur: seq<SubItem>, src: seq<SubItem>, n: string)
    requires HasName(src, n) && HasName(cur, n)
    ensures var r := MergeRef(cur, src); var k := FindByName(r, n);
      0 <= k < |cur| && r[k].isSynced && r[k].quantity == LastQty(src, n)
  {
    var u, a := Updated(cur, src), Appended(cur, src);
    UpdatedNames(cur, src);
    FindByNameSame(u, cur, n);
    FindByNameInPrefix(u, a, n);
    var k := FindByName(cur, n);
    assert (u + a)[k] == u[k];
  }

  lemma {:induction false} RefCarriesNew(cur: seq<SubItem>, src: seq<SubItem>, n: string)
    requires HasName(src, n) && !HasName(cur, n)
    ensures var r := MergeRef(cur, src); var k := FindByName(r, n);
      k >= |cur| && r[k].isSynced && r[k].quantity == LastQty(src, n)
  {
    var u, a := Updated(cur, src), Appended(cur, src);
    var f := Fresh(cur, src);
    UpdatedNames(cur, src);
    assert HasName(f, n) && forall j :: 0 <= j < |a| ==> a[j].itemName == f[j].itemName by {
      FreshFacts(cur, src);
    }
    FindByNameSame(a, f, n);
    var j := FindByName(f, n);
    FindByNameInSuffix(u, a, n);
    assert (u + a)[|u| + j] == a[j];
    AppendedAt(cur, src, j);
  }

  /** Each appended copy is flagged and carries its name's last quantity. */
  lemma AppendedAt(cur: seq<SubItem>, src: seq<SubItem>, j: nat)
    requires j < |Fresh(cur, src)|
    ensures var a, f := Appended(cur, src), Fresh(cur, src);
      HasName(src, f[j].itemName) && a[j].isSynced && a[j].quantity == LastQty(src, f[j].itemName)
  {
    FreshFacts(cur, src);
  }

  // ===================================================================
  // Mirror of an edit to a shared slot while sync is on (App.tsx:417-438)
  // ===================================================================

  /**
   * What the `map` makes of one item of another shared slot: `[]` for the
   * `null` that the `filter` then drops. The drop decision reads the flag of
   * the edited slot's OLD item of the same name, not the item's own flag.
   */
  function MirrorOne(si: SubItem, oldSubs: seq<SubItem>, newSubs: seq<SubItem>): seq<SubItem> {
    var m := FindByName(newSubs, si.itemName);
    if m >= 0 then [si.(quantity := newSubs[m].quantity, isSynced := true)]
    else
      var o := FindByName(oldSubs, si.itemName);
      if o >= 0 && oldSubs[o].isSynced then [] else [si]
  }

  /** `mirroredSubItems.map(...).filter(Boolean)`. */
  function MirrorKeep(cur: seq<SubItem>, oldSubs: seq<SubItem>, newSubs: seq<SubItem>): seq<SubItem> {
    if |cur| == 0 then []
    else MirrorKeep(cur[..|cur| - 1], oldSubs, newSubs) + MirrorOne(cur[|cur| - 1], oldSubs, newSubs)
  }

  /** The `newSubItems.forEach` that pushes a tagged copy of every name still missing. */
  function PushMissing(m: seq<SubItem>, newSubs: seq<SubItem>): seq<SubItem> {
    if |newSubs| == 0 then m
    else
      var p := PushMissing(m, newSubs[..|newSubs| - 1]);
      var n := newSubs[|newSubs| - 1];
      if HasName(p, n.itemName) then p else p + [Tagged(n)]
  }

  function Mirror(cur: seq<SubItem>, oldSubs: seq<SubItem>, newSubs: seq<SubItem>): seq<SubItem> {
    PushMissing(MirrorKeep(cur, oldSubs, newSubs), newSubs)
  }

  /** The mirror as the source runs it: filter-map, then push the missing names one by one. */
  method MirrorInto(cur: seq<SubItem>, oldSubs: seq<SubItem>, newSubs: seq<SubItem>) returns (r: seq<SubItem>)
    ensures r == Mirror(cur, oldSubs, newSubs)
  {
    r := MirrorKeep(cur, oldSubs, newSubs);
    for j := 0 to |newSubs|
      invariant r == PushMissing(MirrorKeep(cur, oldSubs, newSubs), newSubs[..j])
    {
      assert newSubs[..j + 1][..j] == newSubs[..j];
      var existsInMirror := FindByName(r, newSubs[j].itemName) > -1;
      if !existsInMirror {
        r := r + [Tagged(newSubs[j])];
      }
    }
    assert newSubs[..|newSubs|] == newSubs;
  }

  /** The mirror drops a name the edited slot's old list had as a synced first item. */
  predicate Dropped(name: string, oldSubs: seq<SubItem>) {
    var o := FindByName(oldSubs, name);
    o >= 0 && oldSubs[o].isSynced
  }

  /** A name the mirror leaves alone: not in the new list, and not dropped. */
  predicate Untouched(name: string, oldSubs: seq<SubItem>, newSubs: seq<SubItem>) {
    !HasName(newSubs, name) && !Dropped(name, oldSubs)
  }

  /** What an item surviving the filter-map is like. */
  predicate KeptOk(x: SubItem, cur: seq<SubItem>, oldSubs: seq<SubItem>, newSubs: seq<SubItem>) {
    && HasName(cur, x.itemName)
    && (HasName(newSubs, x.itemName) ==>
          x.isSynced && x.quantity == newSubs[FindByName(newSubs, x.itemName)].quantity)
    && (!HasName(newSubs, x.itemName) ==> x in cur && !Dropped(x.itemName, oldSubs))
  }

  lemma MirrorKeepMembers(cur: seq<SubItem>, oldSubs: seq<SubItem>, newSubs: seq<SubItem>)
    ensures forall x :: x in MirrorKeep(cur, oldSubs, newSubs) ==> KeptOk(x, cur, oldSubs, newSubs)
    ensures forall i :: 0 <= i < |cur| && !HasName(newSubs, cur[i].itemName) && !Dropped(cur[i].itemName, oldSubs) ==>
      cur[i] in MirrorKeep(cur, oldSubs, newSubs)
  {
    MirrorKeepSound(cur, oldSubs, newSubs);
    MirrorKeepComplete(cur, oldSubs, newSubs);
  }

  lemma {:induction false} MirrorKeepSound(cur: seq<SubItem>, oldSubs: seq<SubItem>, newSubs: seq<SubItem>)
    ensures forall x :: x in MirrorKeep(cur, oldSubs, newSubs) ==> KeptOk(x, cur, oldSubs, newSubs)
  {
    if |cur| > 0 {
      var prev := cur[..|cur| - 1];
      var last := cur[|cur| - 1];
      MirrorKeepSound(prev, oldSubs, newSubs);
      assert cur == prev + [last];
      forall x | x in MirrorKeep(prev, oldSubs, newSubs) ensures KeptOk(x, cur, oldSubs, newSubs) {
        assert KeptOk(x, prev, oldSubs, newSubs);
        var i :| 0 <= i < |prev| && prev[i].itemName == x.itemName;
        assert cur[i] == prev[i];
      }
      assert last.itemName == cur[|cur| - 1].itemName;
    }
  }

  lemma {:induction false} MirrorKeepComplete(cur: seq<SubItem>, oldSubs: seq<SubItem>, newSubs: seq<SubItem>)
    ensures forall i :: 0 <= i < |cur| && !HasName(newSubs, cur[i].itemName) && !Dropped(cur[i].itemName, oldSubs) ==>
      cur[i] in MirrorKeep(cur, oldSubs, newSubs)
  {
    if |cur| > 0 {
      var prev := cur[..|cur| - 1];
      MirrorKeepComplete(prev, oldSubs, newSubs);
      forall i | 0 <= i < |cur| && !HasName(newSubs, cur[i].itemName) && !Dropped(cur[i].itemName, oldSubs)
        ensures cur[i] in MirrorKeep(cur, oldSubs, newSubs)
      {
        if i < |prev| {
          assert prev[i] == cur[i];
        }
      }
    }
  }

  lemma {:induction false} PushMissingPrefix(m: seq<SubItem>, newSubs: seq<SubItem>)
    ensures |PushMissing(m, newSubs)| >= |m| && PushMissing(m, newSubs)[..|m|] == m
  {
    if |newSubs| > 0 {
      PushMissingPrefix(m, newSubs[..|newSubs| - 1]);
    }
  }

  lemma {:induction false} PushMissingPresent(m: seq<SubItem>, newSubs: seq<SubItem>)
    ensures forall k :: 0 <= k < |newSubs| ==> HasName(PushMissing(m, newSubs), newSubs[k].itemName)
    ensures forall n :: HasName(m, n) ==> HasName(PushMissing(m, newSubs), n)
  {
    if |newSubs| > 0 {
      var prevN := newSubs[..|newSubs| - 1];
      var n := newSubs[|newSubs| - 1];
      PushMissingPresent(m, prevN);
      var p := PushMissing(m, prevN);
      var r := PushMissing(m, newSubs);
      if !HasName(p, n.itemName) {
        assert r == p + [Tagged(n)];
        HasNameExtend(p, Tagged(n));
      }
      forall k | 0 <= k < |newSubs| ensures HasName(r, newSubs[k].itemName) {
        if k < |prevN| {
          assert newSubs[k] == prevN[k];
        }
      }
    }
  }

  lemma {:induction false} PushMissingAdded(m: seq<SubItem>, newSubs: seq<SubItem>)
    ensures forall j :: |m| <= j < |PushMissing(m, newSubs)| ==>
      HasName(newSubs, PushMissing(m, newSubs)[j].itemName)
      && PushMissing(m, newSubs)[j] == Tagged(newSubs[FindByName(newSubs, PushMissing(m, newSubs)[j].itemName)])
  {
    if |newSubs| > 0 {
      var prevN := newSubs[..|newSubs| - 1];
      var n := newSubs[|newSubs| - 1];
      assert newSubs == prevN + [n];
      PushMissingAdded(m, prevN);
      PushMissingPrefix(m, prevN);
      var p := PushMissing(m, prevN);
      var r := PushMissing(m, newSubs);
      HasNameExtend(prevN, n);
      forall j | |m| <= j < |p|
        ensures HasName(newSubs, r[j].itemName) && r[j] == Tagged(newSubs[FindByName(newSubs, r[j].itemName)])
      {
        assert r[j] == p[j];
        FindByNameInPrefix(prevN, [n], p[j].itemName);
      }
      if !HasName(p, n.itemName) {
        PushMissingPresent(m, prevN);
        assert !HasName(prevN, n.itemName) by {
          forall k | 0 <= k < |prevN| ensures prevN[k].itemName != n.itemName {}
        }
        FindByNameInSuffix(prevN, [n], n.itemName);
        assert r[|p|] == Tagged(n);
      }
    }
  }

  /** An item of another shared slot survives the mirror: its name is new, or it is not dropped. */
  predicate Survives(si: SubItem, oldSubs: seq<SubItem>, newSubs: seq<SubItem>) {
    HasName(newSubs, si.itemName) || !Dropped(si.itemName, oldSubs)
  }

  /** The surviving items, in their order. */
  function Survivors(cur: seq<SubItem>, oldSubs: seq<SubItem>, newSubs: seq<SubItem>): seq<SubItem> {
    if |cur| == 0 then []
    else Survivors(cur[..|cur| - 1], oldSubs, newSubs)
         + (if Survives(cur[|cur| - 1], oldSubs, newSubs) then [cur[|cur| - 1]] else [])
  }

  lemma {:induction false} SurvivorsMembers(cur: seq<SubItem>, oldSubs: seq<SubItem>, newSubs: seq<SubItem>)
    ensures forall x :: x in Survivors(cur, oldSubs, newSubs) <==> x in cur && Survives(x, oldSubs, newSubs)
  {
    if |cur| > 0 {
      SurvivorsMembers(cur[..|cur| - 1], oldSubs, newSubs);
      assert cur == cur[..|cur| - 1] + [cur[|cur| - 1]];
    }
  }

  /** A surviving item refreshed from the new list: only its quantity and flag can change. */
  function Refresh(si: SubItem, newSubs: seq<SubItem>): (r: SubItem)
    ensures r.(quantity := si.quantity, isSynced := si.isSynced) == si
    ensures HasName(newSubs, si.itemName) ==>
      r.isSynced && r.quantity == newSubs[FindByName(newSubs, si.itemName)].quantity
    ensures !HasName(newSubs, si.itemName) ==> r == si
  {
    var m := FindByName(newSubs, si.itemName);
    if m >= 0 then si.(quantity := newSubs[m].quantity, isSynced := true) else si
  }

  function Refreshed(s: seq<SubItem>, newSubs: seq<SubItem>): (r: seq<SubItem>)
    ensures |r| == |s|
    ensures forall i :: 0 <= i < |s| ==> r[i] == Refresh(s[i], newSubs)
  {
    seq(|s|, i requires 0 <= i < |s| => Refresh(s[i], newSubs))
  }

  /** The filter-map equals filtering the survivors first and refreshing them after. */
  lemma {:induction false} MirrorKeepMatchesReference(cur: seq<SubItem>, oldSubs: seq<SubItem>, newSubs: seq<SubItem>)
    ensures MirrorKeep(cur, oldSubs, newSubs) == Refreshed(Survivors(cur, oldSubs, newSubs), newSubs)
  {
    if |cur| > 0 {
      var prev, last := cur[..|cur| - 1], cur[|cur| - 1];
      MirrorKeepMatchesReference(prev, oldSubs, newSubs);
      var sp := Survivors(prev, oldSubs, newSubs);
      if Survives(last, oldSubs, newSubs) {
        assert Refreshed(sp + [last], newSubs) == Refreshed(sp, newSubs) + [Refresh(last, newSubs)];
        assert MirrorOne(last, oldSubs, newSubs) == [Refresh(last, newSubs)];
      } else {
        assert MirrorOne(last, oldSubs, newSubs) == [];
      }
    }
  }

  /**
   * The mirror into another group's shared slot, in terms of the edited slot's
   * new list `newSubs` and old list `oldSubs`:
   *   - every item whose name is in `newSubs` carries the flag and the quantity
   *     of the first new item of that name;
   *   - every name of `newSubs` is present, and no name outside the slot's own
   *     and `newSubs` appears;
   *   - an item whose name is not in `newSubs` stays, unchanged, exactly when
   *     the edited slot's old list had no flagged first item of that name;
   *   - an item whose name is in `newSubs` stays in place with only its
   *     quantity and flag changed.
   */
  lemma MirrorSpec(cur: seq<SubItem>, oldSubs: seq<SubItem>, newSubs: seq<SubItem>)
    ensures forall x :: x in Mirror(cur, oldSubs, newSubs) && HasName(newSubs, x.itemName) ==>
      x.isSynced && x.quantity == newSubs[FindByName(newSubs, x.itemName)].quantity
    ensures forall x :: x in Mirror(cur, oldSubs, newSubs) && !HasName(newSubs, x.itemName) ==>
      x in cur && !Dropped(x.itemName, oldSubs)
    ensures forall x :: x in Mirror(cur, oldSubs, newSubs) ==> HasName(cur, x.itemName) || HasName(newSubs, x.itemName)
    ensures forall k :: 0 <= k < |newSubs| ==> HasName(Mirror(cur, oldSubs, newSubs), newSubs[k].itemName)
    ensures forall i :: 0 <= i < |cur| && !HasName(newSubs, cur[i].itemName) && !Dropped(cur[i].itemName, oldSubs) ==>
      cur[i] in Mirror(cur, oldSubs, newSubs)
    ensures forall i :: 0 <= i < |cur| && HasName(newSubs, cur[i].itemName) ==>
      cur[i].(quantity := newSubs[FindByName(newSubs, cur[i].itemName)].quantity, isSynced := true)
        in Mirror(cur, oldSubs, newSubs)
  {
    MirrorMembership(cur, oldSubs, newSubs);
    MirrorMatchesReference(cur, oldSubs, newSubs);
  }

  /** The name-level half of `MirrorSpec`. */
  lemma MirrorMembership(cur: seq<SubItem>, oldSubs: seq<SubItem>, newSubs: seq<SubItem>)
    ensures forall x :: x in Mirror(cur, oldSubs, newSubs) && HasName(newSubs, x.itemName) ==>
      x.isSynced && x.quantity == newSubs[FindByName(newSubs, x.itemName)].quantity
    ensures forall x :: x in Mirror(cur, oldSubs, newSubs) && !HasName(newSubs, x.itemName) ==>
      x in cur && !Dropped(x.itemName, oldSubs)
    ensures forall x :: x in Mirror(cur, oldSubs, newSubs) ==> HasName(cur, x.itemName) || HasName(newSubs, x.itemName)
    ensures forall k :: 0 <= k < |newSubs| ==> HasName(Mirror(cur, oldSubs, newSubs), newSubs[k].itemName)
    ensures forall i :: 0 <= i < |cur| && !HasName(newSubs, cur[i].itemName) && !Dropped(cur[i].itemName, oldSubs) ==>
      cur[i] in Mirror(cur, oldSubs, newSubs)
  {
    var m := MirrorKeep(cur, oldSubs, newSubs);
    var r := Mirror(cur, oldSubs, newSubs);
    MirrorKeepMembers(cur, oldSubs, newSubs);
    PushMissingPrefix(m, newSubs);
    PushMissingPresent(m, newSubs);
    PushMissingAdded(m, newSubs);
    forall x | x in r ensures KeptOk(x, cur, oldSubs, newSubs) || (HasName(newSubs, x.itemName) && x == Tagged(newSubs[FindByName(newSubs, x.itemName)])) {
      var j :| 0 <= j < |r| && r[j] == x;
      if j < |m| {
        assert r[..|m|][j] == m[j];
        assert x in m;
      }
    }
    forall i | 0 <= i < |cur| && !HasName(newSubs, cur[i].itemName) && !Dropped(cur[i].itemName, oldSubs)
      ensures cur[i] in r
    {
      var j :| 0 <= j < |m| && m[j] == cur[i];
      assert r[..|m|][j] == m[j];
    }
  }

  /**
   * The mirror equals an independent reference: keep the surviving items in
   * their order, refresh each from the new list, then push the missing
   * names. So the kept items come first, in order, each changed only in
   * quantity and flag, and an item whose name is new is updated in place.
   */
  lemma MirrorMatchesReference(cur: seq<SubItem>, oldSubs: seq<SubItem>, newSubs: seq<SubItem>)
    ensures Mirror(cur, oldSubs, newSubs) == PushMissing(Refreshed(Survivors(cur, oldSubs, newSubs), newSubs), newSubs)
    ensures var kept := Survivors(cur, oldSubs, newSubs);
      |kept| <= |Mirror(cur, oldSubs, newSubs)|
      && forall i :: 0 <= i < |kept| ==> Mirror(cur, oldSubs, newSubs)[i] == Refresh(kept[i], newSubs)
    ensures forall i :: 0 <= i < |cur| && HasName(newSubs, cur[i].itemName) ==>
      cur[i].(quantity := newSubs[FindByName(newSubs, cur[i].itemName)].quantity, isSynced := true)
        in Mirror(cur, oldSubs, newSubs)
  {
    var m := MirrorKeep(cur, oldSubs, newSubs);
    var r := Mirror(cur, oldSubs, newSubs);
    var kept := Survivors(cur, oldSubs, newSubs);
    MirrorKeepMatchesReference(cur, oldSubs, newSubs);
    PushMissingPrefix(m, newSubs);
    forall i | 0 <= i < |kept| ensures r[i] == Refresh(kept[i], newSubs) {
      assert r[..|m|][i] == m[i];
    }
    SurvivorsMembers(cur, oldSubs, newSubs);
    forall i | 0 <= i < |cur| && HasName(newSubs, cur[i].itemName)
      ensures cur[i].(quantity := newSubs[FindByName(newSubs, cur[i].itemName)].quantity, isSynced := true) in r
    {
      assert Survives(cur[i], oldSubs, newSubs);
      var j :| 0 <= j < |kept| && kept[j] == cur[i];
      assert r[j] == Refresh(kept[j], newSubs);
    }
  }

  // ===================================================================
  // Teardown when a shared slot is emptied while sync is on (App.tsx:405-416)
  // ===================================================================

  /** `subItems.filter(si => !si.isSynced)`. */
  function Unsynced(s: seq<SubItem>): seq<SubItem> {
    if |s| == 0 then []
    else Unsynced(s[..|s| - 1]) + (if s[|s| - 1].isSynced then [] else [s[|s| - 1]])
  }

  /** The teardown keeps exactly the locally authored items. */
  lemma {:induction false} UnsyncedMembers(s: seq<SubItem>)
    ensures forall x :: x in Unsynced(s) <==> x in s && !x.isSynced
  {
    if |s| > 0 {
      var prev := s[..|s| - 1];
      UnsyncedMembers(prev);
      assert s == prev + [s[|s| - 1]];
    }
  }

  /** The teardown keeps the order: it distributes over concatenation. */
  lemma {:induction false} UnsyncedAppend(s: seq<SubItem>, t: seq<SubItem>)
    ensures Unsynced(s + t) == Unsynced(s) + Unsynced(t)
  {
    if |t| == 0 {
      assert s + t == s;
    } else {
      var prev := t[..|t| - 1];
      UnsyncedAppend(s, prev);
      assert (s + t)[..|s + t| - 1] == s + prev;
      assert (s + t)[|s + t| - 1] == t[|t| - 1];
    }
  }

  /** A list without synced items survives the teardown whole. */
  lemma {:induction false} UnsyncedOfLocal(s: seq<SubItem>)
    requires forall i :: 0 <= i < |s| ==> !s[i].isSynced
    ensures Unsynced(s) == s
  {
    if |s| > 0 {
      UnsyncedOfLocal(s[..|s| - 1]);
      assert s == s[..|s| - 1] + [s[|s| - 1]];
    }
  }

  // ===================================================================
  // Seat markers (App.tsx:447-456)
  // ===================================================================

  const SEAT_MARKER: string := "◰"
  const OTHER_SEATS: seq<string> := ["◱", "◳", "◲"]

  /** How many slots before `i`, other than the target `t`, have an empty avatar. */
  function EmptyBefore(items: seq<Slot>, t: int, i: nat): nat
    requires i <= |items|
  {
    if i == 0 then 0
    else EmptyBefore(items, t, i - 1) + (if i - 1 != t && items[i - 1].avatar == "" then 1 else 0)
  }

  /** Whether slot `i` is one the rotation writes: empty, not the target, and among the first three such. */
  predicate GetsSeat(items: seq<Slot>, t: int, i: nat)
    requires i < |items|
  {
    i != t && items[i].avatar == "" && EmptyBefore(items, t, i) < |OTHER_SEATS|
  }

  /** The rotation: the k-th empty slot other than the target (k < 3) gets the k-th remaining marker. */
  function Rotated(items: seq<Slot>, t: int): (r: seq<Slot>)
    ensures |r| == |items|
  {
    seq(|items|, i requires 0 <= i < |items| =>
      if GetsSeat(items, t, i) then items[i].(avatar := OTHER_SEATS[EmptyBefore(items, t, i)]) else items[i])
  }

  /** The source's `for` loop with its running marker index. */
  method RotateSeats(items: seq<Slot>, t: int) returns (r: seq<Slot>)
    ensures r == Rotated(items, t)
  {
    r := items;
    var idx := 0;
    for i := 0 to |items|
      invariant |r| == |items|
      invariant idx == if EmptyBefore(items, t, i) < 3 then EmptyBefore(items, t, i) else 3
      invariant forall j :: 0 <= j < i ==> r[j] == Rotated(items, t)[j]
      invariant forall j :: i <= j < |items| ==> r[j] == items[j]
    {
      if i != t && r[i].avatar == "" && r[i].avatar != SHARED_AVATAR && idx < |OTHER_SEATS| {
        r := r[i := r[i].(avatar := OTHER_SEATS[idx])];
        idx := idx + 1;
      }
    }
  }

  lemma {:induction false} EmptyBeforeMonotone(items: seq<Slot>, t: int, i: nat, j: nat)
    requires i < j <= |items|
    requires i != t && items[i].avatar == ""
    ensures EmptyBefore(items, t, i) < EmptyBefore(items, t, j)
  {
    if j > i + 1 {
      EmptyBeforeMonotone(items, t, i, j - 1);
    }
  }

  /**
   * The rotation writes only empty slots other than the target, gives each of
   * the three markers to at most one slot, and writes the markers in array
   * order; every other slot is unchanged.
   */
  lemma RotationSpec(items: seq<Slot>, t: int)
    ensures forall i :: 0 <= i < |items| && (i == t || items[i].avatar != "") ==> Rotated(items, t)[i] == items[i]
    ensures forall i :: 0 <= i < |items| && GetsSeat(items, t, i) ==> Rotated(items, t)[i].avatar in OTHER_SEATS
    ensures forall i, j :: 0 <= i < j < |items| && GetsSeat(items, t, i) && GetsSeat(items, t, j) ==>
      Rotated(items, t)[i].avatar != Rotated(items, t)[j].avatar
  {
    forall i, j | 0 <= i < j < |items| && GetsSeat(items, t, i) && GetsSeat(items, t, j)
      ensures Rotated(items, t)[i].avatar != Rotated(items, t)[j].avatar
    {
      EmptyBeforeMonotone(items, t, i, j);
    }
  }

  // ===================================================================
  // Activation (App.tsx:357-396)
  // ===================================================================

  /** The first table holding a slot with id `orderId`, or -1. */
  function FindGroupWithSlot(gs: seq<Group>, orderId: string): (r: int)
    ensures -1 <= r < |gs|
    ensures r >= 0 ==> FindSlotIndex(gs[r].items, orderId) >= 0
    ensures r >= 0 ==> forall k :: 0 <= k < r ==> FindSlotIndex(gs[k].items, orderId) < 0
    ensures r == -1 ==> forall k :: 0 <= k < |gs| ==> FindSlotIndex(gs[k].items, orderId) < 0
  {
    if |gs| == 0 then -1
    else if FindSlotIndex(gs[0].items, orderId) >= 0 then 0
    else
      var k := FindGroupWithSlot(gs[1..], orderId);
      if k == -1 then -1 else k + 1
  }

  /**
   * One slot after activation: in the source table, the slots with the
   * origin id receive the tagged copy; elsewhere every shared slot merges it.
   */
  function ActivateSlot(p: Slot, inSource: bool, orderId: string, synced: seq<SubItem>): Slot {
    if inSource then (if p.id == orderId then p.(subItems := synced) else p)
    else if IsShared(p) then p.(subItems := MergeAll(p.subItems, synced))
    else p
  }

  function ActivateGroup(g: Group, sourceId: string, orderId: string, synced: seq<SubItem>): (r: Group)
    ensures r.id == g.id && r.name == g.name && |r.items| == |g.items|
  {
    g.(items := seq(|g.items|, j requires 0 <= j < |g.items| => ActivateSlot(g.items[j], g.id == sourceId, orderId, synced)))
  }

  /** The origin slot's sub-items, all tagged as synced. */
  function OriginMenu(gs: seq<Group>, k: nat, orderId: string): seq<SubItem>
    requires k < |gs| && FindSlotIndex(gs[k].items, orderId) >= 0
  {
    TagAll(gs[k].items[FindSlotIndex(gs[k].items, orderId)].subItems)
  }

  /** `handleCopySharedMenuToAll` when sync is off: `None` when no table holds the slot. */
  function Activate(gs: seq<Group>, orderId: string): (r: Option<seq<Group>>)
    ensures r.Some? <==> FindSlot(gs, orderId).Some?
  {
    var k := FindGroupWithSlot(gs, orderId);
    FindSlotInGroups(gs, orderId);
    if k < 0 then None
    else
      var synced := OriginMenu(gs, k, orderId);
      Some(seq(|gs|, i requires 0 <= i < |gs| => ActivateGroup(gs[i], gs[k].id, orderId, synced)))
  }

  /** A slot id occurs somewhere in the tree exactly when some table holds it. */
  lemma FindSlotInGroups(gs: seq<Group>, orderId: string)
    ensures FindSlot(gs, orderId).Some? <==> exists k :: 0 <= k < |gs| && FindSlotIndex(gs[k].items, orderId) >= 0
  {
    var slots := AllSlots(gs);
    if FindSlot(gs, orderId).Some? {
      var x := slots[FindSlotIndex(slots, orderId)];
      InAllSlots(gs, x);
      var k :| 0 <= k < |gs| && x in gs[k].items;
      assert FindSlotIndex(gs[k].items, orderId) >= 0;
    }
    if exists k :: 0 <= k < |gs| && FindSlotIndex(gs[k].items, orderId) >= 0 {
      var k :| 0 <= k < |gs| && FindSlotIndex(gs[k].items, orderId) >= 0;
      var x := gs[k].items[FindSlotIndex(gs[k].items, orderId)];
      InAllSlots(gs, x);
      assert x in slots;
    }
  }

  /** The flattened slots are exactly the slots of the tables. */
  lemma {:induction false} InAllSlots(gs: seq<Group>, x: Slot)
    ensures x in AllSlots(gs) <==> exists k :: 0 <= k < |gs| && x in gs[k].items
  {
    if |gs| > 0 {
      var prev := gs[..|gs| - 1];
      InAllSlots(prev, x);
      assert AllSlots(gs) == AllSlots(prev) + gs[|gs| - 1].items;
      assert forall k :: 0 <= k < |prev| ==> prev[k] == gs[k];
    }
  }

  /** The activation as the source runs it: a `map` over tables and slots with the merge loop inside. */
  method ActivateTables(gs: seq<Group>, orderId: string) returns (r: Option<seq<Group>>)
    ensures r == Activate(gs, orderId)
  {
    var k := FindGroupWithSlot(gs, orderId);
    if k < 0 {
      return None;
    }
    var synced := OriginMenu(gs, k, orderId);
    var sourceId := gs[k].id;
    var out: seq<Group> := [];
    for i := 0 to |gs|
      invariant |out| == i
      invariant forall m :: 0 <= m < i ==> out[m] == ActivateGroup(gs[m], sourceId, orderId, synced)
    {
      var items := ActivateItems(gs[i], sourceId, orderId, synced);
      out := out + [gs[i].(items := items)];
    }
    assert out == Activate(gs, orderId).value;
    r := Some(out);
  }

  /** The inner `map` over one table's slots. */
  method ActivateItems(g: Group, sourceId: string, orderId: string, synced: seq<SubItem>) returns (items: seq<Slot>)
    ensures g.(items := items) == ActivateGroup(g, sourceId, orderId, synced)
  {
    items := [];
    for j := 0 to |g.items|
      invariant |items| == j
      invariant forall m :: 0 <= m < j ==> items[m] == ActivateSlot(g.items[m], g.id == sourceId, orderId, synced)
    {
      var p := g.items[j];
      if g.id == sourceId {
        if p.id == orderId {
          p := p.(subItems := synced);
        }
      } else if IsShared(p) {
        var merged := MergeSynced(p.subItems, synced);
        p := p.(subItems := merged);
      }
      items := items + [p];
    }
  }

  /**
   * A shared slot of another table after the merge: it keeps its items in
   * place, and an origin name is present with the origin's last quantity and
   * the flag.
   */
  lemma ActivateSharedSlot(p: Slot, orderId: string, synced: seq<SubItem>, n: string)
    requires IsShared(p)
    ensures var before, after := p.subItems, ActivateSlot(p, false, orderId, synced).subItems;
      && |after| >= |before|
      && (forall m :: 0 <= m < |before| && !HasName(synced, before[m].itemName) ==> after[m] == before[m])
      && (HasName(synced, n) ==>
            var x := FindByName(after, n);
            x >= 0 && after[x].isSynced && after[x].quantity == LastQty(synced, n))
  {
    MergeNeverRemoves(p.subItems, synced);
    if HasName(synced, n) {
      MergeCarriesOrigin(p.subItems, synced, n);
    }
  }

  /**
   * After activation the slots with the origin id in the source table hold
   * the origin menu, tagged; every shared slot of every other table keeps its
   * items and holds each origin name, tagged, with the origin's quantity;
   * every other slot is unchanged.
   */
  lemma ActivationSpec(gs: seq<Group>, orderId: string, n: string)
    requires FindGroupWithSlot(gs, orderId) >= 0
    ensures var k := FindGroupWithSlot(gs, orderId);
      var synced := OriginMenu(gs, k, orderId);
      var r := Activate(gs, orderId).value;
      && |r| == |gs|
      && (forall i, j :: 0 <= i < |gs| && 0 <= j < |gs[i].items| && gs[i].id == gs[k].id ==>
            r[i].items[j] == if gs[i].items[j].id == orderId then gs[i].items[j].(subItems := synced) else gs[i].items[j])
      && (forall i, j :: 0 <= i < |gs| && 0 <= j < |gs[i].items| && gs[i].id != gs[k].id && !IsShared(gs[i].items[j]) ==>
            r[i].items[j] == gs[i].items[j])
      && (forall i, j :: 0 <= i < |gs| && 0 <= j < |gs[i].items| && gs[i].id != gs[k].id && IsShared(gs[i].items[j]) ==>
            var before, after := gs[i].items[j].subItems, r[i].items[j].subItems;
            && |after| >= |before|
            && (forall m :: 0 <= m < |before| && !HasName(synced, before[m].itemName) ==> after[m] == before[m])
            && (HasName(synced, n) ==>
                  var x := FindByName(after, n);
                  x >= 0 && after[x].isSynced && after[x].quantity == LastQty(synced, n)))
  {
    var k := FindGroupWithSlot(gs, orderId);
    var synced := OriginMenu(gs, k, orderId);
    var r := Activate(gs, orderId).value;
    forall i, j | 0 <= i < |gs| && 0 <= j < |gs[i].items|
      ensures r[i].items[j] == ActivateSlot(gs[i].items[j], gs[i].id == gs[k].id, orderId, synced)
    {
      assert r[i] == ActivateGroup(gs[i], gs[k].id, orderId, synced);
    }
    forall i, j | 0 <= i < |gs| && 0 <= j < |gs[i].items| && gs[i].id != gs[k].id && IsShared(gs[i].items[j])
      ensures var before, after := gs[i].items[j].subItems, r[i].items[j].subItems;
        && |after| >= |before|
        && (forall m :: 0 <= m < |before| && !HasName(synced, before[m].itemName) ==> after[m] == before[m])
        && (HasName(synced, n) ==>
              var x := FindByName(after, n);
              x >= 0 && after[x].isSynced && after[x].quantity == LastQty(synced, n))
    {
      ActivateSharedSlot(gs[i].items[j], orderId, synced, n);
    }
  }

  // ===================================================================
  // updateOrder (App.tsx:398-462)
  // ===================================================================

  /** Teardown: the edited shared slot is emptied, every other shared slot keeps its local items. */
  function TeardownSlot(p: Slot, id: string): Slot {
    if !IsShared(p) then p
    else if p.id == id then p.(subItems := [])
    else p.(subItems := Unsynced(p.subItems))
  }

  /** Mirror: the edited shared slot takes the update, every other shared slot mirrors its new list. */
  function MirrorSlot(p: Slot, id: string, u: SlotUpdate, oldSubs: seq<SubItem>, newSubs: seq<SubItem>): Slot {
    if !IsShared(p) then p
    else if p.id == id then ApplyUpdate(p, u)
    else p.(subItems := Mirror(p.subItems, oldSubs, newSubs))
  }

  /**
   * The local path in one table: the first slot with the id takes the update;
   * when an avatar-less slot gets the seat marker, the other empty slots are
   * rotated through the remaining markers.
   */
  function LocalUpdate(g: Group, id: string, u: SlotUpdate): Group {
    var t := FindSlotIndex(g.items, id);
    if t < 0 then g
    else
      var items := g.items[t := ApplyUpdate(g.items[t], u)];
      if g.items[t].avatar == "" && u.avatar == Some(SEAT_MARKER) then g.(items := Rotated(items, t))
      else g.(items := items)
  }

  /** Whether an update goes through the shared-menu sync: sync on, a shared target, and a new list. */
  predicate SyncRoute(gs: seq<Group>, syncActive: bool, id: string, u: SlotUpdate) {
    syncActive && FindSlot(gs, id).Some? && IsShared(FindSlot(gs, id).value) && u.subItems.Some?
  }

  function UpdateOrder(gs: seq<Group>, syncActive: bool, id: string, u: SlotUpdate): (r: seq<Group>)
    ensures |r| == |gs|
  {
    if SyncRoute(gs, syncActive, id, u) then
      var newSubs := u.subItems.value;
      if |newSubs| == 0 then MapSlots(gs, (p: Slot) => TeardownSlot(p, id))
      else MapSlots(gs, (p: Slot) => MirrorSlot(p, id, u, FindSlot(gs, id).value.subItems, newSubs))
    else seq(|gs|, k requires 0 <= k < |gs| => LocalUpdate(gs[k], id, u))
  }

  /** `updateOrder` as the source runs it, with the mirror's push loop and the rotation loop. */
  method UpdateTables(gs: seq<Group>, syncActive: bool, id: string, u: SlotUpdate) returns (r: seq<Group>)
    ensures r == UpdateOrder(gs, syncActive, id, u)
  {
    var target := FindSlot(gs, id);
    if syncActive && target.Some? && IsShared(target.value) && u.subItems.Some? {
      var oldSubs := target.value.subItems;
      var newSubs := u.subItems.value;
      if |newSubs| == 0 {
        return MapSlots(gs, (p: Slot) => TeardownSlot(p, id));
      }
      r := [];
      for k := 0 to |gs|
        invariant |r| == k
        invariant forall m :: 0 <= m < k ==> r[m] == MapSlots(gs, (p: Slot) => MirrorSlot(p, id, u, oldSubs, newSubs))[m]
      {
        var items := MirrorItems(gs[k], id, u, oldSubs, newSubs);
        r := r + [gs[k].(items := items)];
      }
    } else {
      r := [];
      for k := 0 to |gs|
        invariant |r| == k
        invariant forall m :: 0 <= m < k ==> r[m] == LocalUpdate(gs[m], id, u)
      {
        var g := LocalTable(gs[k], id, u);
        r := r + [g];
      }
    }
  }

  /** The mirror's inner `map` over one table's slots. */
  method MirrorItems(g: Group, id: string, u: SlotUpdate, oldSubs: seq<SubItem>, newSubs: seq<SubItem>)
    returns (items: seq<Slot>)
    ensures |items| == |g.items|
    ensures forall m :: 0 <= m < |items| ==> items[m] == MirrorSlot(g.items[m], id, u, oldSubs, newSubs)
  {
    items := [];
    for j := 0 to |g.items|
      invariant |items| == j
      invariant forall m :: 0 <= m < j ==> items[m] == MirrorSlot(g.items[m], id, u, oldSubs, newSubs)
    {
      var p := g.items[j];
      if IsShared(p) {
        if p.id == id {
          p := ApplyUpdate(p, u);
        } else {
          var mirrored := MirrorInto(p.subItems, oldSubs, newSubs);
          p := p.(subItems := mirrored);
        }
      }
      items := items + [p];
    }
  }

  /** The local path for one table: apply the update to the slot, then rotate the seat markers. */
  method LocalTable(g0: Group, id: string, u: SlotUpdate) returns (g: Group)
    ensures g == LocalUpdate(g0, id, u)
  {
    g := g0;
    var t := FindSlotIndex(g.items, id);
    if t > -1 {
      var beforeAvatar := g.items[t].avatar;
      var items := g.items[t := ApplyUpdate(g.items[t], u)];
      if beforeAvatar == "" && u.avatar == Some(SEAT_MARKER) {
        items := RotateSeats(items, t);
      }
      g := g.(items := items);
    }
  }

  /** Every path keeps the tables, their names and ids, and every slot's id. */
  lemma UpdateOrderKeepsShape(gs: seq<Group>, syncActive: bool, id: string, u: SlotUpdate)
    ensures var r := UpdateOrder(gs, syncActive, id, u);
      forall k :: 0 <= k < |gs| ==>
        && r[k].id == gs[k].id && r[k].name == gs[k].name && |r[k].items| == |gs[k].items|
        && forall j :: 0 <= j < |gs[k].items| ==> r[k].items[j].id == gs[k].items[j].id
  {
  }

  /**
   * Emptying a shared slot under sync empties that slot and strips exactly
   * the synced items from every other shared slot; person slots are untouched.
   */
  lemma TeardownRoute(gs: seq<Group>, id: string, u: SlotUpdate)
    requires SyncRoute(gs, true, id, u) && u.subItems.value == []
    ensures var r := UpdateOrder(gs, true, id, u);
      forall k, j :: 0 <= k < |gs| && 0 <= j < |gs[k].items| ==>
        var before, after := gs[k].items[j], r[k].items[j];
        && (!IsShared(before) ==> after == before)
        && (IsShared(before) && before.id == id ==> after == before.(subItems := []))
        && (IsShared(before) && before.id != id ==>
              after == before.(subItems := Unsynced(before.subItems))
              && forall x :: x in after.subItems <==> x in before.subItems && !x.isSynced)
  {
    forall p: Slot {
      UnsyncedMembers(p.subItems);
    }
  }

  /**
   * A new list under sync: the edited shared slot takes the update, and every
   * other shared slot afterwards holds every new name, carries the edited
   * slot's first quantity on each synced item, and keeps each local item whose
   * name neither appears in the new list nor was synced in the old one.
   */
  lemma MirrorRoute(gs: seq<Group>, id: string, u: SlotUpdate)
    requires SyncRoute(gs, true, id, u) && u.subItems.value != []
    ensures var r := UpdateOrder(gs, true, id, u);
      var oldSubs, newSubs := FindSlot(gs, id).value.subItems, u.subItems.value;
      forall k, j :: 0 <= k < |gs| && 0 <= j < |gs[k].items| ==>
        var before, after := gs[k].items[j], r[k].items[j];
        && (!IsShared(before) ==> after == before)
        && (IsShared(before) && before.id == id ==> after == ApplyUpdate(before, u))
        && (IsShared(before) && before.id != id ==>
              && after.avatar == before.avatar && after.memo == before.memo
              && (forall m :: 0 <= m < |newSubs| ==> HasName(after.subItems, newSubs[m].itemName))
              && (forall x :: x in after.subItems && HasName(newSubs, x.itemName) ==>
                    x.isSynced && x.quantity == newSubs[FindByName(newSubs, x.itemName)].quantity)
              && (forall i :: 0 <= i < |before.subItems| && Untouched(before.subItems[i].itemName, oldSubs, newSubs) ==>
                    before.subItems[i] in after.subItems)
              && after.subItems == Mirror(before.subItems, oldSubs, newSubs)
              && RefreshedInPlace(before.subItems, oldSubs, newSubs, after.subItems))
  {
    var oldSubs, newSubs := FindSlot(gs, id).value.subItems, u.subItems.value;
    forall p: Slot {
      MirrorMembership(p.subItems, oldSubs, newSubs);
    }
    forall k, j | 0 <= k < |gs| && 0 <= j < |gs[k].items| {
      MirrorInPlace(gs[k].items[j].subItems, oldSubs, newSubs);
    }
  }

  /**
   * The surviving items open the result in their order, each changed only in
   * quantity and flag; an item with a new name is updated in place.
   */
  predicate RefreshedInPlace(cur: seq<SubItem>, oldSubs: seq<SubItem>, newSubs: seq<SubItem>, r: seq<SubItem>) {
    var kept := Survivors(cur, oldSubs, newSubs);
    && |kept| <= |r|
    && (forall i :: 0 <= i < |kept| ==> r[i] == Refresh(kept[i], newSubs))
    && forall i :: 0 <= i < |cur| && HasName(newSubs, cur[i].itemName) ==>
         cur[i].(quantity := newSubs[FindByName(newSubs, cur[i].itemName)].quantity, isSynced := true) in r
  }

  lemma MirrorInPlace(cur: seq<SubItem>, oldSubs: seq<SubItem>, newSubs: seq<SubItem>)
    ensures RefreshedInPlace(cur, oldSubs, newSubs, Mirror(cur, oldSubs, newSubs))
  {
    MirrorMatchesReference(cur, oldSubs, newSubs);
  }

  /** Receives a remaining seat marker in place of its empty avatar. */
  predicate Seated(before: Slot, after: Slot) {
    before.avatar == "" && after == before.(avatar := after.avatar) && after.avatar in OTHER_SEATS
  }

  lemma LocalUpdateSpec(g: Group, id: string, u: SlotUpdate)
    ensures var r, t := LocalUpdate(g, id, u), FindSlotIndex(g.items, id);
      && r.id == g.id && r.name == g.name && |r.items| == |g.items|
      && (t < 0 ==> r == g)
      && (t >= 0 ==> r.items[t] == ApplyUpdate(g.items[t], u))
      && (t >= 0 ==> forall j :: 0 <= j < |g.items| && j != t ==>
            r.items[j] == g.items[j]
            || (g.items[t].avatar == "" && u.avatar == Some(SEAT_MARKER) && Seated(g.items[j], r.items[j])))
  {
    var t := FindSlotIndex(g.items, id);
    if t >= 0 {
      RotationSpec(g.items[t := ApplyUpdate(g.items[t], u)], t);
    }
  }

  /**
   * Outside the sync route only the first slot with the id in each table
   * changes, by taking the update, except that a seat-marker assignment to an
   * avatar-less slot also gives the remaining markers to empty slots.
   */
  lemma LocalRoute(gs: seq<Group>, syncActive: bool, id: string, u: SlotUpdate)
    requires !SyncRoute(gs, syncActive, id, u)
    ensures var r := UpdateOrder(gs, syncActive, id, u);
      forall k :: 0 <= k < |gs| ==>
        var t := FindSlotIndex(gs[k].items, id);
        && (t < 0 ==> r[k] == gs[k])
        && (t >= 0 ==> r[k].items[t] == ApplyUpdate(gs[k].items[t], u))
        && (t >= 0 ==> forall j :: 0 <= j < |gs[k].items| && j != t ==>
              r[k].items[j] == gs[k].items[j]
              || (gs[k].items[t].avatar == "" && u.avatar == Some(SEAT_MARKER) && Seated(gs[k].items[j], r[k].items[j])))
  {
    forall g: Group {
      LocalUpdateSpec(g, id, u);
    }
  }

  /**
   * The drop rule reads the flag of the edited slot's old item of the same
   * name, not the mirrored item's own flag: a synced item whose name the
   * edited slot never had survives, and a local item whose name the edited
   * slot had as synced is removed.
   */
  lemma MirrorDropRuleExamples()
    ensures var coffee := SubItem("a1", "아메리카노", Drink, Some(Hot), Some(Tall), 1, "", false);
      var latte := SubItem("b1", "카페라떼", Drink, Some(Hot), Some(Tall), 1, "", true);
      var muffin := SubItem("b2", "머핀", Dessert, None, None, 1, "", false);
      && Mirror([latte], [], [coffee]) == [latte, Tagged(coffee)]
      && Mirror([muffin], [muffin.(id := "a2", isSynced := true)], [coffee]) == [Tagged(coffee)]
  {
    var coffee := SubItem("a1", "아메리카노", Drink, Some(Hot), Some(Tall), 1, "", false);
    var latte := SubItem("b1", "카페라떼", Drink, Some(Hot), Some(Tall), 1, "", true);
    var muffin := SubItem("b2", "머핀", Dessert, None, None, 1, "", false);
    assert FindByName([coffee], latte.itemName) == -1;
    assert MirrorKeep([latte], [], [coffee]) == [latte];
    assert !HasName([latte], coffee.itemName);
    assert FindByName([coffee], muffin.itemName) == -1;
    assert MirrorKeep([muffin], [muffin.(id := "a2", isSynced := true)], [coffee]) == [];
  }
}
