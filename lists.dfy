/**
 * List operations the application builds its editors from: `indexOf`,
 * `filter(x => x !== v)`, `[...new Set(s)]` and dnd-kit's `arrayMove`.
 */
module Lists {

  predicate NoDup<T(==)>(s: seq<T>) {
    forall i, j :: 0 <= i < j < |s| ==> s[i] != s[j]
  }

  /** `s.indexOf(x)`: the first index holding `x`, or -1. */
  function IndexOf<T(==)>(s: seq<T>, x: T): (r: int)
    ensures -1 <= r < |s|
    ensures r >= 0 ==> s[r] == x && forall j :: 0 <= j < r ==> s[j] != x
    ensures r == -1 <==> x !in s
  {
    if |s| == 0 then -1
    else if s[0] == x then 0
    else
      var k := IndexOf(s[1..], x);
      assert x in s[1..] ==> x in s;
      assert x in s && s[0] != x ==> x in s[1..];
      if k == -1 then -1 else k + 1
  }

  /** `s.findIndex(p)` from index `i` on: the first index whose element satisfies `p`, or -1. */
  function FirstWhere<T>(s: seq<T>, p: T -> bool, i: nat): (r: int)
    requires i <= |s|
    decreases |s| - i
    ensures r == -1 || i <= r < |s|
    ensures r >= 0 ==> p(s[r]) && forall j :: i <= j < r ==> !p(s[j])
    ensures r == -1 ==> forall j :: i <= j < |s| ==> !p(s[j])
  {
    if i == |s| then -1
    else if p(s[i]) then i
    else FirstWhere(s, p, i + 1)
  }

  /** `s.filter(y => y !== x)`. */
  function RemoveAll<T(==)>(s: seq<T>, x: T): (r: seq<T>)
    ensures |r| <= |s|
  {
    if |s| == 0 then []
    else RemoveAll(s[..|s| - 1], x) + (if s[|s| - 1] == x then [] else [s[|s| - 1]])
  }

  /** Removing drops exactly `x` and keeps every other element. */
  lemma {:induction false} RemoveAllMembers<T>(s: seq<T>, x: T)
    ensures forall y :: y in RemoveAll(s, x) <==> y in s && y != x
  {
    if |s| > 0 {
      RemoveAllMembers(s[..|s| - 1], x);
      assert s == s[..|s| - 1] + [s[|s| - 1]];
    }
  }

  /** Removing keeps the relative order: it distributes over concatenation. */
  lemma {:induction false} RemoveAllAppend<T>(a: seq<T>, b: seq<T>, x: T)
    ensures RemoveAll(a + b, x) == RemoveAll(a, x) + RemoveAll(b, x)
  {
    if |b| == 0 {
      assert a + b == a;
    } else {
      RemoveAllAppend(a, b[..|b| - 1], x);
      assert (a + b)[..|a + b| - 1] == a + b[..|b| - 1];
    }
  }

  lemma {:induction false} RemoveAllNoDup<T>(s: seq<T>, x: T)
    requires NoDup(s)
    ensures NoDup(RemoveAll(s, x))
  {
    if |s| > 0 {
      var prev := s[..|s| - 1];
      RemoveAllNoDup(prev, x);
      RemoveAllMembers(prev, x);
      assert s[|s| - 1] !in prev;
    }
  }

  /** `[...new Set(s)]`: the first occurrence of each element, in order. */
  function Dedup<T(==)>(s: seq<T>): seq<T> {
    if |s| == 0 then []
    else
      var d := Dedup(s[..|s| - 1]);
      if s[|s| - 1] in d then d else d + [s[|s| - 1]]
  }

  /** The set keeps every element once and adds nothing. */
  lemma {:induction false} DedupSpec<T>(s: seq<T>)
    ensures NoDup(Dedup(s))
    ensures forall x :: x in Dedup(s) <==> x in s
  {
    if |s| > 0 {
      DedupSpec(s[..|s| - 1]);
      assert s == s[..|s| - 1] + [s[|s| - 1]];
    }
  }

  /** A list without duplicates passes through the set unchanged. */
  lemma {:induction false} DedupOfNoDup<T>(s: seq<T>)
    requires NoDup(s)
    ensures Dedup(s) == s
  {
    if |s| > 0 {
      DedupOfNoDup(s[..|s| - 1]);
      assert s[|s| - 1] !in s[..|s| - 1];
    }
  }

  /** `[...new Set([...s, x])]` on a list without duplicates: append `x` unless present. */
  lemma AddUnique<T>(s: seq<T>, x: T)
    requires NoDup(s)
    ensures Dedup(s + [x]) == if x in s then s else s + [x]
    ensures NoDup(Dedup(s + [x]))
  {
    DedupOfNoDup(s);
    assert (s + [x])[..|s|] == s;
    DedupSpec(s + [x]);
  }

  /** dnd-kit's `arrayMove`: take the element at `from` out, then insert it at `to`. */
  function Move<T>(s: seq<T>, from: nat, to: nat): (r: seq<T>)
    requires from < |s| && to < |s|
  {
    var rest := s[..from] + s[from + 1..];
    rest[..to] + [s[from]] + rest[to..]
  }

  /**
   * A move is a permutation that puts the moved element at `to` and keeps
   * every other element in its relative order.
   */
  lemma MoveSpec<T>(s: seq<T>, from: nat, to: nat)
    requires from < |s| && to < |s|
    ensures |Move(s, from, to)| == |s|
    ensures multiset(Move(s, from, to)) == multiset(s)
    ensures Move(s, from, to)[to] == s[from]
    ensures Move(s, from, to)[..to] + Move(s, from, to)[to + 1..] == s[..from] + s[from + 1..]
  {
    var rest := s[..from] + s[from + 1..];
    var r := Move(s, from, to);
    assert s == s[..from] + [s[from]] + s[from + 1..];
    assert rest == rest[..to] + rest[to..];
    assert r[..to] == rest[..to];
    assert r[to + 1..] == rest[to..];
    calc {
      multiset(r);
      multiset(rest[..to]) + multiset([s[from]]) + multiset(rest[to..]);
      multiset(rest) + multiset([s[from]]);
      multiset(s[..from]) + multiset(s[from + 1..]) + multiset([s[from]]);
      multiset(s);
    }
  }

  /** Moving keeps a duplicate-free list duplicate-free. */
  lemma MoveNoDup<T>(s: seq<T>, from: nat, to: nat)
    requires from < |s| && to < |s|
    requires NoDup(s)
    ensures NoDup(Move(s, from, to))
  {
    var rest := s[..from] + s[from + 1..];
    var r := Move(s, from, to);
    assert forall i, j :: 0 <= i < j < |rest| ==> rest[i] != rest[j];
    assert s[from] !in rest;
  }

  /**
   * The end of a drag over entry `over`: `arrayMove(s, s.indexOf(active),
   * s.indexOf(over))`, and nothing when it is dropped onto itself.
   */
  function Reordered<T(==)>(s: seq<T>, active: T, over: T): seq<T>
    requires active in s && over in s
  {
    if active == over then s else Move(s, IndexOf(s, active), IndexOf(s, over))
  }

  /**
   * A drag is a permutation that leaves the dragged entry where the target
   * was, and it keeps a duplicate-free list duplicate-free.
   */
  lemma ReorderedSpec<T>(s: seq<T>, active: T, over: T)
    requires active in s && over in s
    ensures |Reordered(s, active, over)| == |s|
    ensures multiset(Reordered(s, active, over)) == multiset(s)
    ensures Reordered(s, active, over)[IndexOf(s, over)] == active
    ensures NoDup(s) ==> NoDup(Reordered(s, active, over))
  {
    if active != over {
      MoveSpec(s, IndexOf(s, active), IndexOf(s, over));
      if NoDup(s) {
        MoveNoDup(s, IndexOf(s, active), IndexOf(s, over));
      }
    }
  }
}
