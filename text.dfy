/**
 * String helpers standing in for the JavaScript built-ins the application
 * relies on: `trim`, `split`, `join`, `includes`, `toLowerCase`, the first
 * digit run of `match(/\d+/)` with `parseInt`, number formatting, and the
 * default string ordering used by `sort()` and `localeCompare`.
 */
module Text {

  // ---------------------------------------------------------------- trim

  /** The characters `trim` removes, restricted to a fixed common set. */
  predicate IsSpace(c: char) {
    c == ' ' || c == '\t' || c == '\n' || c == '\r' || c == '\U{B}' || c == '\U{C}'
    || c == '\U{A0}' || c == '\U{3000}' || c == '\U{FEFF}'
  }

  predicate IsTrimmed(s: string) {
    s == [] || (!IsSpace(s[0]) && !IsSpace(s[|s| - 1]))
  }

  function TrimStart(s: string): (r: string)
    ensures |r| <= |s| && r == s[|s| - |r|..]
    ensures r == [] || !IsSpace(r[0])
    ensures forall i :: 0 <= i < |s| - |r| ==> IsSpace(s[i])
  {
    if s != [] && IsSpace(s[0]) then TrimStart(s[1..]) else s
  }

  function TrimEnd(s: string): (r: string)
    ensures |r| <= |s| && r == s[..|r|]
    ensures r == [] || !IsSpace(r[|r| - 1])
    ensures forall i :: |r| <= i < |s| ==> IsSpace(s[i])
  {
    if s != [] && IsSpace(s[|s| - 1]) then TrimEnd(s[..|s| - 1]) else s
  }

  /** `s.trim()`: the longest infix of `s` without leading or trailing space. */
  function Trim(s: string): (r: string)
    ensures IsTrimmed(r)
    ensures exists i, j ::
      && 0 <= i <= j <= |s| && r == s[i..j]
      && (forall k :: 0 <= k < i ==> IsSpace(s[k]))
      && (forall k :: j <= k < |s| ==> IsSpace(s[k]))
    ensures forall c :: c in r ==> c in s
  {
    var t := TrimStart(s);
    var r := TrimEnd(t);
    TrimBounds(s, t, r);
    var i, j := |s| - |t|, |s| - |t| + |r|;
    assert 0 <= i <= j <= |s| && r == s[i..j];
    r
  }

  /** Where `trim` cuts: blanks before `i` and from `j` on, the result in between. */
  lemma TrimBounds(s: string, t: string, r: string)
    requires |t| <= |s| && t == s[|s| - |t|..]
    requires forall k :: 0 <= k < |s| - |t| ==> IsSpace(s[k])
    requires |r| <= |t| && r == t[..|r|]
    requires forall k :: |r| <= k < |t| ==> IsSpace(t[k])
    ensures r == s[|s| - |t|..|s| - |t| + |r|]
    ensures forall c :: c in r ==> c in s
    ensures forall k :: |s| - |t| + |r| <= k < |s| ==> IsSpace(s[k])
  {
    var i := |s| - |t|;
    forall k | i + |r| <= k < |s| ensures IsSpace(s[k]) {
      assert s[k] == t[k - i];
    }
    forall c | c in r ensures c in s {
      var m :| 0 <= m < |r| && r[m] == c;
      assert s[i + m] == c;
    }
  }

  lemma TrimOfTrimmed(s: string)
    requires IsTrimmed(s)
    ensures Trim(s) == s
  {
    assert TrimStart(s) == s;
  }

  lemma TrimIdempotent(s: string)
    ensures Trim(Trim(s)) == Trim(s)
  {
    TrimOfTrimmed(Trim(s));
  }

  // ------------------------------------------------------- split and join

  /** `s.split(c)`: the pieces between occurrences of `c`, always at least one. */
  function Split(s: string, c: char): (r: seq<string>)
    ensures |r| >= 1
    ensures forall k :: 0 <= k < |r| ==> c !in r[k]
  {
    if s == [] then [""]
    else if s[0] == c then [""] + Split(s[1..], c)
    else
      var rest := Split(s[1..], c);
      [[s[0]] + rest[0]] + rest[1..]
  }

  /** `parts.join(sep)`. */
  function Join(parts: seq<string>, sep: string): string {
    if |parts| == 0 then ""
    else if |parts| == 1 then parts[0]
    else parts[0] + sep + Join(parts[1..], sep)
  }

  /** Joining the pieces of a split with the same separator gives back the text. */
  lemma {:induction false} JoinSplit(s: string, c: char)
    ensures Join(Split(s, c), [c]) == s
  {
    if s == [] {
    } else if s[0] == c {
      JoinSplit(s[1..], c);
      assert s == [c] + s[1..];
    } else {
      var rest := Split(s[1..], c);
      JoinSplit(s[1..], c);
      if |rest| == 1 {
        assert Join(rest, [c]) == rest[0];
      } else {
        assert Join(rest, [c]) == rest[0] + [c] + Join(rest[1..], [c]);
        assert [[s[0]] + rest[0]] + rest[1..] == [[s[0]] + rest[0]] + rest[1..];
      }
      assert s == [s[0]] + s[1..];
    }
  }

  /** A text without the separator splits into itself. */
  lemma {:induction false} SplitNoSep(a: string, c: char)
    requires c !in a
    ensures Split(a, c) == [a]
  {
    if a != [] {
      SplitNoSep(a[1..], c);
      assert a == [a[0]] + a[1..];
    }
  }

  /** The first separator ends the first piece. */
  lemma {:induction false} SplitAfter(a: string, c: char, rest: string)
    requires c !in a
    ensures Split(a + [c] + rest, c) == [a] + Split(rest, c)
  {
    var s := a + [c] + rest;
    if a == [] {
      assert s == [c] + rest;
      assert s[1..] == rest;
    } else {
      assert s[0] == a[0];
      assert s[1..] == a[1..] + [c] + rest;
      SplitAfter(a[1..], c, rest);
      assert [a[0]] + a[1..] == a;
    }
  }

  /** Splitting a join of separator-free parts gives back the parts. */
  lemma {:induction false} SplitJoin(parts: seq<string>, c: char)
    requires |parts| >= 1
    requires forall k :: 0 <= k < |parts| ==> c !in parts[k]
    ensures Split(Join(parts, [c]), c) == parts
  {
    if |parts| == 1 {
      SplitNoSep(parts[0], c);
    } else {
      SplitJoin(parts[1..], c);
      SplitAfter(parts[0], c, Join(parts[1..], [c]));
      assert parts == [parts[0]] + parts[1..];
    }
  }

  /** `s.split(',').map(m => m.trim()).filter(Boolean)`: the comma list of a memo. */
  function Pieces(s: string): (r: seq<string>)
    ensures forall k :: 0 <= k < |r| ==> r[k] != "" && IsTrimmed(r[k]) && ',' !in r[k]
  {
    TrimNonEmptyKeepsOut(Split(s, ','), ',');
    TrimNonEmpty(Split(s, ','))
  }

  /** One part trimmed, or nothing when it trims to "". */
  function TrimmedPiece(part: string): (r: seq<string>)
    ensures |r| <= 1
    ensures forall k :: 0 <= k < |r| ==> r[k] != "" && IsTrimmed(r[k])
  {
    var t := Trim(part);
    if t == "" then [] else [t]
  }

  /** `parts.map(m => m.trim()).filter(Boolean)`. */
  function TrimNonEmpty(parts: seq<string>): (r: seq<string>)
    ensures forall k :: 0 <= k < |r| ==> r[k] != "" && IsTrimmed(r[k])
    ensures |r| <= |parts|
  {
    if |parts| == 0 then [] else TrimmedPiece(parts[0]) + TrimNonEmpty(parts[1..])
  }

  function KeepPiece(x: string): seq<string> {
    if x == "" then [] else [x]
  }

  /** `parts.filter(Boolean)`. */
  function NonEmpty(parts: seq<string>): (r: seq<string>)
    ensures |r| <= |parts|
    ensures forall k :: 0 <= k < |r| ==> r[k] != ""
  {
    if |parts| == 0 then [] else KeepPiece(parts[0]) + NonEmpty(parts[1..])
  }

  lemma {:induction false} NonEmptyOfNonEmpty(parts: seq<string>)
    requires forall k :: 0 <= k < |parts| ==> parts[k] != ""
    ensures NonEmpty(parts) == parts
  {
    if |parts| > 0 {
      NonEmptyOfNonEmpty(parts[1..]);
      assert parts == [parts[0]] + parts[1..];
    }
  }

  /** `parts.map(m => m.trim())`. */
  function TrimAll(parts: seq<string>): (r: seq<string>)
    ensures |r| == |parts|
    ensures forall k :: 0 <= k < |r| ==> r[k] == Trim(parts[k])
  {
    seq(|parts|, k requires 0 <= k < |parts| => Trim(parts[k]))
  }

  /** Trimming and dropping blanks is trimming, then filtering. */
  lemma {:induction false} TrimNonEmptyAsFilter(parts: seq<string>)
    ensures TrimNonEmpty(parts) == NonEmpty(TrimAll(parts))
  {
    if |parts| > 0 {
      TrimNonEmptyAsFilter(parts[1..]);
      assert TrimAll(parts)[1..] == TrimAll(parts[1..]);
    }
  }

  lemma {:induction false} NonEmptyAppend(a: seq<string>, b: seq<string>)
    ensures NonEmpty(a + b) == NonEmpty(a) + NonEmpty(b)
  {
    if |a| == 0 {
      assert a + b == b;
    } else {
      var x, t := KeepPiece(a[0]), a[1..];
      calc {
        NonEmpty(a + b);
      == { assert (a + b)[0] == a[0]; assert (a + b)[1..] == t + b; }
        x + NonEmpty(t + b);
      == { NonEmptyAppend(t, b); }
        x + (NonEmpty(t) + NonEmpty(b));
      ==
        (x + NonEmpty(t)) + NonEmpty(b);
      }
    }
  }

  /** A leading blank does not change what `trim` keeps. */
  lemma TrimLeadingSpace(y: string)
    ensures Trim([' '] + y) == Trim(y)
  {
    assert ([' '] + y)[1..] == y;
  }

  lemma SplitSpaceHead(x: string)
    ensures Split([' '] + x, ',') == [[' '] + Split(x, ',')[0]] + Split(x, ',')[1..]
  {
    assert ([' '] + x)[1..] == x;
  }

  lemma TrimNonEmptyCons(a: string, t: seq<string>)
    ensures TrimNonEmpty([a] + t) == TrimmedPiece(a) + TrimNonEmpty(t)
  {
    assert ([a] + t)[1..] == t;
  }

  lemma SplitAfterSpace(x: string)
    ensures TrimNonEmpty(Split([' '] + x, ',')) == TrimNonEmpty(Split(x, ','))
  {
    var p := Split(x, ',');
    calc {
      TrimNonEmpty(Split([' '] + x, ','));
    == { SplitSpaceHead(x); }
      TrimNonEmpty([[' '] + p[0]] + p[1..]);
    == { TrimNonEmptyCons([' '] + p[0], p[1..]); }
      TrimmedPiece([' '] + p[0]) + TrimNonEmpty(p[1..]);
    == { TrimLeadingSpace(p[0]); }
      TrimmedPiece(p[0]) + TrimNonEmpty(p[1..]);
    == { TrimNonEmptyCons(p[0], p[1..]); assert p == [p[0]] + p[1..]; }
      TrimNonEmpty(p);
    }
  }

  /**
   * Reading back a list joined with ", ": when no entry has a comma or
   * surrounding blanks, the pieces are the non-empty entries, in order.
   */
  lemma {:induction false} PiecesOfJoin(qs: seq<string>)
    requires forall k :: 0 <= k < |qs| ==> IsTrimmed(qs[k]) && ',' !in qs[k]
    ensures Pieces(Join(qs, ", ")) == NonEmpty(qs)
  {
    if |qs| == 0 {
      assert Split("", ',') == [""];
    } else if |qs| == 1 {
      SplitNoSep(qs[0], ',');
      TrimOfTrimmed(qs[0]);
      assert TrimNonEmpty([qs[0]]) == TrimmedPiece(qs[0]) + TrimNonEmpty([]);
    } else {
      var rest := Join(qs[1..], ", ");
      assert Join(qs, ", ") == qs[0] + ", " + rest;
      PiecesAfterEntry(qs[0], rest);
      PiecesOfJoin(qs[1..]);
    }
  }

  lemma CommaSpace(q: string, rest: string)
    ensures q + ", " + rest == q + [','] + ([' '] + rest)
  {
    assert ", " == [','] + [' '];
  }

  /**
   * Reading back proper entries followed by one arbitrary text, joined with
   * ", ": the non-empty entries, then the pieces of that text.
   */
  lemma {:induction false} PiecesOfJoinSnoc(qs: seq<string>, t: string)
    requires forall k :: 0 <= k < |qs| ==> IsTrimmed(qs[k]) && ',' !in qs[k]
    ensures Pieces(Join(qs + [t], ", ")) == NonEmpty(qs) + Pieces(t)
  {
    if |qs| == 0 {
      assert qs + [t] == [t];
      assert NonEmpty(qs) + Pieces(t) == Pieces(t);
    } else {
      var q, rest := qs[0], qs[1..];
      assert qs == [q] + rest;
      PiecesOfJoinSnoc(rest, t);
      PiecesOfJoinSnocStep(q, rest, t);
    }
  }

  /** The step of `PiecesOfJoinSnoc`: one more proper entry in front. */
  lemma {:induction false} PiecesOfJoinSnocStep(q: string, rest: seq<string>, t: string)
    requires IsTrimmed(q) && ',' !in q
    requires Pieces(Join(rest + [t], ", ")) == NonEmpty(rest) + Pieces(t)
    ensures Pieces(Join([q] + rest + [t], ", ")) == NonEmpty([q] + rest) + Pieces(t)
  {
    var j := Join(rest + [t], ", ");
    var a, b, c := KeepPiece(q), NonEmpty(rest), Pieces(t);
    var front := Pieces(Join([q] + rest + [t], ", "));
    assert front == a + (b + c) by {
      ConcatAssoc([q], rest, [t]);
      JoinFront(q, rest + [t]);
      PiecesAfterEntry(q, j);
    }
    assert NonEmpty([q] + rest) == a + b by {
      assert ([q] + rest)[1..] == rest;
    }
    ConcatAssoc(a, b, c);
  }

  lemma JoinFront(q: string, more: seq<string>)
    requires |more| > 0
    ensures Join([q] + more, ", ") == q + ", " + Join(more, ", ")
  {
    assert ([q] + more)[1..] == more;
  }
  lemma ConcatAssoc<T>(a: seq<T>, b: seq<T>, c: seq<T>)
    ensures a + (b + c) == (a + b) + c
  {
  }


  /** A proper entry followed by ", " reads back first, before the rest's pieces. */
  lemma PiecesAfterEntry(q: string, rest: string)
    requires IsTrimmed(q) && ',' !in q
    ensures Pieces(q + ", " + rest) == KeepPiece(q) + Pieces(rest)
  {
    CommaSpace(q, rest);
    calc {
      Pieces(q + [','] + ([' '] + rest));
    == { SplitAfter(q, ',', [' '] + rest); }
      TrimNonEmpty([q] + Split([' '] + rest, ','));
    == { TrimNonEmptyCons(q, Split([' '] + rest, ',')); }
      TrimmedPiece(q) + TrimNonEmpty(Split([' '] + rest, ','));
    == { SplitAfterSpace(rest); TrimOfTrimmed(q); }
      KeepPiece(q) + Pieces(rest);
    }
  }

  /** Trimming adds no character: one absent from every part stays absent. */
  lemma {:induction false} TrimNonEmptyKeepsOut(parts: seq<string>, c: char)
    requires forall k :: 0 <= k < |parts| ==> c !in parts[k]
    ensures forall k :: 0 <= k < |TrimNonEmpty(parts)| ==> c !in TrimNonEmpty(parts)[k]
  {
    if |parts| > 0 {
      TrimNonEmptyKeepsOut(parts[1..], c);
      assert c !in parts[0];
      assert c !in Trim(parts[0]);
    }
  }

  lemma {:induction false} TrimNonEmptyAppend(a: seq<string>, b: seq<string>)
    ensures TrimNonEmpty(a + b) == TrimNonEmpty(a) + TrimNonEmpty(b)
  {
    if |a| == 0 {
      assert a + b == b;
    } else {
      var ab := a + b;
      calc {
        TrimNonEmpty(ab);
        { assert ab[0] == a[0]; assert ab[1..] == a[1..] + b; }
        TrimmedPiece(a[0]) + TrimNonEmpty(a[1..] + b);
        { TrimNonEmptyAppend(a[1..], b); }
        TrimmedPiece(a[0]) + (TrimNonEmpty(a[1..]) + TrimNonEmpty(b));
        TrimNonEmpty(a) + TrimNonEmpty(b);
      }
    }
  }

  lemma MultisetRemoveAt(a: seq<string>, b: seq<string>, j: nat)
    requires |a| > 0 && j < |b| && b[j] == a[0] && multiset(a) == multiset(b)
    ensures multiset(a[1..]) == multiset(b[..j] + b[j + 1..])
  {
    assert a == [a[0]] + a[1..];
    assert b == b[..j] + [b[j]] + b[j + 1..];
    assert multiset(a[1..]) == multiset(a) - multiset([a[0]]);
    assert multiset(b[..j] + b[j + 1..]) == multiset(b) - multiset([b[j]]);
  }

  lemma TrimNonEmptySplitAt(b: seq<string>, j: nat)
    requires j < |b|
    ensures TrimNonEmpty(b) == TrimNonEmpty(b[..j]) + (TrimmedPiece(b[j]) + TrimNonEmpty(b[j + 1..]))
  {
    assert b == b[..j] + b[j..];
    TrimNonEmptyAppend(b[..j], b[j..]);
    assert b[j..][1..] == b[j + 1..];
  }

  lemma TrimNonEmptyRemoveAt(b: seq<string>, j: nat)
    requires j < |b|
    ensures multiset(TrimNonEmpty(b)) == multiset(TrimmedPiece(b[j])) + multiset(TrimNonEmpty(b[..j] + b[j + 1..]))
  {
    TrimNonEmptySplitAt(b, j);
    TrimNonEmptyAppend(b[..j], b[j + 1..]);
  }

  /** The trimmed non-empty pieces depend only on which parts there are, not on their order. */
  lemma {:induction false} TrimNonEmptyPermutation(a: seq<string>, b: seq<string>)
    requires multiset(a) == multiset(b)
    ensures multiset(TrimNonEmpty(a)) == multiset(TrimNonEmpty(b))
    decreases |a|
  {
    if |a| > 0 {
      assert a[0] in multiset(b);
      var j :| 0 <= j < |b| && b[j] == a[0];
      MultisetRemoveAt(a, b, j);
      TrimNonEmptyPermutation(a[1..], b[..j] + b[j + 1..]);
      TrimNonEmptyRemoveAt(b, j);
    } else {
      assert b == [];
    }
  }

  // ------------------------------------------------- substring and case

  /** `s.includes(sub)`. */
  predicate Contains(s: string, sub: string) {
    |sub| <= |s| && (s[..|sub|] == sub || Contains(s[1..], sub))
  }

  function LowerChar(c: char): char {
    if 'A' <= c <= 'Z' then (c as int + 32) as char else c
  }

  /** `toLowerCase`, for the Latin capitals. */
  function Lower(s: string): (r: string)
    ensures |r| == |s|
  {
    seq(|s|, i requires 0 <= i < |s| => LowerChar(s[i]))
  }

  // ------------------------------------------------------------- numbers

  predicate IsDigit(c: char) {
    '0' <= c <= '9'
  }

  predicate AllDigits(s: string) {
    forall i :: 0 <= i < |s| ==> IsDigit(s[i])
  }

  /** The maximal run of digits at the start of `s`. */
  function TakeDigits(s: string): (r: string)
    ensures |r| <= |s| && r == s[..|r|] && AllDigits(r)
    ensures |r| < |s| ==> !IsDigit(s[|r|])
  {
    if s != [] && IsDigit(s[0]) then [s[0]] + TakeDigits(s[1..]) else ""
  }

  /** `s.match(/\d+/)?.[0] || ""`: the first run of digits in `s`, or "". */
  function FirstDigitRun(s: string): (r: string)
    ensures AllDigits(r)
    ensures r == "" ==> forall i :: 0 <= i < |s| ==> !IsDigit(s[i])
  {
    if s == [] then ""
    else if IsDigit(s[0]) then TakeDigits(s)
    else FirstDigitRun(s[1..])
  }

  /** The number of non-digits before the first digit of `s`. */
  function LeadingNonDigits(s: string): (i: nat)
    ensures i <= |s|
  {
    if s == [] || IsDigit(s[0]) then 0 else 1 + LeadingNonDigits(s[1..])
  }

  /**
   * The run `FirstDigitRun` returns sits in `s` at its leftmost digit and is
   * maximal: no digit before it and no digit right after it.
   */
  lemma {:induction false} FirstDigitRunSpec(s: string)
    ensures var r, i := FirstDigitRun(s), LeadingNonDigits(s);
      && i + |r| <= |s| && s[i..i + |r|] == r
      && (forall k :: 0 <= k < i ==> !IsDigit(s[k]))
      && (i < |s| ==> r != "")
      && (i + |r| == |s| || !IsDigit(s[i + |r|]))
  {
    FirstDigitRunAt(s);
    var i := LeadingNonDigits(s);
    var r := TakeDigits(s[i..]);
    assert s[i..][..|r|] == s[i..i + |r|];
    LeadingNonDigitsSpec(s);
    if i + |r| < |s| {
      assert s[i + |r|] == s[i..][|r|];
    }
  }

  lemma {:induction false} FirstDigitRunAt(s: string)
    ensures FirstDigitRun(s) == TakeDigits(s[LeadingNonDigits(s)..])
  {
    if s != [] && !IsDigit(s[0]) {
      FirstDigitRunAt(s[1..]);
      assert s[1..][LeadingNonDigits(s[1..])..] == s[LeadingNonDigits(s)..];
    }
  }

  lemma {:induction false} LeadingNonDigitsSpec(s: string)
    ensures forall k :: 0 <= k < LeadingNonDigits(s) ==> !IsDigit(s[k])
    ensures LeadingNonDigits(s) < |s| ==> IsDigit(s[LeadingNonDigits(s)])
  {
    if s != [] && !IsDigit(s[0]) {
      LeadingNonDigitsSpec(s[1..]);
      forall k | 0 <= k < LeadingNonDigits(s) ensures !IsDigit(s[k]) {
        if k > 0 {
          assert s[k] == s[1..][k - 1];
        }
      }
    }
  }

  /** `parseInt` of a run of digits. */
  function DigitsValue(d: string): nat
    requires AllDigits(d)
  {
    if d == [] then 0 else DigitsValue(d[..|d| - 1]) * 10 + (d[|d| - 1] as int - '0' as int)
  }

  function DigitChar(n: nat): (c: char)
    requires n < 10
    ensures IsDigit(c)
  {
    ('0' as int + n) as char
  }

  /** Decimal notation of `n`, as template literals render numbers. */
  function NatToString(n: nat): (r: string)
    ensures |r| >= 1 && AllDigits(r)
  {
    if n < 10 then [DigitChar(n)] else NatToString(n / 10) + [DigitChar(n % 10)]
  }

  /** Reading back what `NatToString` wrote gives the number. */
  lemma {:induction false} NatToStringValue(n: nat)
    ensures DigitsValue(NatToString(n)) == n
  {
    if n >= 10 {
      NatToStringValue(n / 10);
      var s := NatToString(n);
      assert s[..|s| - 1] == NatToString(n / 10);
    }
  }

  /** The first digit run of a text that starts with a number is that number. */
  lemma FirstDigitRunOfNumberPrefix(n: nat, rest: string)
    requires rest == [] || !IsDigit(rest[0])
    ensures FirstDigitRun(NatToString(n) + rest) == NatToString(n)
  {
    var d := NatToString(n);
    TakeDigitsOfDigits(d, rest);
  }

  lemma {:induction false} TakeDigitsOfDigits(d: string, rest: string)
    requires AllDigits(d)
    requires rest == [] || !IsDigit(rest[0])
    ensures TakeDigits(d + rest) == d
  {
    if d != [] {
      assert (d + rest)[1..] == d[1..] + rest;
      TakeDigitsOfDigits(d[1..], rest);
    }
  }

  // ------------------------------------------------------------ ordering

  /** The default ordering of strings: lexicographic on characters. */
  predicate LexLe(a: string, b: string) {
    a == [] || (b != [] && (a[0] < b[0] || (a[0] == b[0] && LexLe(a[1..], b[1..]))))
  }

  lemma {:induction false} LexTotal(a: string, b: string)
    ensures LexLe(a, b) || LexLe(b, a)
  {
    if a != [] && b != [] && a[0] == b[0] {
      LexTotal(a[1..], b[1..]);
    }
  }

  lemma {:induction false} LexTrans(a: string, b: string, c: string)
    requires LexLe(a, b) && LexLe(b, c)
    ensures LexLe(a, c)
  {
    if a != [] && b != [] && c != [] && a[0] == b[0] && b[0] == c[0] {
      LexTrans(a[1..], b[1..], c[1..]);
    }
  }

  lemma {:induction false} LexAntisym(a: string, b: string)
    requires LexLe(a, b) && LexLe(b, a)
    ensures a == b
  {
    if a != [] && b != [] {
      LexAntisym(a[1..], b[1..]);
      assert a == [a[0]] + a[1..] && b == [b[0]] + b[1..];
    }
  }
}
