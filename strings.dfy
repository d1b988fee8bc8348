/**
 * The JavaScript string operations the services rely on, written out over
 * `seq<char>`: `split(sep).pop()`, `split(sep)[1]`, `indexOf`/`includes`,
 * `Array.prototype.sort` on strings, `join`, ASCII case mapping and the
 * decimal rendering of integers in template literals.
 */
module Strings {
  import opened Wrappers

  // ---------------------------------------------------------------------
  // Substring search (String.prototype.indexOf / includes)
  // ---------------------------------------------------------------------

  /** `sub` occurs in `s` starting at index `i`. */
  predicate OccursAt(s: string, sub: string, i: int) {
    0 <= i && i + |sub| <= |s| && s[i..i + |sub|] == sub
  }

  /** `sub`, from its `k`-th character on, matches `s` at `i + k`; compared one character at a time. */
  function MatchesFrom(s: string, sub: string, i: nat, k: nat): bool
    decreases |sub| - k
  {
    k >= |sub| || (i + k < |s| && s[i + k] == sub[k] && MatchesFrom(s, sub, i, k + 1))
  }

  lemma {:induction false} MatchesFromIff(s: string, sub: string, i: nat, k: nat)
    requires k <= |sub| && i + |sub| <= |s|
    ensures MatchesFrom(s, sub, i, k) <==> s[i + k..i + |sub|] == sub[k..]
    decreases |sub| - k
  {
    if k < |sub| {
      MatchesFromIff(s, sub, i, k + 1);
      assert s[i + k..i + |sub|] == [s[i + k]] + s[i + k + 1..i + |sub|];
      assert sub[k..] == [sub[k]] + sub[k + 1..];
    }
  }

  /** The first index at or after `from` where `sub` occurs in `s`. */
  function IndexFrom(s: string, sub: string, from: nat): (r: Option<nat>)
    ensures r.Some? ==> from <= r.value && OccursAt(s, sub, r.value)
    ensures r.Some? ==> forall j :: from <= j < r.value ==> !OccursAt(s, sub, j)
    ensures r.None? ==> forall j :: from <= j ==> !OccursAt(s, sub, j)
    decreases |s| - from
  {
    if from + |sub| > |s| then None
    else
      MatchesFromIff(s, sub, from, 0);
      if MatchesFrom(s, sub, from, 0) then Some(from)
      else IndexFrom(s, sub, from + 1)
  }

  /** Whether `sub` occurs in `s` at or after `from`, without locating it. */
  function FindFrom(s: string, sub: string, from: nat): bool
    decreases |s| - from
  {
    from + |sub| <= |s| && (MatchesFrom(s, sub, from, 0) || FindFrom(s, sub, from + 1))
  }

  lemma {:induction false} FindFromFinds(s: string, sub: string, from: nat)
    ensures FindFrom(s, sub, from) <==> IndexFrom(s, sub, from).Some?
    decreases |s| - from
  {
    if from + |sub| <= |s| {
      FindFromFinds(s, sub, from + 1);
    }
  }

  /** `s.includes(sub)` */
  predicate Contains(s: string, sub: string) {
    FindFrom(s, sub, 0)
  }

  lemma ContainsIff(s: string, sub: string)
    ensures Contains(s, sub) <==> IndexFrom(s, sub, 0).Some?
    ensures Contains(s, sub) <==> exists i :: OccursAt(s, sub, i)
  {
    FindFromFinds(s, sub, 0);
  }

  /** An occurrence of `sub` at index `i` is the first one when none starts earlier. */
  lemma FirstOccurrence(s: string, sub: string, i: nat)
    requires OccursAt(s, sub, i)
    requires forall k :: 0 <= k < i ==> !OccursAt(s, sub, k)
    ensures IndexFrom(s, sub, 0) == Some(i)
  {
  }

  /** `s.split(sep)[1]`: the text between the first and the second separator (or the end). */
  function SplitSecond(s: string, sep: string): (r: Option<string>)
    requires |sep| > 0
    ensures r.Some? <==> Contains(s, sep)
    ensures r.Some? ==> !Contains(r.value, sep)
  {
    ContainsIff(s, sep);
    match IndexFrom(s, sep, 0)
    case None => None
    case Some(i) =>
      var rest := s[i + |sep|..];
      ContainsIff(rest, sep);
      match IndexFrom(rest, sep, 0)
      case None => Some(rest)
      case Some(j) =>
        var piece := rest[..j];
        assert !Contains(piece, sep) by {
          ContainsIff(piece, sep);
          forall k | OccursAt(piece, sep, k) ensures OccursAt(rest, sep, k) {
            OccursInPrefix(rest, j, sep, k);
          }
        }
        Some(piece)
  }

  /** An occurrence inside a prefix is an occurrence in the whole string. */
  lemma OccursInPrefix(s: string, j: nat, sub: string, k: int)
    requires j <= |s| && OccursAt(s[..j], sub, k)
    ensures OccursAt(s, sub, k)
  {
    assert s[k..k + |sub|] == s[..j][k..k + |sub|];
  }

  /**
   * Splitting `a + sep + b` yields `b` as the second piece when `sep` does not
   * start anywhere before `a` ends and does not occur inside `b`.
   */
  lemma {:induction false} SplitSecondOf(a: string, sep: string, b: string)
    requires |sep| > 0
    requires forall k :: 0 <= k < |a| ==> !OccursAt(a + sep + b, sep, k)
    requires !Contains(b, sep)
    ensures SplitSecond(a + sep + b, sep) == Some(b)
  {
    var s := a + sep + b;
    assert s[|a|..|a| + |sep|] == sep;
    FirstOccurrence(s, sep, |a|);
    ContainsIff(b, sep);
    assert s[|a| + |sep|..] == b;
  }

  // ---------------------------------------------------------------------
  // split(c).pop()
  // ---------------------------------------------------------------------

  /** `s.split(c).pop()`: the longest suffix of `s` free of `c`. */
  function LastSegment(s: string, c: char): (r: string)
    ensures c !in r
    ensures |r| <= |s| && r == s[|s| - |r|..]
    ensures |r| < |s| ==> s[|s| - |r| - 1] == c
  {
    if s == [] then []
    else if s[|s| - 1] == c then []
    else LastSegment(s[..|s| - 1], c) + [s[|s| - 1]]
  }

  /** The segment after the last separator is recovered exactly. */
  lemma {:induction false} LastSegmentAfter(a: string, c: char, b: string)
    requires c !in b
    ensures LastSegment(a + [c] + b, c) == b
    decreases |b|
  {
    var s := a + [c] + b;
    if b == [] {
      assert s[|s| - 1] == c;
    } else {
      var b' := b[..|b| - 1];
      assert s[..|s| - 1] == a + [c] + b';
      assert s[|s| - 1] == b[|b| - 1];
      LastSegmentAfter(a, c, b');
      assert b == b' + [b[|b| - 1]];
    }
  }

  /** A string without the separator is its own last segment. */
  lemma {:induction false} LastSegmentWhole(s: string, c: char)
    requires c !in s
    ensures LastSegment(s, c) == s
    decreases |s|
  {
    if s != [] {
      var init, last := s[..|s| - 1], s[|s| - 1];
      assert s == init + [last];
      assert last in s;
      LastSegmentWhole(init, c);
      assert LastSegment(s, c) == LastSegment(init, c) + [last];
    }
  }

  // ---------------------------------------------------------------------
  // Case mapping (ASCII letters only)
  // ---------------------------------------------------------------------

  function LowerChar(ch: char): char {
    if 'A' <= ch <= 'Z' then (ch as int + 32) as char else ch
  }

  function UpperChar(ch: char): char {
    if 'a' <= ch <= 'z' then (ch as int - 32) as char else ch
  }

  function ToLower(s: string): (r: string)
    ensures |r| == |s|
  {
    seq(|s|, i requires 0 <= i < |s| => LowerChar(s[i]))
  }

  /** Lower-casing works character by character, so it distributes over concatenation. */
  lemma ToLowerAppend(a: string, b: string)
    ensures ToLower(a + b) == ToLower(a) + ToLower(b)
  {
    forall i | 0 <= i < |a + b| ensures ToLower(a + b)[i] == (ToLower(a) + ToLower(b))[i] {
      if i < |a| { assert (a + b)[i] == a[i]; } else { assert (a + b)[i] == b[i - |a|]; }
    }
  }

  function ToUpper(s: string): (r: string)
    ensures |r| == |s|
  {
    seq(|s|, i requires 0 <= i < |s| => UpperChar(s[i]))
  }

  // ---------------------------------------------------------------------
  // Decimal rendering and joining
  // ---------------------------------------------------------------------

  function DigitChar(d: nat): char
    requires d < 10
  {
    "0123456789"[d]
  }

  function NatToString(n: nat): string
    decreases n
  {
    if n < 10 then [DigitChar(n)] else NatToString(n / 10) + [DigitChar(n % 10)]
  }

  /** `${n}` for an integer `n`. */
  function IntToString(n: int): string {
    if n < 0 then "-" + NatToString(-n) else NatToString(n)
  }

  /** `xs.join(sep)` */
  function Join(xs: seq<string>, sep: string): string {
    if |xs| == 0 then ""
    else if |xs| == 1 then xs[0]
    else xs[0] + sep + Join(xs[1..], sep)
  }

  // ---------------------------------------------------------------------
  // Lexicographic order and Array.prototype.sort on strings
  // ---------------------------------------------------------------------

  /** Strict lexicographic order by character code, as the default sort compares strings. */
  predicate Less(a: string, b: string)
    decreases |a|
  {
    if |a| == 0 then |b| > 0
    else if |b| == 0 then false
    else if a[0] != b[0] then a[0] < b[0]
    else Less(a[1..], b[1..])
  }

  lemma {:induction false} LessIrreflexive(a: string)
    ensures !Less(a, a)
    decreases |a|
  {
    if |a| > 0 { LessIrreflexive(a[1..]); }
  }

  lemma {:induction false} LessTransitive(a: string, b: string, c: string)
    requires Less(a, b) && Less(b, c)
    ensures Less(a, c)
    decreases |a|
  {
    if |a| > 0 && |b| > 0 && |c| > 0 && a[0] == b[0] == c[0] {
      LessTransitive(a[1..], b[1..], c[1..]);
    }
  }

  lemma {:induction false} LessTotal(a: string, b: string)
    ensures a == b || Less(a, b) || Less(b, a)
    decreases |a|
  {
    if |a| > 0 && |b| > 0 && a[0] == b[0] {
      LessTotal(a[1..], b[1..]);
      if a[1..] == b[1..] {
        assert a == [a[0]] + a[1..] && b == [b[0]] + b[1..];
      }
    }
  }

  lemma LessAsymmetric(a: string, b: string)
    ensures Less(a, b) ==> !Less(b, a) && a != b
  {
    LessIrreflexive(a);
    LessTotal(a, b);
    if a != b && Less(a, b) && Less(b, a) {
      LessTransitive(a, b, a);
    }
  }

  /** Not-greater-than is transitive: a <= b <= c gives a <= c. */
  lemma NotLessTransitive(a: string, b: string, c: string)
    requires !Less(b, a) && !Less(c, b)
    ensures !Less(c, a)
  {
    LessTotal(a, b);
    LessTotal(b, c);
    LessTotal(a, c);
    LessAsymmetric(a, c);
    if Less(a, b) && Less(b, c) { LessTransitive(a, b, c); }
  }

  predicate Sorted(s: seq<string>) {
    forall i, j :: 0 <= i < j < |s| ==> !Less(s[j], s[i])
  }

  predicate StrictlySorted(s: seq<string>) {
    forall i, j :: 0 <= i < j < |s| ==> Less(s[i], s[j])
  }

  /** Inserts `x` before the first element that is not smaller than it. */
  function Insert(x: string, xs: seq<string>): (r: seq<string>)
    ensures multiset(r) == multiset(xs) + multiset{x}
    ensures Sorted(xs) ==> Sorted(r)
    ensures StrictlySorted(xs) && x !in xs ==> StrictlySorted(r)
  {
    if xs == [] then [x]
    else if !Less(xs[0], x) then
      InsertFrontKeepsOrder(x, xs);
      [x] + xs
    else
      var rest := Insert(x, xs[1..]);
      assert xs == [xs[0]] + xs[1..];
      InsertBehindKeepsOrder(x, xs, rest);
      InsertBehindKeepsStrictOrder(x, xs, rest);
      [xs[0]] + rest
  }

  lemma InsertFrontKeepsOrder(x: string, xs: seq<string>)
    requires xs != [] && !Less(xs[0], x)
    ensures Sorted(xs) ==> Sorted([x] + xs)
    ensures StrictlySorted(xs) && x !in xs ==> StrictlySorted([x] + xs)
  {
    var r := [x] + xs;
    LessTotal(x, xs[0]);
    if Sorted(xs) {
      forall i, j | 0 <= i < j < |r| ensures !Less(r[j], r[i]) {
        if i == 0 && j > 1 { NotLessTransitive(x, xs[0], r[j]); }
      }
    }
    if StrictlySorted(xs) && x !in xs {
      forall i, j | 0 <= i < j < |r| ensures Less(r[i], r[j]) {
        if i == 0 && j > 1 { LessTransitive(x, xs[0], r[j]); }
      }
    }
  }

  /** Every element of `rest` is `x` or comes from `xs[1..]`. */
  lemma InsertedFrom(x: string, xs: seq<string>, rest: seq<string>)
    requires xs != [] && multiset(rest) == multiset(xs[1..]) + multiset{x}
    ensures forall k :: 0 <= k < |rest| ==> rest[k] == x || rest[k] in xs[1..]
  {
    forall k | 0 <= k < |rest|
      ensures rest[k] == x || rest[k] in xs[1..]
    {
      assert rest[k] in multiset(rest);
    }
  }

  lemma InsertBehindKeepsOrder(x: string, xs: seq<string>, rest: seq<string>)
    requires xs != [] && Less(xs[0], x)
    requires multiset(rest) == multiset(xs[1..]) + multiset{x}
    requires Sorted(xs[1..]) ==> Sorted(rest)
    ensures Sorted(xs) ==> Sorted([xs[0]] + rest)
  {
    var r := [xs[0]] + rest;
    InsertedFrom(x, xs, rest);
    if Sorted(xs) {
      assert Sorted(xs[1..]) by {
        forall i, j | 0 <= i < j < |xs[1..]| ensures !Less(xs[1..][j], xs[1..][i]) {
          assert xs[1..][j] == xs[j + 1] && xs[1..][i] == xs[i + 1];
        }
      }
      forall i, j | 0 <= i < j < |r| ensures !Less(r[j], r[i]) {
        if i == 0 {
          var v := rest[j - 1];
          if v == x {
            LessAsymmetric(xs[0], x);
          } else {
            var m :| 0 <= m < |xs[1..]| && xs[1..][m] == v;
            assert xs[m + 1] == v;
          }
        }
      }
    }
  }

  lemma InsertBehindKeepsStrictOrder(x: string, xs: seq<string>, rest: seq<string>)
    requires xs != [] && Less(xs[0], x)
    requires multiset(rest) == multiset(xs[1..]) + multiset{x}
    requires StrictlySorted(xs[1..]) && x !in xs[1..] ==> StrictlySorted(rest)
    ensures StrictlySorted(xs) && x !in xs ==> StrictlySorted([xs[0]] + rest)
  {
    var r := [xs[0]] + rest;
    InsertedFrom(x, xs, rest);
    if StrictlySorted(xs) && x !in xs {
      assert StrictlySorted(xs[1..]) by {
        forall i, j | 0 <= i < j < |xs[1..]| ensures Less(xs[1..][i], xs[1..][j]) {
          assert xs[1..][j] == xs[j + 1] && xs[1..][i] == xs[i + 1];
        }
      }
      forall i, j | 0 <= i < j < |r| ensures Less(r[i], r[j]) {
        if i == 0 {
          var v := rest[j - 1];
          if v != x {
            var m :| 0 <= m < |xs[1..]| && xs[1..][m] == v;
            assert xs[m + 1] == v;
          }
        }
      }
    }
  }

  /** A sequence without members is empty. */
  lemma NoMembersEmpty<T>(s: seq<T>)
    ensures (forall x :: x !in s) ==> s == []
  {
    if s != [] {
      assert s[0] in s;
    }
  }

  predicate Distinct(xs: seq<string>) {
    forall i, j :: 0 <= i < j < |xs| ==> xs[i] != xs[j]
  }

  /** `xs.slice().sort()` by insertion: a sorted permutation of `xs`. */
  function Sort(xs: seq<string>): (r: seq<string>)
    ensures multiset(r) == multiset(xs)
    ensures Sorted(r)
    ensures Distinct(xs) ==> StrictlySorted(r)
  {
    if xs == [] then []
    else
      var rest := Sort(xs[1..]);
      assert xs == [xs[0]] + xs[1..];
      DistinctSplit(xs, rest);
      Insert(xs[0], rest)
  }

  /** Sorting keeps exactly the members. */
  lemma SortMembers(xs: seq<string>, x: string)
    ensures x in Sort(xs) <==> x in xs
  {
    assert x in Sort(xs) <==> x in multiset(Sort(xs));
    assert x in xs <==> x in multiset(xs);
  }

  lemma DistinctSplit(xs: seq<string>, rest: seq<string>)
    requires xs != [] && multiset(rest) == multiset(xs[1..])
    ensures Distinct(xs) ==> Distinct(xs[1..]) && xs[0] !in rest
  {
    if Distinct(xs) {
      forall i, j | 0 <= i < j < |xs[1..]| ensures xs[1..][i] != xs[1..][j] {
        assert xs[1..][i] == xs[i + 1] && xs[1..][j] == xs[j + 1];
      }
      forall m | 0 <= m < |xs[1..]| ensures xs[1..][m] != xs[0] {
        assert xs[1..][m] == xs[m + 1];
      }
      assert xs[0] !in multiset(xs[1..]);
    }
  }

  /** Two strictly sorted sequences holding the same elements are the same sequence. */
  lemma {:induction false} StrictlySortedUnique(a: seq<string>, b: seq<string>)
    requires StrictlySorted(a) && StrictlySorted(b)
    requires forall x :: x in a <==> x in b
    ensures a == b
    decreases |a|
  {
    if a != [] { assert a[0] in b; }
    if b != [] { assert b[0] in a; }
    if a != [] && b != [] {
      var i :| 0 <= i < |a| && a[i] == b[0];
      var j :| 0 <= j < |b| && b[j] == a[0];
      assert i == 0 || Less(a[0], a[i]);
      assert j == 0 || Less(b[0], b[j]);
      LessAsymmetric(a[0], b[0]);
      assert a[0] == b[0];
      forall x ensures x in a[1..] <==> x in b[1..] {
        if x in a[1..] {
          var i :| 0 <= i < |a[1..]| && a[1..][i] == x;
          assert Less(a[0], a[i + 1]);
          LessIrreflexive(a[0]);
          assert x in b;
        }
        if x in b[1..] {
          var j :| 0 <= j < |b[1..]| && b[1..][j] == x;
          assert Less(b[0], b[j + 1]);
          LessIrreflexive(b[0]);
          assert x in a;
        }
      }
      StrictlySortedUnique(a[1..], b[1..]);
      assert a == [a[0]] + a[1..] && b == [b[0]] + b[1..];
    }
  }
}
