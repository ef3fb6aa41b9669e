/** The substring search of utstring.h: strong failure tables and the searches that use them. */
module Kmp {
  import opened JsonValue
  import opened Texts

  // ---------- borders ----------

  /** The k characters before position n repeat the first k characters. */
  ghost predicate Border(p: string, n: int, k: int) {
    0 <= k < n <= |p| && p[..k] == p[n - k..n]
  }

  /** k is the longest proper border of the first n characters (-1 for n == 0). */
  ghost predicate Longest(p: string, n: int, k: int) {
    (if n == 0 then k == -1 else Border(p, n, k)) && forall b :: Border(p, n, b) ==> b <= k
  }

  /** A border that a mismatch at position n does not rule out at once. */
  ghost predicate Useful(p: string, n: int, k: int) {
    Border(p, n, k) && n < |p| && p[k] != p[n]
  }

  /** k is the longest useful border at n, or -1 when there is none. */
  ghost predicate Strong(p: string, n: int, k: int) {
    (k == -1 || Useful(p, n, k)) && forall b :: Useful(p, n, b) ==> b <= k
  }

  /** The strong failure function, with the plain one at the end of the needle. */
  ghost predicate IsTable(p: string, t: seq<int>) {
    && |t| == |p| + 1
    && (forall n :: 0 <= n < |p| ==> Strong(p, n, t[n]))
    && Longest(p, |p|, t[|p|])
  }

  /** Every border at i that the character there extends is at most j. */
  ghost predicate ExtendsBelow(p: string, i: int, j: int)
    requires 0 <= i < |p|
  {
    forall k :: Border(p, i, k) && p[k] == p[i] ==> k <= j
  }

  lemma BorderExtends(p: string, n: int, k: int)
    requires 0 <= k < n < |p|
    ensures Border(p, n + 1, k + 1) <==> Border(p, n, k) && p[k] == p[n]
  {
    assert p[..k + 1] == p[..k] + [p[k]];
    assert p[n - k..n + 1] == p[n - k..n] + [p[n]];
  }

  /** Two borders of one prefix are borders of each other. */
  lemma BorderNested(p: string, n: int, j: int, k: int)
    requires Border(p, n, j) && 0 <= k < j
    ensures Border(p, n, k) <==> Border(p, j, k)
  {
    assert p[j - k..j] == p[..j][j - k..];
    assert p[n - k..n] == p[n - j..n][j - k..];
  }

  /** From j, the failure table leads to the next border that can still be extended by p[i]. */
  lemma NextCandidate(p: string, i: int, j: int, next: int)
    requires Border(p, i, j) && i < |p| && p[i] != p[j] && Strong(p, j, next)
    requires ExtendsBelow(p, i, j)
    ensures -1 <= next < j && (next == -1 || Border(p, i, next))
    ensures ExtendsBelow(p, i, next)
  {
    if next != -1 {
      BorderNested(p, i, j, next);
    }
    forall k | Border(p, i, k) && p[k] == p[i]
      ensures k <= next
    {
      BorderNested(p, i, j, k);
      assert Useful(p, j, k);
    }
  }

  lemma NextLongest(p: string, i: int, j: int)
    requires 0 <= i < |p| && -1 <= j < i
    requires j == -1 || (Border(p, i, j) && p[i] == p[j])
    requires ExtendsBelow(p, i, j)
    ensures Longest(p, i + 1, j + 1)
  {
    if j >= 0 {
      BorderExtends(p, i, j);
    }
    var n := i + 1;
    forall b | Border(p, n, b)
      ensures b <= j + 1
    {
      if b > 0 {
        BorderExtends(p, i, b - 1);
      }
    }
  }

  /** The table entry at i from the longest border there. */
  lemma StrongEntry(p: string, i: int, j: int, tj: int)
    requires 0 < i < |p| && Longest(p, i, j) && Strong(p, j, tj)
    ensures Strong(p, i, if p[i] == p[j] then tj else j)
  {
    if p[i] == p[j] && tj != -1 {
      BorderNested(p, i, j, tj);
    }
    forall b | Useful(p, i, b)
      ensures b <= if p[i] == p[j] then tj else j
    {
      if p[i] == p[j] {
        BorderNested(p, i, j, b);
        assert Useful(p, j, b);
      }
    }
  }

  // ---------- what falls cost ----------

  /** A prefix with a border one shorter than itself is one character over and over, so if the next character
      breaks the run, nothing useful is left one step down. */
  lemma UnitFall(p: string, x: int, next: int)
    requires 1 <= x < |p| && Strong(p, x, x - 1) && Strong(p, x - 1, next)
    ensures next == -1
  {
    if next != -1 {
      OneCharacter(p, x, next);
      OneCharacter(p, x, x - 1);
    }
  }

  lemma {:induction false} OneCharacter(p: string, x: int, k: int)
    requires Border(p, x, x - 1) && 0 <= k < x
    ensures p[k] == p[0]
  {
    if k > 0 {
      OneCharacter(p, x, k - 1);
      assert p[..x - 1][k - 1] == p[1..x][k - 1];
    }
  }

  /** After f falls through the table from j one is at x. A fall by one leaves, but for the last one,
      only the fall to -1; the others lose two or more. */
  ghost predicate Fallen(p: string, j: int, x: int, f: int, unit: bool) {
    && -1 <= x <= j && f <= j - x
    && (if x == -1 then 2 * f <= j + 3 else 2 * f <= j - x + if unit then 1 else 0)
    && (unit ==> 0 <= x < |p| - 1 && Strong(p, x + 1, x))
  }

  lemma NextFall(p: string, j: int, x: int, f: int, unit: bool, next: int)
    requires Fallen(p, j, x, f, unit) && 0 <= x < |p| && Strong(p, x, next)
    ensures Fallen(p, j, next, f + 1, 0 <= next == x - 1)
  {
    if unit {
      UnitFall(p, x + 1, next);
    }
  }

  // ---------- the forward table ----------

  /** The inner loop of _utstring_BuildTable: the longest border at i that p[i] extends.
      `steps` counts the comparisons; a mismatch costs at least one unit of j, and all but three cost two. */
  method FallBack(p: string, t: array<int>, i: int, j0: int) returns (j: int, ghost steps: nat)
    requires 0 <= i < |p| < t.Length && Longest(p, i, j0)
    requires forall n :: 0 <= n <= i ==> Strong(p, n, t[n])
    ensures -1 <= j < i && j <= j0 && (j == -1 || (Border(p, i, j) && p[i] == p[j]))
    ensures ExtendsBelow(p, i, j)
    ensures steps <= j0 - j + 1 && 2 * steps <= j0 - j + 3 && (j0 == -1 ==> steps == 0)
  {
    j, steps := j0, 0;
    ghost var unit := false;
    LongestExtends(p, i, j);
    hide Strong, Border, Longest, ExtendsBelow;
    while j > -1 && p[i] != p[j]
      invariant -1 <= j < i && (j == -1 || Border(p, i, j))
      invariant ExtendsBelow(p, i, j)
      invariant Fallen(p, j0, j, steps, unit)
      decreases j
    {
      NextCandidate(p, i, j, t[j]);
      NextFall(p, j0, j, steps, unit, t[j]);
      unit := 0 <= t[j] == j - 1;
      j := t[j];
      steps := steps + 1;
    }
    steps := if j > -1 then steps + 1 else steps;
  }

  /** What building the table has cost when i characters are done, the longest border there is j, and the
      longest border on the way was top. */
  ghost predicate Built(m: int, i: int, j: int, top: int, steps: int) {
    && -1 <= j <= top
    && (if i == 0 then steps == 0 && j == top == -1
        else j >= 0 && 2 * steps + j + top <= 6 * i - if i < m then 4 else 6)
  }

  /** One more character: `more` comparisons in the inner loop, from j down to k, and one behind it
      unless the needle ends. */
  lemma BuiltNext(m: int, i: int, j: int, top: int, steps: int, k: int, more: int)
    requires 0 <= i < m && Built(m, i, j, top, steps) && -1 <= k <= j
    requires more <= j - k + 1 && 2 * more <= j - k + 3 && (j == -1 ==> more == 0)
    ensures Built(m, i + 1, k + 1, if k + 1 > top then k + 1 else top, steps + more + if i + 1 < m then 1 else 0)
  {
  }

  /** _utstring_BuildTable; `steps` counts the comparisons of needle characters, at most three for each,
      and fewer the further a search can fall. */
  method BuildTable(p: string, t: array<int>) returns (ghost steps: nat)
    requires t.Length == |p| + 1
    modifies t
    ensures IsTable(p, t[..])
    ensures steps <= 3 * |p|
    ensures forall n :: 0 <= n < |p| ==> 2 * steps + t[n] <= 6 * |p| - 6
  {
    hide Strong, Border, Longest, ExtendsBelow;
    steps := 0;
    var i, j := 0, -1;
    ghost var top := -1;
    t[i] := j;
    StrongAtZero(p);
    while i < |p|
      invariant 0 <= i <= |p| && -1 <= j < i
      invariant Longest(p, i, j) && (i == |p| ==> t[i] == j)
      invariant forall n :: 0 <= n <= i && n < |p| ==> Strong(p, n, t[n])
      invariant forall n :: 0 <= n <= i && n < |p| ==> t[n] <= top
      invariant Built(|p|, i, j, top, steps)
    {
      ghost var more, was := 0, j;
      j, more := FallBack(p, t, i, j);
      BuiltNext(|p|, i, was, top, steps, j, more);
      steps := steps + more;
      NextLongest(p, i, j);
      i := i + 1;
      j := j + 1;
      top := if j > top then j else top;
      if i < |p| {
        StrongEntry(p, i, j, t[j]);
        StrongBound(p, j, t[j]);
        steps := steps + 1;
        if p[i] == p[j] {
          t[i] := t[j];
        } else {
          t[i] := j;
        }
      } else {
        t[i] := j;
      }
    }
  }

  lemma StrongBound(p: string, n: int, k: int)
    ensures Strong(p, n, k) && n >= 0 ==> k < n
  {
  }

  lemma LongestExtends(p: string, i: int, j: int)
    requires 0 <= i < |p| && Longest(p, i, j)
    ensures -1 <= j < i && (j == -1 || Border(p, i, j)) && ExtendsBelow(p, i, j)
  {
  }

  lemma StrongAtZero(p: string)
    ensures Strong(p, 0, -1) && Longest(p, 0, -1)
  {
  }

  // ---------- the forward search ----------

  /** The needle stands in the haystack at position q. */
  ghost predicate Occurs(h: string, p: string, q: int) {
    0 <= q <= |h| - |p| && h[q..q + |p|] == p
  }

  /** The first i characters of the needle stand before position j. */
  ghost predicate Matched(h: string, p: string, i: int, j: int) {
    0 <= i <= |p| && i <= j <= |h| && h[j - i..j] == p[..i]
  }

  lemma OccursAgrees(h: string, p: string, q: int, x: int)
    requires Occurs(h, p, q) && 0 <= x < |p|
    ensures h[q + x] == p[x]
  {
    assert h[q..q + |p|][x] == h[q + x];
  }

  lemma OccursMatches(h: string, p: string, q: int, j: int)
    requires Occurs(h, p, q) && q <= j <= q + |p|
    ensures Matched(h, p, j - q, j)
  {
    assert h[q..j] == h[q..q + |p|][..j - q];
  }

  /** A match of a border of the matched part is a shorter match. */
  lemma MatchBorder(h: string, p: string, i: int, j: int, k: int)
    requires Matched(h, p, i, j) && 0 <= k < i
    ensures Border(p, i, k) <==> Matched(h, p, k, j)
  {
    assert h[j - k..j] == h[j - i..j][i - k..];
    assert p[i - k..i] == p[..i][i - k..];
  }

  lemma ShorterMatch(h: string, p: string, i: int, j: int, next: int)
    requires Matched(h, p, i, j) && Strong(p, i, next)
    ensures -1 <= next < i && (next >= 0 ==> Matched(h, p, next, j))
  {
    if next != -1 {
      MatchBorder(h, p, i, j, next);
    }
  }

  /** After a mismatch every occurrence that is still possible starts where the table says, or later. */
  lemma Shift(h: string, p: string, i: int, j: int, next: int, q: int)
    requires Matched(h, p, i, j) && i < |p| && j < |h| && h[j] != p[i] && Strong(p, i, next)
    requires Occurs(h, p, q) && q >= j - i
    ensures q >= j - next
  {
    if q <= j {
      OccursAgrees(h, p, q, j - q);
      if q > j - i {
        OccursMatches(h, p, q, j);
        MatchBorder(h, p, i, j, j - q);
        assert Useful(p, i, j - q);
      }
    }
  }

  /** The inner loop of _utstring_find: slide until the next character fits, or past it. */
  method Slide(h: string, p: string, t: array<int>, i0: int, j: int) returns (i: int, ghost steps: nat)
    requires |p| < t.Length && forall n :: 0 <= n < |p| ==> Strong(p, n, t[n])
    requires Matched(h, p, i0, j) && i0 < |p| && j < |h|
    requires forall q :: Occurs(h, p, q) ==> q >= j - i0
    ensures -1 <= i <= i0 && Matched(h, p, i + 1, j + 1)
    ensures forall q :: Occurs(h, p, q) ==> q >= j - i
    ensures steps <= i0 - i + 1 && (i < i0 ==> 2 * steps <= t[i0] + 5)
  {
    hide Strong, Occurs, Border;
    i, steps := i0, 0;
    ghost var unit := false;
    while i > -1 && p[i] != h[j]
      invariant -1 <= i <= i0 && (i >= 0 ==> Matched(h, p, i, j))
      invariant forall q :: Occurs(h, p, q) ==> q >= j - i
      invariant steps <= i0 - i
      invariant if i == i0 then steps == 0 && !unit else Fallen(p, t[i0], i, steps - 1, unit)
    {
      var next := t[i];
      if i < i0 {
        NextFall(p, t[i0], i, steps - 1, unit, next);
        unit := 0 <= next == i - 1;
      }
      forall q | Occurs(h, p, q)
        ensures q >= j - next
      {
        Shift(h, p, i, j, next, q);
      }
      ShorterMatch(h, p, i, j, next);
      i := next;
      steps := steps + 1;
    }
    steps := if i > -1 then steps + 1 else steps;
    if i >= 0 {
      MatchNext(h, p, i, j);
    }
  }

  lemma MatchNext(h: string, p: string, i: int, j: int)
    requires Matched(h, p, i, j) && i < |p| && j < |h| && p[i] == h[j]
    ensures Matched(h, p, i + 1, j + 1)
  {
    assert h[j - i..j + 1] == h[j - i..j] + [h[j]];
    assert p[..i + 1] == p[..i] + [p[i]];
  }

  /** The cost of a search with the haystack read up to j and i characters of the needle matched: either enough
      haystack is left to go on, or the last slide began at `last`, when there still was enough. */
  ghost predicate Searched(n: int, m: int, i: int, j: int, last: int, entry: int, steps: int) {
    && steps <= 2 * j - i
    && (n - j + i >= m || n < m || (0 <= last < m && 2 * steps <= 4 * (n - m) + 2 * last + entry + 5))
  }

  lemma SearchedNext(n: int, m: int, i: int, j: int, last: int, entry: int, steps: int, k: int, more: int, there: int)
    requires Searched(n, m, i, j, last, entry, steps) && 0 <= i < m && n - j + i >= m
    requires -1 <= k <= i && more <= i - k + 1 && (k < i ==> 2 * more <= there + 5)
    ensures if k < i then Searched(n, m, k + 1, j + 1, i, there, steps + more)
            else Searched(n, m, k + 1, j + 1, last, entry, steps + more)
  {
  }

  lemma SearchedStart(n: int, m: int, entry: int)
    ensures Searched(n, m, 0, 0, 0, entry, 0)
  {
  }

  lemma SearchedEnd(n: int, m: int, i: int, j: int, last: int, entry: int, steps: int)
    requires Searched(n, m, i, j, last, entry, steps) && j <= n
    ensures 0 <= i <= m ==> steps <= 2 * n - i
    ensures i < m && (j == n || n - j + i < m) && n >= m ==>
              0 <= last < m && 2 * steps <= 4 * (n - m) + 2 * last + entry + 5
  {
  }

  /** _utstring_find: the leftmost occurrence, or -1 when there is none; at most two comparisons for each
      character of the haystack. `last` is where in the needle the last slide began. */
  method SearchForward(h: string, p: string, t: array<int>) returns (r: int, ghost steps: nat, ghost last: int)
    requires p != "" && IsTable(p, t[..])
    ensures r == -1 <==> forall q :: !Occurs(h, p, q)
    ensures r != -1 ==> Occurs(h, p, r) && forall q :: Occurs(h, p, q) ==> q >= r
    ensures steps <= 2 * |h| && (r != -1 ==> steps <= 2 * |h| - |p|)
    ensures r == -1 && |h| >= |p| ==> 0 <= last < |p| && 2 * steps <= 4 * (|h| - |p|) + 2 * last + t[last] + 5
  {
    hide Strong, Longest;
    assert forall n :: 0 <= n < |p| ==> t[..][n] == t[n];
    SearchedStart(|h|, |p|, t[0]);
    hide Searched;
    steps, last := 0, 0;
    var i, j := 0, 0;
    while j < |h| && |h| - j + i >= |p|
      invariant 0 <= i < |p| && Matched(h, p, i, j) && 0 <= last < |p|
      invariant forall q :: Occurs(h, p, q) ==> q >= j - i
      invariant Searched(|h|, |p|, i, j, last, t[last], steps)
    {
      ghost var more, was := 0, i;
      i, more := Slide(h, p, t, i, j);
      SearchedNext(|h|, |p|, was, j, last, t[last], steps, i, more, t[was]);
      last := if i < was then was else last;
      steps := steps + more;
      i := i + 1;
      j := j + 1;
      if i >= |p| {
        assert p[..i] == p;
        assert Occurs(h, p, j - i);
        SearchedEnd(|h|, |p|, i, j, last, t[last], steps);
        return j - i, steps, last;
      }
    }
    SearchedEnd(|h|, |p|, i, j, last, t[last], steps);
    r := -1;
  }

  // ---------- mirror images ----------

  lemma OccursMirrored(h: string, p: string, q: int)
    ensures Occurs(h, p, q) <==> Occurs(Reverse(h), Reverse(p), |h| - |p| - q)
  {
    var h', p', q' := Reverse(h), Reverse(p), |h| - |p| - q;
    if 0 <= q <= |h| - |p| {
      if Occurs(h, p, q) {
        forall x | 0 <= x < |p|
          ensures h'[q'..q' + |p|][x] == p'[x]
        {
          OccursAgrees(h, p, q, |p| - 1 - x);
        }
        assert h'[q'..q' + |p|] == p';
      }
      if Occurs(h', p', q') {
        forall x | 0 <= x < |p|
          ensures h[q..q + |p|][x] == p[x]
        {
          OccursAgrees(h', p', q', |p| - 1 - x);
        }
        assert h[q..q + |p|] == p;
      }
    }
  }

  /** The backward table at index x, in terms of the reversed needle. */
  ghost predicate StrongR(p: string, x: int, entry: int) {
    Strong(Reverse(p), |p| - x, |p| - 1 - entry)
  }

  ghost predicate LongestR(p: string, x: int, entry: int) {
    Longest(Reverse(p), |p| - x, |p| - 1 - entry)
  }

  /** The table built from right to left is the table of the reversed needle, read backwards. */
  ghost predicate IsTableR(p: string, t: seq<int>) {
    && |t| == |p| + 1
    && (forall x :: 0 < x <= |p| ==> StrongR(p, x, t[x]))
    && LongestR(p, 0, t[0])
  }

  lemma MirrorIsTable(p: string, t: seq<int>)
    requires |t| == |p| + 1
    ensures IsTableR(p, t) <==> IsTable(Reverse(p), seq(|t|, n requires 0 <= n < |t| => |p| - 1 - t[|p| - n]))
  {
    var u := seq(|t|, n requires 0 <= n < |t| => |p| - 1 - t[|p| - n]);
    if IsTableR(p, t) {
      assert forall n :: 0 <= n < |p| ==> StrongR(p, |p| - n, t[|p| - n]) ==> Strong(Reverse(p), n, u[n]);
    }
    if IsTable(Reverse(p), u) {
      assert forall x :: 0 < x <= |p| ==> Strong(Reverse(p), |p| - x, u[|p| - x]) ==> StrongR(p, x, t[x]);
    }
  }

  /** j is a border at i that no longer one extends, in the coordinates of the backward table. */
  ghost predicate CandidateR(p: string, i: int, j: int)
    requires 0 <= i < |p|
  {
    && i < j <= |p| && (j == |p| || Border(Reverse(p), |p| - 1 - i, |p| - 1 - j))
    && ExtendsBelow(Reverse(p), |p| - 1 - i, |p| - 1 - j)
  }

  lemma FirstCandidateR(p: string, i: int, j: int)
    requires 0 <= i < |p| && LongestR(p, i + 1, j)
    ensures CandidateR(p, i, j)
  {
  }

  lemma NextCandidateR(p: string, i: int, j: int, next: int)
    requires 0 <= i < |p| && CandidateR(p, i, j) && j < |p| && p[i] != p[j] && StrongR(p, j + 1, next)
    ensures j < next && CandidateR(p, i, next)
  {
    hide Strong, Border, ExtendsBelow;
    var p' := Reverse(p);
    assert p'[|p| - 1 - i] == p[i] && p'[|p| - 1 - j] == p[j];
    NextCandidate(p', |p| - 1 - i, |p| - 1 - j, |p| - 1 - next);
    BorderBound(p', |p| - 1 - i, |p| - 1 - next);
  }

  lemma BorderBound(p: string, n: int, k: int)
    ensures Border(p, n, k) ==> 0 <= k < n
  {
  }

  /** The inner loop of _utstring_BuildTableR, in mirrored coordinates the same as FallBack. */
  method FallBackR(p: string, t: array<int>, i: int, j0: int) returns (j: int, ghost steps: nat)
    requires 0 <= i < |p| < t.Length && LongestR(p, i + 1, j0)
    requires forall x :: i < x <= |p| ==> StrongR(p, x, t[x])
    ensures i < j <= |p| && j0 <= j
    ensures j == |p| || (Border(Reverse(p), |p| - 1 - i, |p| - 1 - j) && p[i] == p[j])
    ensures ExtendsBelow(Reverse(p), |p| - 1 - i, |p| - 1 - j)
    ensures steps <= j - j0 + 1 && 2 * steps <= j - j0 + 3 && (j0 == |p| ==> steps == 0)
  {
    hide LongestR, Border, ExtendsBelow, Reverse, Strong;
    j, steps := j0, 0;
    ghost var unit := false;
    FirstCandidateR(p, i, j);
    while j < |p| && p[i] != p[j]
      invariant CandidateR(p, i, j)
      invariant Fallen(Reverse(p), |p| - 1 - j0, |p| - 1 - j, steps, unit)
      decreases |p| - j
    {
      NextCandidateR(p, i, j, t[j + 1]);
      assert StrongR(p, j + 1, t[j + 1]);
      NextFall(Reverse(p), |p| - 1 - j0, |p| - 1 - j, steps, unit, |p| - 1 - t[j + 1]);
      unit := j + 1 == t[j + 1] < |p|;
      j := t[j + 1];
      steps := steps + 1;
    }
    steps := if j < |p| then steps + 1 else steps;
  }

  lemma StartR(p: string)
    ensures LongestR(p, |p|, |p|) && StrongR(p, |p|, |p|)
  {
    StrongAtZero(Reverse(p));
  }

  lemma NextLongestR(p: string, i: int, j: int)
    requires 0 <= i < j <= |p|
    requires j == |p| || (Border(Reverse(p), |p| - 1 - i, |p| - 1 - j) && p[i] == p[j])
    requires ExtendsBelow(Reverse(p), |p| - 1 - i, |p| - 1 - j)
    ensures LongestR(p, i, j - 1)
  {
    NextLongest(Reverse(p), |p| - 1 - i, |p| - 1 - j);
  }

  lemma StrongEntryR(p: string, i: int, j: int, tj: int)
    requires 0 <= i < |p| - 1 && i < j < |p| && LongestR(p, i + 1, j) && StrongR(p, j + 1, tj)
    ensures StrongR(p, i + 1, if p[i] == p[j] then tj else j) && j < tj
  {
    StrongEntry(Reverse(p), |p| - 1 - i, |p| - 1 - j, |p| - 1 - tj);
    StrongBound(Reverse(p), |p| - 1 - j, |p| - 1 - tj);
  }

  /** _utstring_BuildTableR */
  method BuildTableR(p: string, t: array<int>) returns (ghost steps: nat)
    requires t.Length == |p| + 1
    modifies t
    ensures IsTableR(p, t[..])
    ensures steps <= 3 * |p|
    ensures forall x :: 0 < x <= |p| ==> 2 * steps + |p| - 1 - t[x] <= 6 * |p| - 6
  {
    hide StrongR, LongestR, Border, ExtendsBelow, Reverse;
    steps := 0;
    var i := |p| - 1;
    var j := i + 1;
    ghost var top := -1;
    t[i + 1] := j;
    StartR(p);
    while i >= 0
      invariant -1 <= i < |p| && i < j <= |p|
      invariant LongestR(p, i + 1, j) && (i == -1 ==> t[i + 1] == j)
      invariant forall x :: i < x <= |p| && 0 < x ==> StrongR(p, x, t[x])
      invariant forall x :: i < x <= |p| && 0 < x ==> |p| - 1 - t[x] <= top
      invariant Built(|p|, |p| - 1 - i, |p| - 1 - j, top, steps)
    {
      ghost var more, was := 0, j;
      j, more := FallBackR(p, t, i, j);
      BuiltNext(|p|, |p| - 1 - i, |p| - 1 - was, top, steps, |p| - 1 - j, more);
      steps := steps + more;
      NextLongestR(p, i, j);
      i := i - 1;
      j := j - 1;
      top := if |p| - 1 - j > top then |p| - 1 - j else top;
      if i >= 0 {
        StrongEntryR(p, i, j, t[j + 1]);
        steps := steps + 1;
        if p[i] == p[j] {
          t[i + 1] := t[j + 1];
        } else {
          t[i + 1] := j;
        }
      } else {
        t[i + 1] := j;
      }
    }
  }

  /** The needle from i + 1 on stands before j + 1, and no occurrence that starts after it is left:
      Matched and its invariant, in mirrored coordinates. */
  ghost predicate StandsR(h: string, p: string, i: int, j: int) {
    && Matched(Reverse(h), Reverse(p), |p| - 1 - i, |h| - 1 - j)
    && forall q :: Occurs(Reverse(h), Reverse(p), q) ==> q >= |h| - 1 - j - (|p| - 1 - i)
  }

  /** The inner loop of _utstring_findR. */
  method SlideR(h: string, p: string, t: array<int>, i0: int, j: int) returns (i: int, ghost steps: nat)
    requires |p| < t.Length && forall x :: 0 < x <= |p| ==> StrongR(p, x, t[x])
    requires 0 <= i0 < |p| && 0 <= j < |h| && StandsR(h, p, i0, j)
    ensures i0 <= i <= |p| && StandsR(h, p, i - 1, j - 1)
    ensures steps <= i - i0 + 1 && (i > i0 ==> 2 * steps <= |p| - 1 - t[i0 + 1] + 5)
  {
    hide Strong, Occurs, Border, Matched;
    ghost var h', p', j' := Reverse(h), Reverse(p), |h| - 1 - j;
    i, steps := i0, 0;
    ghost var unit := false;
    while i < |p| && p[i] != h[j]
      invariant i0 <= i <= |p| && (i < |p| ==> Matched(h', p', |p| - 1 - i, j'))
      invariant forall q :: Occurs(h', p', q) ==> q >= j' - (|p| - 1 - i)
      invariant steps <= i - i0
      invariant if i == i0 then steps == 0 && !unit else Fallen(p', |p| - 1 - t[i0 + 1], |p| - 1 - i, steps - 1, unit)
      decreases |p| - i
    {
      assert StrongR(p, i + 1, t[i + 1]);
      var next := t[i + 1];
      if i > i0 {
        NextFall(p', |p| - 1 - t[i0 + 1], |p| - 1 - i, steps - 1, unit, |p| - 1 - next);
        unit := i + 1 == next < |p|;
      }
      forall q | Occurs(h', p', q)
        ensures q >= j' - (|p| - 1 - next)
      {
        Shift(h', p', |p| - 1 - i, j', |p| - 1 - next, q);
      }
      ShorterMatch(h', p', |p| - 1 - i, j', |p| - 1 - next);
      i := next;
      steps := steps + 1;
    }
    steps := if i < |p| then steps + 1 else steps;
    if i < |p| {
      MatchNext(h', p', |p| - 1 - i, j');
    } else {
      EmptyMatch(h', p', j' + 1);
    }
  }

  lemma EmptyMatch(h: string, p: string, j: int)
    requires 0 <= j <= |h|
    ensures Matched(h, p, 0, j)
  {
  }

  /** The cost of a search in mirrored coordinates. */
  ghost predicate SearchedR(n: int, m: int, i: int, j: int, last: int, entry: int, steps: int) {
    Searched(n, m, m - 1 - i, n - 1 - j, m - 1 - last, m - 1 - entry, steps)
  }

  lemma SearchedEndR(n: int, m: int, i: int, j: int, last: int, entry: int, steps: int)
    requires SearchedR(n, m, i, j, last, entry, steps) && -1 <= j && -1 <= i < m
    ensures steps <= 2 * n && (i == -1 ==> steps <= 2 * n - m)
    ensures i >= 0 && (j == -1 || j < i) && n >= m ==>
              0 <= last < m && 2 * steps <= 4 * (n - m) + 2 * (m - 1 - last) + (m - 1 - entry) + 5
  {
    SearchedEnd(n, m, m - 1 - i, n - 1 - j, m - 1 - last, m - 1 - entry, steps);
  }

  /** One slide, with its cost. */
  method AdvanceR(h: string, p: string, t: array<int>, i0: int, j: int, ghost steps0: nat, ghost last0: int)
    returns (i: int, ghost steps: nat, ghost last: int)
    requires |p| < t.Length && forall x :: 0 < x <= |p| ==> StrongR(p, x, t[x])
    requires 0 <= i0 < |p| && i0 <= j < |h| && StandsR(h, p, i0, j) && 0 <= last0 < |p|
    requires SearchedR(|h|, |p|, i0, j, last0, t[last0 + 1], steps0)
    ensures i0 <= i <= |p| && StandsR(h, p, i - 1, j - 1) && 0 <= last < |p|
    ensures SearchedR(|h|, |p|, i - 1, j - 1, last, t[last + 1], steps)
  {
    hide StandsR, StrongR;
    ghost var more;
    i, more := SlideR(h, p, t, i0, j);
    SearchedNext(|h|, |p|, |p| - 1 - i0, |h| - 1 - j, |p| - 1 - last0, |p| - 1 - t[last0 + 1], steps0, |p| - 1 - i,
                 more, |p| - 1 - t[i0 + 1]);
    last := if i > i0 then i0 else last0;
    steps := steps0 + more;
  }

  /** _utstring_findR: the rightmost occurrence, or -1 when there is none. */
  method SearchBackward(h: string, p: string, t: array<int>) returns (r: int, ghost steps: nat, ghost last: int)
    requires p != "" && IsTableR(p, t[..])
    ensures r == -1 <==> forall q :: !Occurs(h, p, q)
    ensures r != -1 ==> Occurs(h, p, r) && forall q :: Occurs(h, p, q) ==> q <= r
    ensures steps <= 2 * |h| && (r != -1 ==> steps <= 2 * |h| - |p|)
    ensures r == -1 && |h| >= |p| ==>
              0 <= last < |p| && 2 * steps <= 4 * (|h| - |p|) + 2 * (|p| - 1 - last) + (|p| - 1 - t[last + 1]) + 5
  {
    SearchedStart(|h|, |p|, |p| - 1 - t[|p|]);
    assert SearchedR(|h|, |p|, |p| - 1, |h| - 1, |p| - 1, t[|p|], 0);
    StartsR(h, p);
    assert forall x :: 0 < x <= |p| ==> StrongR(p, x, t[x]) by {
      assert forall x :: 0 < x <= |p| ==> t[..][x] == t[x];
    }
    hide Searched, SearchedR, StandsR, IsTableR, StrongR, Occurs;
    steps, last := 0, |p| - 1;
    var j, i := |h| - 1, |p| - 1;
    while j >= 0 && j >= i
      invariant -1 <= j < |h| && 0 <= i < |p| && StandsR(h, p, i, j)
      invariant 0 <= last < |p|
      invariant SearchedR(|h|, |p|, i, j, last, t[last + 1], steps)
      decreases j
    {
      i, steps, last := AdvanceR(h, p, t, i, j, steps, last);
      i := i - 1;
      j := j - 1;
      if i < 0 {
        FoundR(h, p, j);
        SearchedEndR(|h|, |p|, i, j, last, t[last + 1], steps);
        return j + 1, steps, last;
      }
    }
    SearchedEndR(|h|, |p|, i, j, last, t[last + 1], steps);
    r := -1;
    NowhereR(h, p, i, j);
  }

  lemma StartsR(h: string, p: string)
    ensures StandsR(h, p, |p| - 1, |h| - 1)
  {
  }

  lemma FoundR(h: string, p: string, j: int)
    requires StandsR(h, p, -1, j)
    ensures Occurs(h, p, j + 1) && forall q :: Occurs(h, p, q) ==> q <= j + 1
  {
    MatchIsOccurrence(Reverse(h), Reverse(p), |h| - 1 - j);
    Rightmost(h, p, j + 1);
  }

  lemma NowhereR(h: string, p: string, i: int, j: int)
    requires StandsR(h, p, i, j) && -1 <= j < |h| && 0 <= i < |p| && (j == -1 || j < i)
    ensures forall q :: !Occurs(h, p, q)
  {
    NoRoomLeft(Reverse(h), Reverse(p), |h| - 1 - j, |p| - 1 - i);
    NowhereMirrored(h, p);
  }

  lemma MatchIsOccurrence(h: string, p: string, j: int)
    requires Matched(h, p, |p|, j)
    ensures Occurs(h, p, j - |p|)
  {
    assert p[..|p|] == p;
  }

  /** The leftmost occurrence of the reversed needle is the rightmost of the needle. */
  lemma Rightmost(h: string, p: string, r: int)
    requires Occurs(Reverse(h), Reverse(p), |h| - |p| - r)
    requires forall q :: Occurs(Reverse(h), Reverse(p), q) ==> q >= |h| - |p| - r
    ensures Occurs(h, p, r) && forall q :: Occurs(h, p, q) ==> q <= r
  {
    OccursMirrored(h, p, r);
    forall q | Occurs(h, p, q)
      ensures q <= r
    {
      OccursMirrored(h, p, q);
    }
  }

  lemma NoRoomLeft(h: string, p: string, j: int, i: int)
    requires p != "" && j <= |h| && 0 <= i < |p| && (j == |h| || |h| - j + i < |p|)
    requires forall q :: Occurs(h, p, q) ==> q >= j - i
    ensures forall q :: !Occurs(h, p, q)
  {
  }

  lemma NowhereMirrored(h: string, p: string)
    requires forall q :: !Occurs(Reverse(h), Reverse(p), q)
    ensures forall q :: !Occurs(h, p, q)
  {
    forall q
      ensures !Occurs(h, p, q)
    {
      OccursMirrored(h, p, q);
    }
  }

  // ---------- strings ----------

  /** r is the first occurrence at or after s, or -1 when there is none. */
  ghost predicate FirstFrom(h: string, p: string, s: int, r: int) {
    && (r == -1 || (r >= s && Occurs(h, p, r)))
    && forall q :: q >= s && Occurs(h, p, q) ==> 0 <= r <= q
  }

  /** r is the last occurrence that ends at or before s, or -1 when there is none. */
  ghost predicate LastUpTo(h: string, p: string, s: int, r: int) {
    && (r == -1 || (r + |p| - 1 <= s && Occurs(h, p, r)))
    && forall q :: q + |p| - 1 <= s && Occurs(h, p, q) ==> q <= r
  }

  /** A UT_string: the first i bytes of d are in use, and a terminator stands behind them. */
  class UtString {
    var d: array<char>
    var i: nat

    ghost predicate Valid()
      reads this, d
    {
      i < d.Length && d[i] == NUL
    }

    ghost function Body(): string
      requires Valid()
      reads this, d
    {
      d[..i]
    }

    /** utstring_init */
    constructor ()
      ensures Valid() && Body() == "" && fresh(d)
    {
      d := new char[100](_ => NUL);
      i := 0;
    }

    /** utstring_bincpy: append l bytes and the terminator, reserving exactly what is missing. */
    method Append(b: string)
      requires Valid()
      modifies this, d
      ensures Valid() && Body() == old(Body()) + b && (d == old(d) || fresh(d))
    {
      if d.Length - i < |b| + 1 {
        var grown := new char[d.Length + |b| + 1](_ => ' ');
        forall x | 0 <= x < i {
          grown[x] := d[x];
        }
        d := grown;
      }
      assert d[..i] == old(Body());
      forall x | 0 <= x < |b| {
        d[i + x] := b[x];
      }
      i := i + |b|;
      d[i] := NUL;
    }

    /** utstring_find: the leftmost occurrence at or after the start position (negative
        positions count from the end), -1 when there is none or the needle is empty.
        The work is linear: building the table and searching together make at most two comparisons for each
        character of the needle and of the part that is searched. */
    method Find(start: int, p: string) returns (r: int, ghost steps: nat)
      requires Valid() && 0 <= i + start
      ensures p == "" ==> r == -1
      ensures p != "" ==> FirstFrom(Body(), p, if start < 0 then i + start else start, r)
      ensures var s := if start < 0 then i + start else start;
              steps <= 2 * (|p| + if s < i then i - s else 0)
    {
      hide FirstFrom, LastUpTo, Occurs, IsTable, IsTableR;
      r, steps := -1, 0;
      var s := if start < 0 then i + start else start;
      var len := i - s;
      if len >= |p| && |p| > 0 {
        var table := new int[|p| + 1];
        ghost var build, search, last;
        build := BuildTable(p, table);
        r, search, last := SearchForward(d[s..i], p, table);
        steps := build + search;
        assert d[s..i] == Body()[s..];
        FirstInTail(Body(), p, s, r);
        if r >= 0 {
          r := r + s;
        }
      } else {
        TooShort(Body(), p, s);
      }
    }

    /** utstring_findR: the rightmost occurrence that ends at or before the start position. */
    method FindR(start: int, p: string) returns (r: int, ghost steps: nat)
      requires Valid() && start < i
      ensures p == "" ==> r == -1
      ensures p != "" ==> LastUpTo(Body(), p, if start < 0 then i + start else start, r)
      ensures var s := if start < 0 then i + start else start;
              steps <= 2 * (|p| + if s < 0 then 0 else s + 1)
    {
      hide FirstFrom, LastUpTo, Occurs, IsTable, IsTableR;
      r, steps := -1, 0;
      var s := if start < 0 then i + start else start;
      var len := s + 1;
      if len >= |p| && |p| > 0 {
        var table := new int[|p| + 1];
        ghost var build, search, last;
        build := BuildTableR(p, table);
        r, search, last := SearchBackward(d[..len], p, table);
        steps := build + search;
        assert d[..len] == Body()[..len];
        LastInPrefix(Body(), p, len, r);
      } else {
        TooEarly(Body(), p, s);
      }
    }
  }

  lemma TooShort(h: string, p: string, s: int)
    requires |h| - s < |p| || p == ""
    ensures p != "" ==> FirstFrom(h, p, s, -1)
  {
  }

  lemma TooEarly(h: string, p: string, s: int)
    requires s + 1 < |p| || p == ""
    ensures p != "" ==> LastUpTo(h, p, s, -1)
  {
  }

  lemma FirstInTail(h: string, p: string, s: int, r: int)
    requires 0 <= s <= |h|
    requires r == -1 <==> forall q :: !Occurs(h[s..], p, q)
    requires r != -1 ==> Occurs(h[s..], p, r) && forall q :: Occurs(h[s..], p, q) ==> q >= r
    ensures FirstFrom(h, p, s, if r >= 0 then r + s else r)
    ensures r >= -1
  {
    OccursInTail(h, p, s, r);
    forall q | q >= s && Occurs(h, p, q)
      ensures Occurs(h[s..], p, q - s)
    {
      OccursInTail(h, p, s, q - s);
    }
  }

  lemma LastInPrefix(h: string, p: string, len: int, r: int)
    requires 0 <= len <= |h|
    requires r == -1 <==> forall q :: !Occurs(h[..len], p, q)
    requires r != -1 ==> Occurs(h[..len], p, r) && forall q :: Occurs(h[..len], p, q) ==> q <= r
    ensures LastUpTo(h, p, len - 1, r)
  {
    OccursInPrefix(h, p, len, r);
    forall q | q + |p| - 1 <= len - 1 && Occurs(h, p, q)
      ensures Occurs(h[..len], p, q)
    {
      OccursInPrefix(h, p, len, q);
    }
  }

  lemma OccursInTail(h: string, p: string, s: int, q: int)
    requires 0 <= s <= |h|
    ensures Occurs(h, p, q + s) && q >= 0 <==> Occurs(h[s..], p, q)
  {
    if 0 <= q <= |h| - s - |p| {
      assert h[s..][q..q + |p|] == h[q + s..q + s + |p|];
    }
  }

  lemma OccursInPrefix(h: string, p: string, len: int, q: int)
    requires 0 <= len <= |h|
    ensures Occurs(h, p, q) && q + |p| <= len <==> Occurs(h[..len], p, q)
  {
    if 0 <= q <= len - |p| {
      assert h[..len][q..q + |p|] == h[q..q + |p|];
    }
  }
}
