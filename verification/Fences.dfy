/**
 Code fences: occurrences of three backticks, how many a stretch of text holds,
 which one is still open, and what the header line of a fenced block is.
 */
module Fences {
  import opened Runes

  predicate FenceAt(s: string, i: int) {
    0 <= i && i + 3 <= |s| && s[i] == '`' && s[i + 1] == '`' && s[i + 2] == '`'
  }

  /** The number of fences in `s[lo..hi]`, read from left to right without overlap. */
  function CountIn(s: string, lo: int, hi: int): nat
    requires 0 <= lo <= hi <= |s|
    decreases hi - lo
  {
    if hi - lo < 3 then 0
    else if FenceAt(s, lo) then 1 + CountIn(s, lo + 3, hi)
    else CountIn(s, lo + 1, hi)
  }

  function FenceCount(s: string): nat { CountIn(s, 0, |s|) }

  predicate Balanced(s: string) { FenceCount(s) % 2 == 0 }

  /** No fence of `s` has runes on both sides of position `m`. */
  predicate CleanCut(s: string, m: int) {
    !FenceAt(s, m - 1) && !FenceAt(s, m - 2)
  }

  /** The fence that is open at the end of `s[i..hi]` when `open` (or none, -1) is open at `i`. */
  function OpenFence(s: string, i: int, hi: int, open: int): (r: int)
    requires 0 <= i <= hi <= |s|
    requires -1 <= open < i
    ensures r == -1 || r == open || (i <= r && r + 3 <= hi && FenceAt(s, r))
    decreases hi - i
  {
    if hi - i < 3 then open
    else if FenceAt(s, i) then OpenFence(s, i + 3, hi, if open == -1 then i else -1)
    else OpenFence(s, i + 1, hi, open)
  }

  lemma CountStep(s: string, lo: int, hi: int)
    requires 0 <= lo <= hi <= |s|
    ensures CountIn(s, lo, hi) ==
      if hi - lo < 3 then 0
      else if FenceAt(s, lo) then 1 + CountIn(s, lo + 3, hi)
      else CountIn(s, lo + 1, hi)
  {
    hide FenceAt;
  }

  /** What the scan for an open fence returns, in terms of fence counts. */
  lemma {:induction false} OpenFenceSpec(s: string, i: int, hi: int, open: int)
    requires 0 <= i <= hi <= |s|
    requires -1 <= open < i
    ensures var r := OpenFence(s, i, hi, open); var before := if open == -1 then 0 else 1;
      && (r == -1 <==> (CountIn(s, i, hi) + before) % 2 == 0)
      && (-1 < r < i ==> CountIn(s, i, hi) == 0)
      && (r >= i ==> (CountIn(s, i, r) + before) % 2 == 0 && CountIn(s, r + 3, hi) == 0)
    decreases hi - i
  {
    hide FenceAt, CountIn;
    CountStep(s, i, hi);
    var r := OpenFence(s, i, hi, open);
    if i <= r {
      CountStep(s, i, r);
      CountStep(s, r + 3, hi);
      if i < r {
        CountStep(s, i + 1, r);
      }
    }
    if hi - i < 3 {
    } else if FenceAt(s, i) {
      OpenFenceSpec(s, i + 3, hi, if open == -1 then i else -1);
    } else {
      OpenFenceSpec(s, i + 1, hi, open);
    }
  }

  /** The index just after the first fence of `s[i..hi]`, or -1. */
  function NextFence(s: string, i: int, hi: int): (r: int)
    requires 0 <= i <= hi <= |s|
    ensures r == -1 || (i + 3 <= r <= hi && FenceAt(s, r - 3))
    decreases hi - i
  {
    if hi - i < 3 then -1
    else if FenceAt(s, i) then i + 3
    else NextFence(s, i + 1, hi)
  }

  lemma {:induction false} NextFenceSpec(s: string, i: int, hi: int)
    requires 0 <= i <= hi <= |s|
    ensures var r := NextFence(s, i, hi);
      forall k :: i <= k && k + 3 <= (if r == -1 then hi else r - 1) ==> !FenceAt(s, k)
    decreases hi - i
  {
    if hi - i < 3 || FenceAt(s, i) {
    } else {
      NextFenceSpec(s, i + 1, hi);
    }
  }

  /** The fence line that the splitter reopens: the trimmed line of fence `u`, or the bare fence on a last line. */
  function Header(s: string, u: int): string
    requires FenceAt(s, u)
  {
    var nl := NewlineFrom(s, u);
    if nl == -1 then TrimSpace(s[u..u + 3]) else TrimSpace(s[u..nl])
  }

  method FindLastUnclosedCodeBlockInRange(runes: string, start: nat, end: nat) returns (r: int)
    requires start <= end <= |runes|
    ensures r == OpenFence(runes, start, end, -1)
  {
    var inCodeBlock := false;
    var lastOpenIdx: int := -1;
    var i := start;
    while i < end
      invariant start <= i <= end
      invariant inCodeBlock ==> 0 <= lastOpenIdx < i
      invariant OpenFence(runes, start, end, -1)
             == OpenFence(runes, i, end, if inCodeBlock then lastOpenIdx else -1)
    {
      if i + 2 < end && runes[i] == '`' && runes[i + 1] == '`' && runes[i + 2] == '`' {
        if !inCodeBlock {
          lastOpenIdx := i;
        }
        inCodeBlock := !inCodeBlock;
        i := i + 2;
      }
      i := i + 1;
    }
    if inCodeBlock {
      return lastOpenIdx;
    }
    return -1;
  }

  method FindNextClosingCodeBlockInRange(runes: string, startIdx: nat, end: nat) returns (r: int)
    requires startIdx <= end <= |runes|
    ensures r == NextFence(runes, startIdx, end)
  {
    for i := startIdx to end
      invariant NextFence(runes, startIdx, end) == NextFence(runes, i, end)
    {
      if i + 2 < end && runes[i] == '`' && runes[i + 1] == '`' && runes[i + 2] == '`' {
        return i + 3;
      }
    }
    return -1;
  }

  // ----- counting lemmas

  lemma {:induction false} CountSplit(s: string, lo: int, m: int, hi: int)
    requires 0 <= lo <= m <= hi <= |s|
    requires CleanCut(s, m)
    ensures CountIn(s, lo, hi) == CountIn(s, lo, m) + CountIn(s, m, hi)
    decreases m - lo
  {
    if lo == m {
    } else if hi - lo >= 3 && FenceAt(s, lo) {
      assert lo != m - 1 && lo != m - 2;
      CountSplit(s, lo + 3, m, hi);
    } else {
      CountSplit(s, lo + 1, m, hi);
    }
  }

  /** The count of a stretch depends only on its runes. */
  lemma {:induction false} CountShift(s: string, t: string, lo: int, hi: int, d: int)
    requires 0 <= lo <= hi <= |s| && 0 <= lo + d && hi + d <= |t|
    requires forall i :: lo <= i < hi ==> s[i] == t[i + d]
    ensures CountIn(s, lo, hi) == CountIn(t, lo + d, hi + d)
    decreases hi - lo
  {
    if hi - lo < 3 {
    } else {
      assert s[lo] == t[lo + d] && s[lo + 1] == t[lo + 1 + d] && s[lo + 2] == t[lo + 2 + d];
      assert FenceAt(s, lo) == FenceAt(t, lo + d);
      if FenceAt(s, lo) {
        CountShift(s, t, lo + 3, hi, d);
      } else {
        CountShift(s, t, lo + 1, hi, d);
      }
    }
  }

  lemma {:induction false} CountNone(s: string, lo: int, hi: int)
    requires 0 <= lo <= hi <= |s|
    requires forall i :: lo <= i && i + 3 <= hi ==> !FenceAt(s, i)
    ensures CountIn(s, lo, hi) == 0
    decreases hi - lo
  {
    if hi - lo < 3 {
    } else {
      CountNone(s, lo + 1, hi);
    }
  }

  lemma {:induction false} CountZero(s: string, lo: int, hi: int, i: int)
    requires 0 <= lo <= i && i + 3 <= hi <= |s|
    requires CountIn(s, lo, hi) == 0
    ensures !FenceAt(s, i)
    decreases hi - lo
  {
    if i == lo {
    } else {
      CountZero(s, lo + 1, hi, i);
    }
  }
}
