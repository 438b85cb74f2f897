/**
 Rune sequences: white space, trimming, and the scanning helpers of the message splitter.
 A Go `[]rune` is a `string` here (one `char` per Unicode code point).
 */
module Runes {

  import opened Basics

  /** The four runes that the splitter trims and skips itself. */
  predicate IsBlank(c: char) {
    c == ' ' || c == '\t' || c == '\n' || c == '\r'
  }

  /** Go's `unicode.IsSpace`, which `strings.TrimSpace` uses. */
  predicate IsSpace(c: char) {
    || '\t' <= c <= '\r'
    || c == ' '
    || c == '\U{85}' || c == '\U{A0}' || c == '\U{1680}'
    || '\U{2000}' <= c <= '\U{200A}'
    || c == '\U{2028}' || c == '\U{2029}' || c == '\U{202F}' || c == '\U{205F}' || c == '\U{3000}'
  }

  predicate IsNewline(c: char) { c == '\n' }

  predicate IsSpaceOrTab(c: char) { c == ' ' || c == '\t' }

  // ----- trimming

  /** The length of `s[..n]` without its longest tail of runes that satisfy `cut`. */
  function EndOf(s: string, n: nat, cut: char -> bool): (m: nat)
    requires n <= |s|
    ensures m <= n
  {
    if n > 0 && cut(s[n - 1]) then EndOf(s, n - 1, cut) else n
  }

  lemma {:induction false} EndOfSpec(s: string, n: nat, cut: char -> bool)
    requires n <= |s|
    ensures var m := EndOf(s, n, cut); (forall i :: m <= i < n ==> cut(s[i])) && (m > 0 ==> !cut(s[m - 1]))
  {
    if n == 0 || !cut(s[n - 1]) {
    } else {
      EndOfSpec(s, n - 1, cut);
    }
  }

  /** The first index from `n` on whose rune does not satisfy `cut`. */
  function StartOf(s: string, n: nat, cut: char -> bool): (m: nat)
    requires n <= |s|
    ensures n <= m <= |s|
    decreases |s| - n
  {
    if n < |s| && cut(s[n]) then StartOf(s, n + 1, cut) else n
  }

  lemma {:induction false} StartOfSpec(s: string, n: nat, cut: char -> bool)
    requires n <= |s|
    ensures var m := StartOf(s, n, cut); (forall i :: n <= i < m ==> cut(s[i])) && (m < |s| ==> !cut(s[m]))
    decreases |s| - n
  {
    if n == |s| || !cut(s[n]) {
    } else {
      StartOfSpec(s, n + 1, cut);
    }
  }

  function TrimEnd(s: string, cut: char -> bool): string { s[..EndOf(s, |s|, cut)] }

  function TrimStart(s: string, cut: char -> bool): string { s[StartOf(s, 0, cut)..] }

  /** `strings.TrimRight(s, " \t\n\r")` */
  function TrimRight(s: string): string { TrimEnd(s, IsBlank) }

  /** `strings.TrimSpace(s)` */
  function TrimSpace(s: string): string { TrimEnd(TrimStart(s, IsSpace), IsSpace) }

  /** Trimming text that starts with a visible rune only removes white space at its end. */
  lemma TrimSpaceKeepsStart(s: string) returns (k: nat)
    requires s != [] && !IsSpace(s[0])
    ensures 0 < k <= |s| && TrimSpace(s) == s[..k] && !IsSpace(s[k - 1])
    ensures forall i :: k <= i < |s| ==> IsSpace(s[i])
  {
    assert s[0..] == s;
    k := EndOf(s, |s|, IsSpace);
    EndOfSpec(s, |s|, IsSpace);
  }

  lemma TrimSpaceIdentity(s: string)
    requires s != [] && !IsSpace(s[0]) && !IsSpace(s[|s| - 1])
    ensures TrimSpace(s) == s
  {
    var k := TrimSpaceKeepsStart(s);
    assert s[..|s|] == s;
  }

  // ----- scanning

  /** The greatest index in `[lo, hi)` whose rune satisfies `p`, or `none`. */
  function LastBefore(s: string, lo: int, hi: int, none: int, p: char -> bool): (r: int)
    requires 0 <= lo && hi <= |s|
    ensures r == none || lo <= r < hi
    decreases hi - lo
  {
    if hi <= lo then none
    else if p(s[hi - 1]) then hi - 1
    else LastBefore(s, lo, hi - 1, none, p)
  }

  lemma {:induction false} LastBeforeSpec(s: string, lo: int, hi: int, none: int, p: char -> bool)
    requires 0 <= lo && hi <= |s|
    ensures var r := LastBefore(s, lo, hi, none, p);
      || (lo <= r < hi && p(s[r]) && forall i :: r < i < hi ==> !p(s[i]))
      || (r == none && forall i :: lo <= i < hi ==> !p(s[i]))
    decreases hi - lo
  {
    if lo >= hi || p(s[hi - 1]) {
    } else {
      LastBeforeSpec(s, lo, hi - 1, none, p);
    }
  }

  /** The last rune satisfying `p` among the last `window` runes of `s[start..end]`; `start - 1` when there is none. */
  function FindLast(s: string, start: nat, end: nat, window: nat, p: char -> bool): (r: int)
    requires end <= |s|
    ensures r == start - 1 || start <= r < end
  {
    LastBefore(s, Max(end - window, start), end, start - 1, p)
  }

  lemma FindLastSpec(s: string, start: nat, end: nat, window: nat, p: char -> bool)
    requires end <= |s|
    ensures var r := FindLast(s, start, end, window, p);
      || (start <= r < end && end - window <= r && p(s[r]) && forall i :: r < i < end ==> !p(s[i]))
      || (r == start - 1 && forall i :: start <= i < end && end - window <= i ==> !p(s[i]))
  {
    LastBeforeSpec(s, Max(end - window, start), end, start - 1, p);
  }

  /** The first newline at or after `from`, or -1. */
  function NewlineFrom(s: string, from: nat): (r: int)
    requires from <= |s|
    ensures r == -1 || (from <= r < |s| && s[r] == '\n')
    decreases |s| - from
  {
    if from == |s| then -1
    else if s[from] == '\n' then from
    else NewlineFrom(s, from + 1)
  }

  lemma {:induction false} NewlineFromSpec(s: string, from: nat)
    requires from <= |s|
    ensures var r := NewlineFrom(s, from);
      forall i :: from <= i < (if r == -1 then |s| else r) ==> s[i] != '\n'
    decreases |s| - from
  {
    if from == |s| || s[from] == '\n' {
    } else {
      NewlineFromSpec(s, from + 1);
    }
  }

  /** The first index at or after `from` that does not hold a blank. */
  function SkipBlanks(s: string, from: nat): nat
    requires from <= |s|
  {
    StartOf(s, from, IsBlank)
  }

  method FindNewlineFrom(runes: string, from: nat) returns (r: int)
    requires from <= |runes|
    ensures r == NewlineFrom(runes, from)
  {
    for i := from to |runes|
      invariant NewlineFrom(runes, from) == NewlineFrom(runes, i)
    {
      if runes[i] == '\n' {
        return i;
      }
    }
    return -1;
  }

  method FindLastNewlineInRange(runes: string, start: nat, end: nat, searchWindow: nat) returns (r: int)
    requires end <= |runes|
    ensures r == FindLast(runes, start, end, searchWindow, IsNewline)
  {
    var searchStart := Max(end - searchWindow, start);
    var i := end - 1;
    while i >= searchStart
      invariant i < end
      invariant LastBefore(runes, searchStart, end, start - 1, IsNewline)
             == LastBefore(runes, searchStart, i + 1, start - 1, IsNewline)
    {
      if runes[i] == '\n' {
        return i;
      }
      i := i - 1;
    }
    return start - 1;
  }

  method FindLastSpaceInRange(runes: string, start: nat, end: nat, searchWindow: nat) returns (r: int)
    requires end <= |runes|
    ensures r == FindLast(runes, start, end, searchWindow, IsSpaceOrTab)
  {
    var searchStart := Max(end - searchWindow, start);
    var i := end - 1;
    while i >= searchStart
      invariant i < end
      invariant LastBefore(runes, searchStart, end, start - 1, IsSpaceOrTab)
             == LastBefore(runes, searchStart, i + 1, start - 1, IsSpaceOrTab)
    {
      if runes[i] == ' ' || runes[i] == '\t' {
        return i;
      }
      i := i - 1;
    }
    return start - 1;
  }
}
