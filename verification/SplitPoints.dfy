/**
 Where the splitter prefers to cut, stated on the runes themselves: at the last newline close to the limit, else at
 the last blank, else at the limit; past a block that can still be closed; in front of a block that has just begun.
 */
module SplitPoints {
  import opened Basics
  import opened Runes
  import opened Fences
  import opened Splitter
  import opened SplitWeave
  import opened SplitBalance
  import opened SplitMessage

  // ----- the limit

  /** Half of a short limit, 50 runes less than a medium one, a tenth less than a long one. */
  lemma EffectiveLimits(maxLen: nat)
    requires maxLen >= 1
    ensures EffectiveLimit(maxLen) ==
      if maxLen < 100 then maxLen - maxLen / 2 else if maxLen < 500 then maxLen - 50 else maxLen - maxLen / 10
  {
  }

  // ----- the natural split point

  /** `end` is the last newline after `lo`, among the last `window` runes before `hi`. */
  ghost predicate LastNewline(s: string, lo: int, hi: int, window: nat, end: int) {
    && 0 <= end < |s| && lo < end < hi <= |s| && hi - window <= end && s[end] == '\n'
    && forall i :: end < i < hi ==> s[i] != '\n'
  }

  ghost predicate NoNewline(s: string, lo: int, hi: int, window: nat) {
    0 <= lo && hi <= |s| && forall i :: lo < i < hi && hi - window <= i ==> s[i] != '\n'
  }

  ghost predicate LastBlank(s: string, lo: int, hi: int, window: nat, end: int) {
    && 0 <= end < |s| && lo < end < hi <= |s| && hi - window <= end && (s[end] == ' ' || s[end] == '\t')
    && forall i :: end < i < hi ==> s[i] != ' ' && s[i] != '\t'
  }

  ghost predicate NoBlank(s: string, lo: int, hi: int, window: nat) {
    0 <= lo && hi <= |s| && forall i :: lo < i < hi && hi - window <= i ==> s[i] != ' ' && s[i] != '\t'
  }

  /** The preferred cut between `start` and `limit`: at a newline in reach, else at a blank in reach, else none. */
  ghost predicate PreferredCut(s: string, start: nat, limit: nat, end: int) {
    || LastNewline(s, start, limit, 200, end)
    || (NoNewline(s, start, limit, 200) && LastBlank(s, start, limit, 100, end))
  }

  ghost predicate NaturalCut(s: string, start: nat, limit: nat, end: int) {
    || PreferredCut(s, start, limit, end)
    || (NoNewline(s, start, limit, 200) && NoBlank(s, start, limit, 100) && end == limit)
  }

  lemma NewlineFound(s: string, start: nat, hi: nat)
    requires hi <= |s|
    ensures var nl := FindLast(s, start, hi, 200, IsNewline);
      if nl > start then LastNewline(s, start, hi, 200, nl) else NoNewline(s, start, hi, 200)
  {
    hide FindLast;
    FindLastSpec(s, start, hi, 200, IsNewline);
    var nl := FindLast(s, start, hi, 200, IsNewline);
    assert forall i :: 0 <= i < |s| ==> (IsNewline(s[i]) <==> s[i] == '\n');
  }

  lemma BlankFound(s: string, start: nat, hi: nat)
    requires hi <= |s|
    ensures var sp := FindLast(s, start, hi, 100, IsSpaceOrTab);
      if sp > start then LastBlank(s, start, hi, 100, sp) else NoBlank(s, start, hi, 100)
  {
    hide FindLast;
    FindLastSpec(s, start, hi, 100, IsSpaceOrTab);
    var sp := FindLast(s, start, hi, 100, IsSpaceOrTab);
    assert forall i :: 0 <= i < |s| ==> (IsSpaceOrTab(s[i]) <==> s[i] == ' ' || s[i] == '\t');
  }

  lemma NaturalEndIsNatural(s: string, start: nat, limit: nat)
    requires start < limit <= |s|
    ensures NaturalCut(s, start, limit, NaturalEnd(s, start, limit))
  {
    hide FindLast, LastNewline, NoNewline, LastBlank, NoBlank;
    NewlineFound(s, start, limit);
    BlankFound(s, start, limit);
  }

  /** There is only one such cut. */
  lemma NaturalCutIsUnique(s: string, start: nat, limit: nat, a: int, b: int)
    requires NaturalCut(s, start, limit, a) && NaturalCut(s, start, limit, b)
    ensures a == b
  {
  }

  // ----- the cut of an iteration

  /** Fence `u` opens the block that is open at `end` of the chunk from `start` on. */
  ghost predicate OpenIn(s: string, start: nat, end: int, u: int) {
    && 0 <= start <= u && u + 3 <= end <= |s| && FenceAt(s, u)
    && CountIn(s, start, u) % 2 == 0 && CountIn(s, u + 3, end) == 0
  }

  /** The line of fence `u` ends at `end`; a last line without newline counts as the bare fence. */
  ghost predicate IsLineEnd(s: string, u: nat, end: int) {
    || (u <= end < |s| && s[end] == '\n' && forall i :: u <= i < end ==> s[i] != '\n')
    || (end == u + 3 && forall i :: u <= i < |s| ==> s[i] != '\n')
  }

  /** `k` is the first fence at or after `from`. */
  ghost predicate FirstFence(s: string, from: nat, k: int) {
    from <= k && FenceAt(s, k) && forall i :: from <= i < k ==> !FenceAt(s, i)
  }

  /** The cut inside the block of fence `u`, when more than 20 runes of the block precede the natural cut. */
  ghost predicate CutInBlock(s: string, start: nat, maxLen: nat, lineEnd: int, cut: Cut) {
    var inner := start + maxLen - 5;
    && cut.Inside?
    && (|| (lineEnd < cut.end && LastNewline(s, start, inner, 200, cut.end))
        || (cut.end == inner && NoNewlineAfter(s, start, inner, lineEnd)))
  }

  /** No newline in reach of `hi` lies both after `lo` and after the fence line. */
  ghost predicate NoNewlineAfter(s: string, lo: int, hi: int, lineEnd: int) {
    0 <= lo && hi <= |s| && forall i :: lo < i < hi && hi - 200 <= i && lineEnd < i ==> s[i] != '\n'
  }

  /** The cut in front of the block of fence `u`; a block that starts the chunk is cut inside after all. */
  ghost predicate CutBeforeBlock(s: string, start: nat, maxLen: nat, u: nat, cut: Cut) {
    if exists end :: PreferredCut(s, start, u, end) then cut.Whole? && PreferredCut(s, start, u, cut.end)
    else if u - start > 20 then cut == Whole(u)
    else cut.Inside? && cut.end == start + maxLen - 5
  }

  lemma InnerCut(s: string, start: nat, maxLen: nat, msgEnd: nat, u: nat)
    requires maxLen >= 5 && start + maxLen < |s| && FenceAt(s, u)
    requires start <= u && u + 3 <= msgEnd <= start + maxLen && msgEnd > HeaderEnd(s, u) + 20
    ensures CutInBlock(s, start, maxLen, HeaderEnd(s, u), CutAtBlock(s, start, maxLen, msgEnd, u))
  {
    hide FindLast, HeaderEnd, Header;
    HeaderShape(s, u);
    NewlineFound(s, start, start + maxLen - 5);
  }

  lemma OuterCut(s: string, start: nat, maxLen: nat, msgEnd: nat, u: nat)
    requires maxLen >= 5 && start + maxLen < |s| && FenceAt(s, u)
    requires start <= u && u + 3 <= msgEnd <= start + maxLen && msgEnd <= HeaderEnd(s, u) + 20
    ensures CutBeforeBlock(s, start, maxLen, u, CutAtBlock(s, start, maxLen, msgEnd, u))
  {
    hide FindLast, HeaderEnd, Header, LastNewline, NoNewline, LastBlank, NoBlank;
    NewlineFound(s, start, u);
    BlankFound(s, start, u);
    var nl := FindLast(s, start, u, 200, IsNewline);
    var sp := FindLast(s, start, u, 100, IsSpaceOrTab);
    if nl > start {
      assert PreferredCut(s, start, u, nl);
    } else if sp > start {
      assert PreferredCut(s, start, u, sp);
    } else {
      NothingPreferred(s, start, u);
    }
  }

  lemma NothingPreferred(s: string, start: nat, hi: nat)
    requires NoNewline(s, start, hi, 200) && NoBlank(s, start, hi, 100)
    ensures !exists end :: PreferredCut(s, start, hi, end)
  {
  }

  lemma LineEndIs(s: string, u: nat)
    requires FenceAt(s, u)
    ensures IsLineEnd(s, u, HeaderEnd(s, u))
  {
    NewlineFromSpec(s, u);
    HeaderShape(s, u);
  }

  /** A text that fits is emitted whole; a chunk whose natural cut leaves no block open ends there. */
  lemma CutsNaturally(s: string, start: nat, maxLen: nat) returns (end: nat)
    requires maxLen >= 1 && start < |s|
    ensures Decide(s, start, maxLen) == Final <==> |s| - start <= maxLen
    ensures |s| - start > maxLen ==>
      && NaturalCut(s, start, start + EffectiveLimit(maxLen), end) && start < end <= start + maxLen
      && (CountIn(s, start, end) % 2 == 0 ==> Decide(s, start, maxLen) == Whole(end))
  {
    hide NaturalCut, CutOpen;
    end := start + 1;
    if |s| - start > maxLen {
      end := NaturalEnd(s, start, start + EffectiveLimit(maxLen));
      NaturalEndIsNatural(s, start, start + EffectiveLimit(maxLen));
      OpenFenceSpec(s, start, end, -1);
    }
  }

  /**
   Where a chunk ends whose natural cut falls into a block: right after the next fence if that is within the limit;
   else inside the block, or in front of it when at most 20 runes of the block precede the natural cut.
   */
  lemma CutsAtBlocks(s: string, start: nat, maxLen: nat, end: nat) returns (u: nat, lineEnd: nat)
    requires maxLen >= 1 && start < |s| && |s| - start > maxLen
    requires NaturalCut(s, start, start + EffectiveLimit(maxLen), end) && start < end <= |s|
    requires CountIn(s, start, end) % 2 == 1
    ensures OpenIn(s, start, end, u) && IsLineEnd(s, u, lineEnd)
    ensures var cut := Decide(s, start, maxLen);
      && (cut.Inside? ==> cut.header == Header(s, u))
      && (forall k :: FirstFence(s, end, k) && k + 3 - start <= maxLen ==> cut == Whole(k + 3))
      && ((forall k :: FirstFence(s, end, k) ==> k + 3 - start > maxLen) ==>
            if end > lineEnd + 20 then CutInBlock(s, start, maxLen, lineEnd, cut) else CutBeforeBlock(s, start, maxLen, u, cut))
  {
    hide NaturalCut, OpenIn, CutInBlock, CutBeforeBlock, CutOpen, Header, HeaderEnd, IsLineEnd, FirstFence, CountIn;
    NaturalEndIsNatural(s, start, start + EffectiveLimit(maxLen));
    NaturalCutIsUnique(s, start, start + EffectiveLimit(maxLen), end, NaturalEnd(s, start, start + EffectiveLimit(maxLen)));
    u := OpenAtCut(s, start, end);
    lineEnd := HeaderEnd(s, u);
    LineEndIs(s, u);
    CutsOpenBlock(s, start, maxLen, end, u);
  }

  lemma OpenAtCut(s: string, start: nat, end: nat) returns (u: nat)
    requires start < end <= |s| && CountIn(s, start, end) % 2 == 1
    ensures OpenFence(s, start, end, -1) == u && OpenIn(s, start, end, u)
  {
    hide OpenFence;
    OpenFenceSpec(s, start, end, -1);
    u := OpenFence(s, start, end, -1);
  }

  lemma CutsOpenBlock(s: string, start: nat, maxLen: nat, end: nat, u: nat)
    requires maxLen >= 5 && start + maxLen < |s| && FenceAt(s, u)
    requires start <= u && u + 3 <= end <= start + maxLen
    ensures var cut := CutOpen(s, start, maxLen, end, u); var lineEnd := HeaderEnd(s, u);
      && (cut.Inside? ==> cut.header == Header(s, u))
      && (forall k :: FirstFence(s, end, k) && k + 3 - start <= maxLen ==> cut == Whole(k + 3))
      && ((forall k :: FirstFence(s, end, k) ==> k + 3 - start > maxLen) ==>
            if end > lineEnd + 20 then CutInBlock(s, start, maxLen, lineEnd, cut) else CutBeforeBlock(s, start, maxLen, u, cut))
  {
    hide CutInBlock, CutBeforeBlock, CutAtBlock, Header, HeaderEnd, FirstFence, NextFence;
    NextFenceIsFirst(s, end);
    var c := NextFence(s, end, |s|);
    if c > 0 && c - start <= maxLen {
      assert FirstFence(s, end, c - 3);
    } else if end > HeaderEnd(s, u) + 20 {
      InnerCut(s, start, maxLen, end, u);
    } else {
      OuterCut(s, start, maxLen, end, u);
    }
  }

  lemma NextFenceIsFirst(s: string, from: nat)
    requires from <= |s|
    ensures var c := NextFence(s, from, |s|);
      forall k :: FirstFence(s, from, k) <==> c > 0 && k == c - 3
  {
    hide NextFence;
    NextFenceSpec(s, from, |s|);
  }

  // ----- texts without fences

  /** A slice of a text without fences as the splitter cuts it: the rest if that fits, else up to the natural cut. */
  ghost predicate CutSlice(content: string, maxLen: nat, from: nat, upto: nat)
    requires maxLen >= 1
  {
    && from <= upto <= |content|
    && if |content| - from <= maxLen then upto == |content|
       else from < upto && NaturalCut(content, from, from + EffectiveLimit(maxLen), upto)
  }

  /** The next slice starts at the first rune that is not blank. */
  ghost predicate NextSlice(content: string, upto: nat, from: nat) {
    && upto <= from <= |content|
    && (forall i :: upto <= i < from ==> content[i] == ' ' || content[i] == '\t' || content[i] == '\n' || content[i] == '\r')
    && (from < |content| ==>
          content[from] != ' ' && content[from] != '\t' && content[from] != '\n' && content[from] != '\r')
  }

  /** The slices of the chunks emitted so far, and where the next one starts. */
  ghost predicate Sliced(content: string, maxLen: nat, messages: seq<string>, froms: seq<nat>, uptos: seq<nat>, next: nat)
    requires maxLen >= 1
  {
    && |froms| == |uptos| == |messages|
    && (forall k :: 0 <= k < |messages| ==>
          CutSlice(content, maxLen, froms[k], uptos[k]) && messages[k] == content[froms[k]..uptos[k]])
    && (forall k :: 0 < k < |messages| ==> NextSlice(content, uptos[k - 1], froms[k]))
    && (if messages == [] then next == 0 else froms[0] == 0 && NextSlice(content, uptos[|messages| - 1], next))
  }

  lemma SkipsBlanks(s: string, from: nat)
    requires from <= |s|
    ensures NextSlice(s, from, SkipBlanks(s, from))
  {
    StartOfSpec(s, from, IsBlank);
  }

  lemma FencelessCut(s: string, start: nat, maxLen: nat)
    requires maxLen >= 1 && start < |s| && forall i :: !FenceAt(s, i)
    ensures var cut := Decide(s, start, maxLen);
      if |s| - start <= maxLen then cut == Final
      else cut.Whole? && CutSlice(s, maxLen, start, cut.end)
  {
    hide NaturalCut;
    var end := CutsNaturally(s, start, maxLen);
    if |s| - start > maxLen {
      CountNone(s, start, end);
    }
  }

  /** A text without fences is cut, again and again, at its natural split points. */
  lemma {:induction false} FencelessRunCutsNaturally(n: nat, content: string, maxLen: nat) returns (froms: seq<nat>, uptos: seq<nat>)
    requires maxLen >= 1 && forall i :: !FenceAt(content, i)
    ensures var st := After(n, content, maxLen);
      st.runes == content && st.start <= |content| && Sliced(content, maxLen, st.messages, froms, uptos, st.start)
    decreases n
  {
    hide Step, CutSlice, NextSlice;
    froms, uptos := [], [];
    if n == 0 {
    } else {
      hide Sliced;
      froms, uptos := FencelessRunCutsNaturally(n - 1, content, maxLen);
      var st := After(n - 1, content, maxLen);
      if !Done(st) {
        froms, uptos := FencelessNext(content, st, maxLen, froms, uptos);
      }
    }
  }

  lemma FencelessNext(content: string, st: State, maxLen: nat, froms: seq<nat>, uptos: seq<nat>)
    returns (froms': seq<nat>, uptos': seq<nat>)
    requires maxLen >= 1 && (forall i :: !FenceAt(content, i)) && st.runes == content && !Done(st)
    requires Sliced(content, maxLen, st.messages, froms, uptos, st.start)
    ensures var next := Step(st, maxLen);
      next.runes == content && next.start <= |content| && Sliced(content, maxLen, next.messages, froms', uptos', next.start)
  {
    hide Decide, Step, CutSlice, NextSlice, Sliced;
    FencelessCut(content, st.start, maxLen);
    var upto := if |content| - st.start <= maxLen then |content| else Decide(content, st.start, maxLen).end;
    FencelessStep(content, st, maxLen, froms, uptos, upto);
    froms', uptos' := froms + [st.start], uptos + [upto];
  }

  lemma FencelessStep(content: string, st: State, maxLen: nat, froms: seq<nat>, uptos: seq<nat>, upto: nat)
    requires maxLen >= 1 && st.runes == content && st.start < |content| && upto <= |content|
    requires Sliced(content, maxLen, st.messages, froms, uptos, st.start)
    requires Decide(content, st.start, maxLen) == if |content| - st.start <= maxLen then Final else Whole(upto)
    requires |content| - st.start <= maxLen ==> upto == |content|
    requires |content| - st.start > maxLen ==> CutSlice(content, maxLen, st.start, upto)
    ensures var next := Step(st, maxLen);
      && next.runes == content && next.start <= |content|
      && Sliced(content, maxLen, next.messages, froms + [st.start], uptos + [upto], next.start)
  {
    hide Decide, NextSlice, CutSlice, Sliced;
    DecideFits(st, maxLen);
    SkipsBlanks(content, upto);
    EndsThere(content);
    FinalSlice(content, st.start, maxLen, upto);
    assert content[st.start..] == content[st.start..|content|];
    SlicedAppend(content, maxLen, st.messages, froms, uptos, st.start, upto, Step(st, maxLen).start);
  }

  lemma FinalSlice(content: string, from: nat, maxLen: nat, upto: nat)
    requires maxLen >= 1 && from <= |content|
    ensures |content| - from <= maxLen && upto == |content| ==> CutSlice(content, maxLen, from, upto)
  {
  }

  lemma SlicedAppend(content: string, maxLen: nat, messages: seq<string>, froms: seq<nat>, uptos: seq<nat>, from: nat,
                     upto: nat, next: nat)
    requires maxLen >= 1 && from <= upto <= |content| && Sliced(content, maxLen, messages, froms, uptos, from)
    requires CutSlice(content, maxLen, from, upto) && NextSlice(content, upto, next)
    ensures Sliced(content, maxLen, messages + [content[from..upto]], froms + [from], uptos + [upto], next)
  {
    hide NextSlice, CutSlice;
  }

  lemma EndsThere(s: string)
    ensures NextSlice(s, |s|, |s|)
  {
  }

  /**
   All chunks of a text without fences: slices from natural split point to natural split point, starting at the
   first rune, with only blanks left out between them and after the last.
   */
  lemma FencelessChunksCutNaturally(content: string, maxLen: nat) returns (froms: seq<nat>, uptos: seq<nat>)
    requires maxLen >= 1 && forall i :: !FenceAt(content, i)
    ensures Sliced(content, maxLen, Chunks(content, maxLen), froms, uptos, |content|)
  {
    hide After, Sliced;
    assert Reopenable(content, maxLen) by { FencelessIsReopenable(content, maxLen); }
    RunEnds(content, maxLen);
    froms, uptos := FencelessRunCutsNaturally(|content|, content, maxLen);
  }

  lemma FencelessIsReopenable(content: string, maxLen: nat)
    requires forall i :: !FenceAt(content, i)
    ensures Reopenable(content, maxLen)
  {
  }
}
