/**
 Progress and fence balance: when every fence line is short enough, each iteration shrinks the
 pending text; when fences also start their lines, possibly indented, no cut lands inside a fenced block.
 */
module SplitBalance {
  import opened Runes
  import opened Fences
  import opened Splitter

  /** Only spaces and tabs lie between `i` and the start of its line. */
  predicate AfterIndent(s: string, i: nat)
    requires i <= |s|
  {
    i == 0 || s[i - 1] == '\n' || (IsSpaceOrTab(s[i - 1]) && AfterIndent(s, i - 1))
  }

  /** Every fence starts its line, possibly indented. */
  ghost predicate LineStart(s: string) {
    forall i :: FenceAt(s, i) ==> AfterIndent(s, i)
  }

  lemma BlankBeforeFence(s: string)
    requires LineStart(s)
    ensures forall k :: FenceAt(s, k) && k > 0 ==> IsNewline(s[k - 1]) || IsSpaceOrTab(s[k - 1])
  {
  }

  /** A line that holds something visible before `i` is not just indentation. */
  lemma {:induction false} NotIndented(s: string, p: nat, i: nat)
    requires p < i <= |s| && s[p] != '\n' && !IsSpaceOrTab(s[p])
    requires forall k :: p < k < i ==> s[k] != '\n'
    ensures !AfterIndent(s, i)
    decreases i
  {
    if p == i - 1 {
    } else {
      NotIndented(s, p, i - 1);
    }
  }

  /** From the last newline before an indented position on there is only indentation. */
  lemma {:induction false} OnlyIndent(s: string, nl: int, i: nat)
    requires -1 <= nl < i <= |s| && AfterIndent(s, i) && forall k :: nl < k < i ==> s[k] != '\n'
    ensures forall k :: nl < k < i ==> IsSpaceOrTab(s[k])
    decreases i
  {
    if nl == i - 1 {
    } else {
      OnlyIndent(s, nl, i - 1);
    }
  }

  /** Every fence line, trimmed, leaves room for a reopened chunk to make progress. */
  ghost predicate HeadersFit(s: string, maxLen: int) {
    forall i :: FenceAt(s, i) ==> |Header(s, i)| <= maxLen - 7
  }

  // ----- progress

  /** A newline found from a later end is never before the natural split point. */
  lemma BetterEndNotBefore(runes: string, start: nat, end: nat, inner: nat)
    requires start < end <= inner <= |runes|
    ensures var better := FindLast(runes, start, inner, 200, IsNewline);
      better > start ==> better >= NaturalEnd(runes, start, end)
  {
    hide FindLast, LastBefore;
    FindLastSpec(runes, start, end, 200, IsNewline);
    FindLastSpec(runes, start, inner, 200, IsNewline);
  }

  /** Whenever the cut is inside a block, it is at or after the natural split point. */
  lemma InsideNotBefore(runes: string, start: nat, maxLen: nat, msgEnd: nat, u: nat)
    requires maxLen >= 10 && start + maxLen < |runes|
    requires start <= u && u + 3 <= msgEnd && FenceAt(runes, u)
    requires msgEnd == NaturalEnd(runes, start, start + EffectiveLimit(maxLen))
    requires CutAtBlock(runes, start, maxLen, msgEnd, u).Inside?
    ensures var end := CutAtBlock(runes, start, maxLen, msgEnd, u).end;
      && msgEnd <= end <= start + maxLen - 5
      && (end >= HeaderEnd(runes, u) + 21 || end == start + maxLen - 5)
  {
    if msgEnd > HeaderEnd(runes, u) + 20 {
      HeaderShape(runes, u);
      BetterEndNotBefore(runes, start, start + EffectiveLimit(maxLen), start + maxLen - 5);
    }
  }

  /** Reopening costs less than the cut took. */
  lemma InsideShrinks(runes: string, start: nat, maxLen: nat)
    requires maxLen >= 1 && start < |runes| && HeadersFit(runes, maxLen)
    requires Decide(runes, start, maxLen).Inside?
    ensures var cut := Decide(runes, start, maxLen); |cut.header| + 1 < cut.end - start
  {
    var msgEnd, u := InsideCut(runes, start, maxLen);
    HeaderShape(runes, u);
    InsideNotBefore(runes, start, maxLen, msgEnd, u);
  }

  lemma StepShrinks(st: State, maxLen: nat)
    requires maxLen >= 1 && !Done(st) && HeadersFit(st.runes, maxLen)
    ensures var st' := Step(st, maxLen); |st'.runes| - st'.start < |st.runes| - st.start
  {
    DecideFits(st, maxLen);
    if Decide(st.runes, st.start, maxLen).Inside? {
      InsideShrinks(st.runes, st.start, maxLen);
    }
  }

  // ----- the rebuilt text

  /** `r` is a reopened line of `n` runes taken from fence `u` on, then a newline and `runes[end..]`, trimmed at the end. */
  ghost predicate Rebuilt(runes: string, u: nat, n: nat, end: nat, r: string) {
    && u + n <= |runes| && end <= |runes| && 3 <= n <= |r| <= n + 1 + |runes| - end
    && (forall i :: 0 <= i < n ==> r[i] == runes[u + i] && r[i] != '\n')
    && (|r| > n ==> r[n] == '\n')
    && (forall i :: n < i < |r| ==> r[i] == runes[end + i - n - 1])
    && (forall j :: end <= j < |runes| && end + |r| - n - 1 <= j ==> IsSpace(runes[j]))
    && FenceAt(r, 0)
  }

  lemma TrimRebuilds(runes: string, u: nat, end: nat)
    requires FenceAt(runes, u) && end <= |runes|
    ensures Rebuilt(runes, u, |Header(runes, u)|, end, TrimSpace(Header(runes, u) + "\n" + runes[end..]))
  {
    HeaderShape(runes, u);
    var h := Header(runes, u);
    var text := h + "\n" + runes[end..];
    var k := TrimSpaceKeepsStart(text);
    assert forall i :: 0 <= i < |h| ==> text[i] == h[i];
    SpliceTrims(runes, u, h, end, text, k);
  }

  lemma SpliceTrims(runes: string, u: nat, h: string, end: nat, text: string, k: nat)
    requires FenceAt(runes, u) && end <= |runes| && 3 <= |h| && u + |h| <= |runes|
    requires h == runes[u..u + |h|] && !IsSpace(h[|h| - 1]) && forall i :: 0 <= i < |h| ==> h[i] != '\n'
    requires text == h + "\n" + runes[end..]
    requires 0 < k <= |text| && !IsSpace(text[k - 1]) && forall i :: k <= i < |text| ==> IsSpace(text[i])
    ensures Rebuilt(runes, u, |h|, end, text[..k])
  {
    var r := text[..k];
    assert text[|h| - 1] == h[|h| - 1];
    assert |r| >= |h|;
    forall i | 0 <= i < |h| ensures r[i] == runes[u + i] && r[i] != '\n' {
      assert r[i] == h[i];
    }
    forall j | end <= j < |runes| && end + |r| - |h| - 1 <= j ensures IsSpace(runes[j]) {
      assert text[j - end + |h| + 1] == runes[j];
    }
  }

  /** A fence of a rebuilt text is a fence of the line it reopens, or of the kept runes. */
  lemma RebuiltFence(runes: string, u: nat, n: nat, end: nat, r: string, k: nat)
    requires Rebuilt(runes, u, n, end, r) && FenceAt(r, k)
    ensures (k + 3 <= n && FenceAt(runes, u + k)) || (k > n && FenceAt(runes, end + k - n - 1))
  {
  }

  lemma RebuiltHeader(runes: string, u: nat, n: nat, end: nat, r: string, k: nat)
    requires Rebuilt(runes, u, n, end, r) && FenceAt(r, k)
    ensures |Header(r, k)| <= n
         || (k > n && FenceAt(runes, end + k - n - 1) && Header(r, k) == Header(runes, end + k - n - 1))
  {
    HeaderShape(r, k);
    RebuiltFence(runes, u, n, end, r, k);
    var nl := NewlineFrom(r, k);
    if nl != -1 && k > n {
      var j := end + k - n - 1;
      SameHeader(r, k, runes, j, nl);
    }
  }

  /** Two fences with the same line have the same header. */
  lemma SameHeader(s: string, i: nat, t: string, j: nat, nl: nat)
    requires FenceAt(s, i) && FenceAt(t, j) && NewlineFrom(s, i) == nl && j + nl - i < |t|
    requires forall k :: i <= k <= nl ==> s[k] == t[k + (j - i)]
    ensures NewlineFrom(t, j) == j + nl - i && Header(s, i) == Header(t, j)
  {
    SameNewline(s, i, t, j, nl);
    assert s[i..nl] == t[j..j + nl - i];
  }

  lemma SameNewline(s: string, i: nat, t: string, j: nat, nl: nat)
    requires i <= nl < |s| && j + nl - i < |t| && NewlineFrom(s, i) == nl
    requires forall k :: i <= k <= nl ==> s[k] == t[k + (j - i)]
    ensures NewlineFrom(t, j) == j + nl - i
  {
    var d := j - i;
    NewlineFromSpec(s, i);
    NewlineFromSpec(t, j);
    assert t[nl + d] == '\n';
    forall k | j <= k < nl + d ensures t[k] != '\n' {
      assert s[k - d] == t[(k - d) + d];
    }
  }

  lemma RebuiltHeadersFit(runes: string, u: nat, n: nat, end: nat, r: string, maxLen: int)
    requires Rebuilt(runes, u, n, end, r) && HeadersFit(runes, maxLen) && n <= maxLen - 7
    ensures HeadersFit(r, maxLen)
  {
    forall k | FenceAt(r, k) ensures |Header(r, k)| <= maxLen - 7 {
      RebuiltHeader(runes, u, n, end, r, k);
    }
  }

  lemma StepHeadersFit(st: State, maxLen: nat)
    requires maxLen >= 1 && !Done(st) && HeadersFit(st.runes, maxLen)
    ensures HeadersFit(Step(st, maxLen).runes, maxLen)
  {
    DecideFits(st, maxLen);
    var cut := Decide(st.runes, st.start, maxLen);
    if cut.Inside? {
      var _, u := InsideCut(st.runes, st.start, maxLen);
      TrimRebuilds(st.runes, u, cut.end);
      RebuiltHeadersFit(st.runes, u, |cut.header|, cut.end, Step(st, maxLen).runes, maxLen);
    }
  }

  /** Indentation that is kept stays indentation. */
  lemma {:induction false} RebuiltIndent(runes: string, u: nat, n: nat, end: nat, r: string, j: nat)
    requires Rebuilt(runes, u, n, end, r) && end <= j <= |runes| && n < |r| && j - end + n + 1 <= |r| && AfterIndent(runes, j)
    ensures AfterIndent(r, j - end + n + 1)
    decreases j
  {
    if j == end || runes[j - 1] == '\n' {
    } else {
      RebuiltIndent(runes, u, n, end, r, j - 1);
    }
  }

  lemma RebuiltLineStart(runes: string, u: nat, n: nat, end: nat, r: string)
    requires Rebuilt(runes, u, n, end, r) && LineStart(runes)
    ensures LineStart(r)
    ensures forall k :: 0 < k <= n ==> !FenceAt(r, k)
  {
    forall k | FenceAt(r, k) ensures AfterIndent(r, k) && (k == 0 || k > n) {
      RebuiltFence(runes, u, n, end, r, k);
      if 0 < k <= n {
        assert forall q :: u <= q < u + n ==> runes[q] == r[q - u];
        NotIndented(runes, u, u + k);
      } else if k > n {
        RebuiltIndent(runes, u, n, end, r, end + k - n - 1);
      }
    }
  }

  // ----- balance

  lemma FenceEdgesClean(s: string, k: nat)
    requires LineStart(s) && FenceAt(s, k)
    ensures CleanCut(s, k) && CleanCut(s, k + 3)
  {
  }

  /** A stretch without backticks holds no fence. */
  lemma SpacesHoldNoFence(s: string, lo: nat, hi: nat)
    requires lo <= hi <= |s| && forall i :: lo <= i < hi ==> IsSpace(s[i])
    ensures CountIn(s, lo, hi) == 0
    ensures lo < hi ==> CleanCut(s, lo)
    ensures lo < hi ==> CleanCut(s, hi)
  {
    CountNone(s, lo, hi);
  }

  /** A hard cut never lands inside a fence: the newline or blank before the fence is close enough to be preferred. */
  lemma NaturalEndClean(runes: string, start: nat, end: nat, k: int)
    requires start + 5 <= end <= |runes| && LineStart(runes)
    requires NaturalEnd(runes, start, end) - 2 <= k < NaturalEnd(runes, start, end)
    ensures !FenceAt(runes, k)
  {
    hide FindLast;
    var msgEnd := NaturalEnd(runes, start, end);
    FindLastSpec(runes, start, end, 200, IsNewline);
    FindLastSpec(runes, start, end, 100, IsSpaceOrTab);
    BlankBeforeFence(runes);
    assert msgEnd < end ==> IsSpaceOrTab(runes[msgEnd]) || IsNewline(runes[msgEnd]);
  }

  lemma FencesNeedRoom(runes: string, maxLen: int, k: int)
    requires HeadersFit(runes, maxLen) && FenceAt(runes, k)
    ensures maxLen >= 10
  {
    HeaderShape(runes, k);
  }

  lemma NaturalCutClean(runes: string, start: nat, maxLen: nat)
    requires maxLen >= 1 && start + maxLen < |runes| && LineStart(runes) && HeadersFit(runes, maxLen)
    ensures CleanCut(runes, NaturalEnd(runes, start, start + EffectiveLimit(maxLen)))
  {
    hide LineStart, HeadersFit, NaturalEnd;
    var end := start + EffectiveLimit(maxLen);
    var msgEnd := NaturalEnd(runes, start, end);
    forall k: int | msgEnd - 2 <= k < msgEnd ensures !FenceAt(runes, k) {
      if FenceAt(runes, k) {
        FencesNeedRoom(runes, maxLen, k);
        NaturalEndClean(runes, start, end, k);
      }
    }
  }

  /** Extending a chunk over runes that hold no fence keeps its count. */
  lemma ExtendPlain(runes: string, start: nat, msgEnd: nat, end: nat)
    requires start <= msgEnd <= end <= |runes| && CleanCut(runes, msgEnd)
    requires forall k :: msgEnd <= k < end ==> !FenceAt(runes, k)
    ensures CleanCut(runes, end) && CountIn(runes, start, end) == CountIn(runes, start, msgEnd)
  {
    CountSplit(runes, start, msgEnd, end);
    CountNone(runes, msgEnd, end);
  }

  /** Extending a chunk to the end of the next fence adds one fence. */
  lemma ExtendToFence(runes: string, start: nat, msgEnd: nat, k: nat)
    requires LineStart(runes) && start <= msgEnd <= k && FenceAt(runes, k) && CleanCut(runes, msgEnd)
    requires forall i :: msgEnd <= i < k ==> !FenceAt(runes, i)
    ensures CleanCut(runes, k + 3) && CountIn(runes, start, k + 3) == CountIn(runes, start, msgEnd) + 1
  {
    FenceEdgesClean(runes, k);
    ExtendPlain(runes, start, msgEnd, k);
    CountSplit(runes, start, k, k + 3);
  }

  /** Ending a chunk in the white space in front of a fence. */
  lemma EndBeforeFence(runes: string, start: nat, end: nat, u: nat)
    requires start <= end < u <= |runes| && forall k :: end <= k < u ==> IsSpace(runes[k])
    ensures CleanCut(runes, end) && CountIn(runes, start, end) == CountIn(runes, start, u)
  {
    SpacesHoldNoFence(runes, end, u);
    CountSplit(runes, start, end, u);
  }

  /** A block is never cut from the middle of the line before it. */
  lemma WholeBlockCut(runes: string, start: nat, maxLen: nat, msgEnd: nat, u: nat)
    requires maxLen >= 5 && start + maxLen < |runes| && LineStart(runes)
    requires start <= u && u + 3 <= msgEnd <= start + maxLen && FenceAt(runes, u)
    requires CutAtBlock(runes, start, maxLen, msgEnd, u).Whole?
    ensures var end := CutAtBlock(runes, start, maxLen, msgEnd, u).end;
      start < end < u && forall k :: end <= k < u ==> IsSpace(runes[k])
  {
    hide FindLast, HeaderEnd, Header;
    FindLastSpec(runes, start, u, 200, IsNewline);
    FindLastSpec(runes, start, u, 100, IsSpaceOrTab);
    var nl := FindLast(runes, start, u, 200, IsNewline);
    if nl > start {
      OnlyIndent(runes, nl, u);
    } else if start < u {
      assert runes[u - 1] == '\n' || IsSpaceOrTab(runes[u - 1]);
    }
  }

  /** Where a cut at a block ends: just before the line of the block, or inside it. */
  lemma BlockCutBalances(runes: string, start: nat, maxLen: nat, msgEnd: nat, u: nat)
    requires maxLen >= 10 && start + maxLen < |runes| && LineStart(runes)
    requires msgEnd == NaturalEnd(runes, start, start + EffectiveLimit(maxLen)) && CleanCut(runes, msgEnd)
    requires start <= u && u + 3 <= msgEnd && FenceAt(runes, u)
    requires CountIn(runes, start, msgEnd) % 2 == 1 && CountIn(runes, start, u) % 2 == 0
    requires forall k :: msgEnd <= k <= start + maxLen - 3 ==> !FenceAt(runes, k)
    ensures var cut := CutAtBlock(runes, start, maxLen, msgEnd, u);
      && CleanCut(runes, cut.end)
      && (CountIn(runes, start, cut.end) % 2 == if cut.Whole? then 0 else 1)
  {
    var cut := CutAtBlock(runes, start, maxLen, msgEnd, u);
    if cut.Inside? {
      InsideNotBefore(runes, start, maxLen, msgEnd, u);
      ExtendPlain(runes, start, msgEnd, cut.end);
    } else {
      WholeBlockCut(runes, start, maxLen, msgEnd, u);
      EndBeforeFence(runes, start, cut.end, u);
    }
  }

  lemma OpenCutBalances(runes: string, start: nat, maxLen: nat, msgEnd: nat, u: nat)
    requires maxLen >= 10 && start + maxLen < |runes| && LineStart(runes)
    requires msgEnd == NaturalEnd(runes, start, start + EffectiveLimit(maxLen)) && CleanCut(runes, msgEnd)
    requires start <= u && u + 3 <= msgEnd && FenceAt(runes, u)
    requires CountIn(runes, start, msgEnd) % 2 == 1 && CountIn(runes, start, u) % 2 == 0
    ensures var cut := CutOpen(runes, start, maxLen, msgEnd, u);
      && CleanCut(runes, cut.end)
      && (CountIn(runes, start, cut.end) % 2 == if cut.Whole? then 0 else 1)
  {
    var c := NextFence(runes, msgEnd, |runes|);
    NextFenceSpec(runes, msgEnd, |runes|);
    if c > 0 && c - start <= maxLen {
      ExtendToFence(runes, start, msgEnd, c - 3);
    } else {
      BlockCutBalances(runes, start, maxLen, msgEnd, u);
    }
  }

  lemma DecideBalances(runes: string, start: nat, maxLen: nat)
    requires maxLen >= 1 && start < |runes| && LineStart(runes) && HeadersFit(runes, maxLen)
    requires !Decide(runes, start, maxLen).Final?
    ensures var cut := Decide(runes, start, maxLen);
      && CleanCut(runes, cut.end)
      && (CountIn(runes, start, cut.end) % 2 == if cut.Whole? then 0 else 1)
  {
    NaturalCutClean(runes, start, maxLen);
    var msgEnd := NaturalEnd(runes, start, start + EffectiveLimit(maxLen));
    var u := OpenFence(runes, start, msgEnd, -1);
    OpenFenceSpec(runes, start, msgEnd, -1);
    if u >= 0 {
      FencesNeedRoom(runes, maxLen, u);
      OpenCutBalances(runes, start, maxLen, msgEnd, u);
    }
  }

  // ----- chunks and the kept text

  lemma WholeChunkCount(runes: string, start: nat, end: nat)
    requires start <= end <= |runes|
    ensures FenceCount(runes[start..end]) == CountIn(runes, start, end)
  {
    CountShift(runes[start..end], runes, 0, end - start, start);
  }

  lemma InsideChunkCount(runes: string, start: nat, end: nat)
    requires start <= end <= |runes| && CleanCut(runes, end)
    ensures FenceCount(TrimRight(runes[start..end]) + CLOSING) == CountIn(runes, start, end) + 1
  {
    var head := runes[start..end];
    var m := EndOf(head, |head|, IsBlank);
    TrimmedCount(runes, start, end, m);
    var chunk := head[..m] + CLOSING;
    CountSplit(chunk, 0, m, m + 4);
    CountShift(chunk, runes, 0, m, start);
    assert chunk[m] == '\n' && FenceAt(chunk, m + 1);
    assert CountIn(chunk, m, m + 4) == CountIn(chunk, m + 1, m + 4) == 1;
  }

  lemma TrimmedCount(runes: string, start: nat, end: nat, m: nat)
    requires start <= end <= |runes| && CleanCut(runes, end)
    requires m == EndOf(runes[start..end], end - start, IsBlank)
    ensures CountIn(runes, start, end) == CountIn(runes, start, start + m)
  {
    EndOfSpec(runes[start..end], end - start, IsBlank);
    forall i | start + m <= i < end ensures IsSpace(runes[i]) {
      assert IsBlank(runes[start..end][i - start]);
    }
    SpacesHoldNoFence(runes, start + m, end);
    CountSplit(runes, start, start + m, end);
  }

  lemma SkippedCount(runes: string, end: nat)
    requires end <= |runes| && CleanCut(runes, end)
    ensures CountIn(runes, SkipBlanks(runes, end), |runes|) == CountIn(runes, end, |runes|)
  {
    var next := SkipBlanks(runes, end);
    StartOfSpec(runes, end, IsBlank);
    SpacesHoldNoFence(runes, end, next);
    CountSplit(runes, end, next, |runes|);
  }

  /** Reopening a block puts back exactly the one fence that the closing fence took. */
  lemma RebuiltCount(runes: string, u: nat, n: nat, end: nat, r: string)
    requires Rebuilt(runes, u, n, end, r) && LineStart(runes) && CleanCut(runes, end)
    ensures FenceCount(r) == 1 + CountIn(runes, end, |runes|)
  {
    RebuiltLineStart(runes, u, n, end, r);
    if |r| <= n + 1 {
      CountNone(r, 3, |r|);
      SpacesHoldNoFence(runes, end, |runes|);
    } else {
      var m := end + |r| - n - 1;
      CountSplit(r, 0, n + 1, |r|);
      CountNone(r, 3, n + 1);
      CountShift(r, runes, n + 1, |r|, end - n - 1);
      SpacesHoldNoFence(runes, m, |runes|);
      CountSplit(runes, end, m, |runes|);
    }
  }

  function PendingFences(st: State): nat
    requires st.start <= |st.runes|
  {
    CountIn(st.runes, st.start, |st.runes|)
  }

  /** One iteration: the chunk is balanced and the fences left to place keep their parity. */
  lemma EmitBalances(st: State, cut: Cut, u: nat)
    requires Fits(st, cut) && LineStart(st.runes) && !cut.Final?
    requires CleanCut(st.runes, cut.end)
    requires CountIn(st.runes, st.start, cut.end) % 2 == if cut.Whole? then 0 else 1
    requires cut.Inside? ==> FenceAt(st.runes, u) && cut.header == Header(st.runes, u)
    ensures Balanced(Chunk(st, cut)) && LineStart(Emit(st, cut).runes)
    ensures PendingFences(Emit(st, cut)) % 2 == PendingFences(st) % 2
  {
    hide CountIn, CleanCut, Header, TrimSpace, TrimRight, SkipBlanks;
    CountSplit(st.runes, st.start, cut.end, |st.runes|);
    match cut
    case Whole(end) =>
      WholeChunkCount(st.runes, st.start, end);
      SkippedCount(st.runes, end);
    case Inside(end, header) =>
      InsideChunkCount(st.runes, st.start, end);
      ReopenedCount(st.runes, u, end);
  }

  lemma ReopenedCount(runes: string, u: nat, end: nat)
    requires FenceAt(runes, u) && end <= |runes| && LineStart(runes) && CleanCut(runes, end)
    ensures var r := TrimSpace(Header(runes, u) + "\n" + runes[end..]);
      LineStart(r) && FenceCount(r) == 1 + CountIn(runes, end, |runes|)
  {
    TrimRebuilds(runes, u, end);
    var r := TrimSpace(Header(runes, u) + "\n" + runes[end..]);
    RebuiltCount(runes, u, |Header(runes, u)|, end, r);
    RebuiltLineStart(runes, u, |Header(runes, u)|, end, r);
  }

  /** The chunks so far close what they open; the last one carries the parity of the content. */
  ghost predicate BalancedSoFar(content: string, st: State) {
    && st.start <= |st.runes|
    && (forall k :: 0 <= k < |st.messages| - 1 ==> Balanced(st.messages[k]))
    && (if Done(st)
        then content != "" ==>
          && st.messages != []
          && FenceCount(st.messages[|st.messages| - 1]) % 2 == FenceCount(content) % 2
        else
          && (st.messages != [] ==> Balanced(st.messages[|st.messages| - 1]))
          && PendingFences(st) % 2 == FenceCount(content) % 2)
  }

  lemma StepBalances(content: string, st: State, maxLen: nat)
    requires maxLen >= 1 && !Done(st) && LineStart(st.runes) && HeadersFit(st.runes, maxLen)
    requires BalancedSoFar(content, st)
    ensures LineStart(Step(st, maxLen).runes) && BalancedSoFar(content, Step(st, maxLen))
  {
    DecideFits(st, maxLen);
    var cut := Decide(st.runes, st.start, maxLen);
    if cut.Final? {
      WholeChunkCount(st.runes, st.start, |st.runes|);
      assert st.runes[st.start..] == st.runes[st.start..|st.runes|];
    } else {
      DecideBalances(st.runes, st.start, maxLen);
      var u := 0;
      if cut.Inside? {
        var _, block := InsideCut(st.runes, st.start, maxLen);
        u := block;
      }
      EmitBalances(st, cut, u);
      BalancedAppend(content, st, Chunk(st, cut), Emit(st, cut));
    }
  }

  lemma BalancedAppend(content: string, st: State, chunk: string, st': State)
    requires BalancedSoFar(content, st) && !Done(st) && Balanced(chunk)
    requires st'.messages == st.messages + [chunk] && st'.start <= |st'.runes|
    requires PendingFences(st') % 2 == PendingFences(st) % 2
    ensures BalancedSoFar(content, st')
  {
  }

  /** What every iteration keeps, for a text whose fences start their lines and whose fence lines fit. */
  ghost predicate Steady(content: string, st: State, maxLen: nat) {
    LineStart(st.runes) && HeadersFit(st.runes, maxLen) && BalancedSoFar(content, st)
  }

  lemma StepKeepsSteady(content: string, st: State, maxLen: nat)
    requires maxLen >= 1 && !Done(st) && Steady(content, st, maxLen)
    ensures Steady(content, Step(st, maxLen), maxLen)
  {
    StepHeadersFit(st, maxLen);
    StepBalances(content, st, maxLen);
  }

  lemma SteadyStart(content: string, maxLen: nat)
    requires maxLen >= 1 && LineStart(content) && HeadersFit(content, maxLen)
    ensures Steady(content, Begin(content), maxLen)
  {
  }

  /** The splitter never leaves a chunk before the last with an open fence. */
  lemma {:induction false} RunBalances(n: nat, content: string, maxLen: nat)
    requires maxLen >= 1 && LineStart(content) && HeadersFit(content, maxLen)
    ensures Steady(content, After(n, content, maxLen), maxLen)
    decreases n
  {
    hide Step, Steady, LineStart, HeadersFit;
    if n == 0 {
      SteadyStart(content, maxLen);
    } else {
      RunBalances(n - 1, content, maxLen);
      var st := After(n - 1, content, maxLen);
      if !Done(st) {
        StepKeepsSteady(content, st, maxLen);
      }
    }
  }
}
