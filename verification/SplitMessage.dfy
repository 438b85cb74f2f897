/**
 The message splitter itself, its termination, and what its chunks amount to.
 */
module SplitMessage {
  import opened Basics
  import opened Runes
  import opened Fences
  import opened Splitter
  import opened SplitWeave
  import opened SplitBalance
  import opened SplitReopen

  // ----- termination

  /** No fence line is too long to be reopened. (Up to a limit of 4 no block is ever cut.) */
  ghost predicate Reopenable(s: string, maxLen: int) {
    maxLen <= 4 || HeadersFit(s, maxLen)
  }

  lemma StepMakesProgress(st: State, maxLen: nat)
    requires maxLen >= 1 && !Done(st) && Reopenable(st.runes, maxLen)
    ensures var st' := Step(st, maxLen);
      Reopenable(st'.runes, maxLen) && |st'.runes| - st'.start < |st.runes| - st.start
  {
    if maxLen > 4 {
      StepShrinks(st, maxLen);
      StepHeadersFit(st, maxLen);
    } else {
      DecideFits(st, maxLen);
    }
  }

  /** Each iteration takes at least one rune off the pending text. */
  lemma {:induction false} RunMakesProgress(n: nat, content: string, maxLen: nat)
    requires maxLen >= 1 && Reopenable(content, maxLen)
    ensures var st := After(n, content, maxLen);
      Reopenable(st.runes, maxLen) && (Done(st) || |st.runes| - st.start <= |content| - n)
    decreases n
  {
    hide Reopenable, Step;
    if n == 0 {
    } else {
      RunMakesProgress(n - 1, content, maxLen);
      var st := After(n - 1, content, maxLen);
      if !Done(st) {
        StepMakesProgress(st, maxLen);
      }
    }
  }

  lemma RunEnds(content: string, maxLen: nat)
    requires maxLen >= 1 && Reopenable(content, maxLen)
    ensures Done(After(|content|, content, maxLen))
  {
    RunMakesProgress(|content|, content, maxLen);
  }

  lemma {:induction false} DoneStays(n: nat, m: nat, content: string, maxLen: nat)
    requires maxLen >= 1 && n <= m && Done(After(n, content, maxLen))
    ensures After(m, content, maxLen) == After(n, content, maxLen)
    decreases m
  {
    hide Step;
    if n == m {
    } else {
      DoneStays(n, m - 1, content, maxLen);
    }
  }

  /** The chunks of a text that the splitter terminates on. */
  ghost function Chunks(content: string, maxLen: nat): seq<string>
    requires maxLen >= 1
  {
    After(|content|, content, maxLen).messages
  }

  lemma ChunksOfEndedRun(n: nat, content: string, maxLen: nat)
    requires maxLen >= 1 && Reopenable(content, maxLen) && Done(After(n, content, maxLen))
    ensures After(n, content, maxLen).messages == Chunks(content, maxLen)
  {
    RunEnds(content, maxLen);
    if n <= |content| {
      DoneStays(n, |content|, content, maxLen);
    } else {
      DoneStays(|content|, n, content, maxLen);
    }
  }

  // ----- the splitter

  /** The trimmed fence line of an open block, and where it ends. */
  method HeaderAt(runes: string, unclosedIdx: nat, headerEnd: int) returns (header: string, headerEndIdx: int)
    requires FenceAt(runes, unclosedIdx) && headerEnd == NewlineFrom(runes, unclosedIdx)
    ensures header == Header(runes, unclosedIdx) && headerEndIdx == HeaderEnd(runes, unclosedIdx)
  {
    if headerEnd == -1 {
      header := TrimSpace(runes[unclosedIdx..unclosedIdx + 3]);
    } else {
      header := TrimSpace(runes[unclosedIdx..headerEnd]);
    }
    headerEndIdx := unclosedIdx + |header|;
    if headerEnd != -1 {
      headerEndIdx := headerEnd;
    }
  }

  lemma NextState(n: nat, content: string, maxLen: nat, st: State)
    requires maxLen >= 1 && st == After(n, content, maxLen) && !Done(st) && Reopenable(st.runes, maxLen)
    ensures Fits(st, Decide(st.runes, st.start, maxLen))
    ensures var st' := Emit(st, Decide(st.runes, st.start, maxLen));
      && st' == After(n + 1, content, maxLen) && Reopenable(st'.runes, maxLen)
      && |st'.runes| - st'.start < |st.runes| - st.start
  {
    StepMakesProgress(st, maxLen);
    DecideFits(st, maxLen);
  }

  /** The cut when the block opened at `unclosedIdx` is too long for its closing fence to fit (lines 65-122). */
  method SplitAtBlock(runes: string, start: nat, maxLen: nat, msgEnd: nat, unclosedIdx: nat) returns (cut: Cut)
    requires maxLen >= 5 && start + maxLen < |runes|
    requires start <= unclosedIdx && unclosedIdx + 3 <= msgEnd <= start + maxLen && FenceAt(runes, unclosedIdx)
    ensures cut == CutAtBlock(runes, start, maxLen, msgEnd, unclosedIdx)
  {
    hide Header, HeaderEnd, FindLast, FenceAt;
    var headerEnd := FindNewlineFrom(runes, unclosedIdx);
    var header, headerEndIdx := HeaderAt(runes, unclosedIdx, headerEnd);
    if msgEnd > headerEndIdx + 20 {
      var innerLimit := Min(start + maxLen - 5, |runes|);
      var betterEnd := FindLastNewlineInRange(runes, start, innerLimit, 200);
      if betterEnd > headerEndIdx {
        return Inside(betterEnd, header);
      }
      return Inside(innerLimit, header);
    }
    var newEnd := FindLastNewlineInRange(runes, start, unclosedIdx, 200);
    if newEnd <= start {
      newEnd := FindLastSpaceInRange(runes, start, unclosedIdx, 100);
    }
    if newEnd > start {
      return Whole(newEnd);
    }
    if unclosedIdx - start > 20 {
      return Whole(unclosedIdx);
    }
    return Inside(Min(start + maxLen - 5, |runes|), header);
  }

  /** Where the next chunk of a text that does not fit ends (lines 39-129). */
  method NextCut(runes: string, start: nat, maxLen: nat, codeBlockBuffer: nat) returns (cut: Cut)
    requires maxLen >= 1 && start + maxLen < |runes| && codeBlockBuffer == Buffer(maxLen)
    ensures cut == Decide(runes, start, maxLen)
  {
    hide CutAtBlock, FindLast, NextFence, FenceAt;
    var effectiveLimit := Max(maxLen - codeBlockBuffer, maxLen / 2);
    assert effectiveLimit == EffectiveLimit(maxLen);
    var end := start + effectiveLimit;
    var msgEnd := FindLastNewlineInRange(runes, start, end, 200);
    if msgEnd <= start {
      msgEnd := FindLastSpaceInRange(runes, start, end, 100);
    }
    if msgEnd <= start {
      msgEnd := end;
    }
    var unclosedIdx := FindLastUnclosedCodeBlockInRange(runes, start, msgEnd);
    if unclosedIdx >= 0 {
      if |runes| > msgEnd {
        var closingIdx := FindNextClosingCodeBlockInRange(runes, msgEnd, |runes|);
        if closingIdx > 0 && closingIdx - start <= maxLen {
          msgEnd := closingIdx;
        } else {
          cut := SplitAtBlock(runes, start, maxLen, msgEnd, unclosedIdx);
          return;
        }
      }
    }
    if msgEnd <= start {
      msgEnd := start + effectiveLimit;
    }
    cut := Whole(msgEnd);
  }

  /** For texts whose fences start their lines: every chunk but the last closes what it opens. */
  ghost predicate FencesIntact(content: string, messages: seq<string>) {
    && (forall k :: 0 <= k < |messages| - 1 ==> Balanced(messages[k]))
    && (content != "" ==>
          && messages != []
          && (Balanced(messages[|messages| - 1]) <==> Balanced(content)))
  }

  /** The promises of the splitter, for every text it terminates on. */
  lemma ChunksAreFaithful(content: string, maxLen: nat)
    requires maxLen >= 1 && Reopenable(content, maxLen)
    ensures forall k :: 0 <= k < |Chunks(content, maxLen)| ==> |Chunks(content, maxLen)[k]| <= maxLen
    ensures exists pieces :: Conserved(content, Chunks(content, maxLen), pieces)
    ensures LineStart(content) && HeadersFit(content, maxLen) ==> FencesIntact(content, Chunks(content, maxLen))
    ensures LineStart(content) && HeadersFit(content, maxLen) ==>
              exists pieces :: Conserved(content, Chunks(content, maxLen), pieces) && Reopens(content, pieces)
  {
    hide After, HeadersFit, Balanced, Conserved, Reopens;
    var n := |content|;
    RunEnds(content, maxLen);
    ChunksFit(n, content, maxLen);
    EndedRunConserves(n, content, maxLen);
    var woven :| Conserved(content, After(n, content, maxLen).messages, woven);
    assert Conserved(content, Chunks(content, maxLen), woven);
    if LineStart(content) && HeadersFit(content, maxLen) {
      IntactFromRun(n, content, maxLen);
      var pieces := ReopensFromRun(n, content, maxLen);
    }
  }

  lemma IntactFromRun(n: nat, content: string, maxLen: nat)
    requires maxLen >= 1 && LineStart(content) && HeadersFit(content, maxLen) && Done(After(n, content, maxLen))
    ensures FencesIntact(content, After(n, content, maxLen).messages)
  {
    RunBalances(n, content, maxLen);
  }

  lemma ReopensFromRun(n: nat, content: string, maxLen: nat) returns (pieces: seq<Piece>)
    requires maxLen >= 1 && LineStart(content) && HeadersFit(content, maxLen)
    requires Done(After(n, content, maxLen))
    ensures Conserved(content, After(n, content, maxLen).messages, pieces) && Reopens(content, pieces)
  {
    hide After, Reopens, Woven, LineStart, HeadersFit, Balanced;
    var o, b;
    pieces, o, b := RunReopens(n, content, maxLen);
    PendingEnds(content, After(n, content, maxLen), o, Reached(pieces));
  }

  method SplitMessage(content: string, maxLen: int) returns (messages: seq<string>)
    requires Reopenable(content, maxLen)
    ensures maxLen <= 0 ==> messages == if content == "" then [] else [content]
    ensures maxLen > 0 ==> messages == Chunks(content, maxLen)
  {
    if maxLen <= 0 {
      if content == "" {
        return [];
      }
      return [content];
    }
    var runes := content;
    var totalLen := |runes|;
    messages := [];
    var codeBlockBuffer := Max(maxLen / 10, 50);
    if codeBlockBuffer > maxLen / 2 {
      codeBlockBuffer := maxLen / 2;
    }
    var start := 0;
    ghost var n := 0;
    while start < totalLen
      invariant totalLen == |runes| && 0 <= start <= totalLen
      invariant State(runes, start, messages) == After(n, content, maxLen) && Reopenable(runes, maxLen)
      decreases totalLen - start
    {
      hide After, Reopenable, TrimSpace, TrimRight, SkipBlanks, Decide, Buffer;
      NextState(n, content, maxLen, State(runes, start, messages));
      n := n + 1;
      var remaining := totalLen - start;
      if remaining <= maxLen {
        messages := messages + [runes[start..totalLen]];
        assert runes[start..totalLen] == runes[start..];
        break;
      }
      var cut := NextCut(runes, start, maxLen, codeBlockBuffer);
      if cut.Inside? {
        var chunk := TrimRight(runes[start..cut.end]) + "\n```";
        messages := messages + [chunk];
        assert runes[cut.end..totalLen] == runes[cut.end..];
        runes := TrimSpace(cut.header + "\n" + runes[cut.end..totalLen]);
        totalLen := |runes|;
        start := 0;
        continue;
      }
      messages := messages + [runes[start..cut.end]];
      start := SkipLeadingBlanks(runes, cut.end);
    }
    ChunksOfEndedRun(n, content, maxLen);
  }

  /** The next chunk starts after the blanks that follow the cut. */
  method SkipLeadingBlanks(runes: string, from: nat) returns (start: nat)
    requires from <= |runes|
    ensures start == SkipBlanks(runes, from)
  {
    start := from;
    while start < |runes| && (runes[start] == ' ' || runes[start] == '\t' || runes[start] == '\n' || runes[start] == '\r')
      invariant from <= start <= |runes|
      invariant SkipBlanks(runes, from) == SkipBlanks(runes, start)
    {
      start := start + 1;
    }
  }
}
