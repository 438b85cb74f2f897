/**
 Where the splitter's promises end: a fence line of `maxLen - 6` runes or more makes it loop forever,
 and a fence that does not start its line can be cut in two.
 */
module SplitLimits {
  import opened Runes
  import opened Fences
  import opened Splitter
  import opened SplitBalance
  import opened SplitMessage

  /** `s` starts with a trimmed fence line of `n` runes that holds no second fence, and does not end in white space. */
  ghost predicate StartsWithFenceLine(s: string, n: nat) {
    && 3 <= n < |s| && FenceAt(s, 0) && s[n] == '\n' && !IsSpace(s[n - 1]) && !IsSpace(s[|s| - 1])
    && (forall i :: 0 <= i < n ==> s[i] != '\n')
    && (forall i :: 0 < i < n ==> !FenceAt(s, i))
  }

  /** The text does not fit, its first line is a long fence line, and no other fence ends within the limit. */
  ghost predicate Stuck(s: string, maxLen: nat, n: nat) {
    && maxLen >= 5 && n + 6 >= maxLen && |s| > maxLen
    && StartsWithFenceLine(s, n)
    && (forall i :: 0 < i && i + 3 <= maxLen ==> !FenceAt(s, i))
  }

  lemma FenceLineHeader(s: string, n: nat)
    requires StartsWithFenceLine(s, n)
    ensures NewlineFrom(s, 0) == n && Header(s, 0) == s[..n] && HeaderEnd(s, 0) == n
  {
    NewlineFromSpec(s, 0);
    assert s[0..n] == s[..n];
    TrimSpaceIdentity(s[..n]);
  }

  lemma StuckNaturalEnd(s: string, maxLen: nat, n: nat)
    requires Stuck(s, maxLen, n)
    ensures var msgEnd := NaturalEnd(s, 0, EffectiveLimit(maxLen));
      && 3 <= msgEnd <= n + 20 && OpenFence(s, 0, msgEnd, -1) == 0
      && (NextFence(s, msgEnd, |s|) == -1 || NextFence(s, msgEnd, |s|) > maxLen)
  {
    hide NaturalEnd, OpenFence, NextFence;
    var msgEnd := NaturalEnd(s, 0, EffectiveLimit(maxLen));
    NaturalEndAfterFence(s, EffectiveLimit(maxLen));
    OpenFenceSpec(s, 0, msgEnd, -1);
    CountNone(s, 3, msgEnd);
    NextFenceSpec(s, msgEnd, |s|);
  }

  /** A text that starts with a fence is never cut inside that fence. */
  lemma NaturalEndAfterFence(s: string, end: nat)
    requires FenceAt(s, 0) && 3 <= end <= |s|
    ensures NaturalEnd(s, 0, end) >= 3
  {
    hide FindLast;
    FindLastSpec(s, 0, end, 200, IsNewline);
    FindLastSpec(s, 0, end, 100, IsSpaceOrTab);
    assert s[0] == s[1] == s[2] == '`';
  }

  /** A stuck text is cut just short of the limit and put back behind the same fence line. */
  lemma StuckCut(s: string, maxLen: nat, n: nat)
    requires Stuck(s, maxLen, n)
    ensures Decide(s, 0, maxLen) == Inside(maxLen - 5, s[..n])
  {
    hide Header, HeaderEnd, OpenFence, NextFence, NaturalEnd;
    StuckNaturalEnd(s, maxLen, n);
    FenceLineHeader(s, n);
    var msgEnd := NaturalEnd(s, 0, EffectiveLimit(maxLen));
    assert FindLast(s, 0, 0, 200, IsNewline) == -1;
    assert FindLast(s, 0, 0, 100, IsSpaceOrTab) == -1;
    assert CutAtBlock(s, 0, maxLen, msgEnd, 0) == Inside(maxLen - 5, s[..n]);
    assert 0 + EffectiveLimit(maxLen) == EffectiveLimit(maxLen);
  }

  lemma StuckStays(s: string, maxLen: nat, n: nat)
    requires Stuck(s, maxLen, n)
    ensures var r := TrimSpace(s[..n] + "\n" + s[maxLen - 5..]); Stuck(r, maxLen, n) && |r| >= |s|
  {
    hide TrimSpace;
    var r := s[..n] + "\n" + s[maxLen - 5..];
    var d := maxLen - 6 - n;
    Spliced(s, n, maxLen - 5, r);
    assert r[0] == s[0] && r[|r| - 1] == s[|s| - 1];
    TrimSpaceIdentity(r);
    forall i | 0 < i && (i < n || i + 3 <= maxLen) ensures !FenceAt(r, i) {
      if i + 3 <= n {
        assert !FenceAt(s, i);
      } else if i > n {
        assert !FenceAt(s, i + d);
      }
    }
  }

  lemma Spliced(s: string, n: nat, from: nat, r: string)
    requires n <= |s| && from <= |s| && r == s[..n] + "\n" + s[from..]
    ensures |r| == n + 1 + |s| - from
    ensures forall i {:trigger r[i]} :: 0 <= i < |r| ==>
      r[i] == if i < n then s[i] else if i == n then '\n' else s[i + from - n - 1]
  {
  }

  /** The splitter never ends on a stuck text: every iteration emits one more chunk. */
  lemma {:induction false} NeverEnds(k: nat, content: string, maxLen: nat, n: nat)
    requires Stuck(content, maxLen, n)
    ensures var st := After(k, content, maxLen);
      !Done(st) && |st.messages| == k && st.start == 0 && Stuck(st.runes, maxLen, n)
    decreases k
  {
    hide Stuck, Step;
    StuckHasText(content, maxLen, n);
    if k == 0 {
    } else {
      NeverEnds(k - 1, content, maxLen, n);
      StuckStep(After(k - 1, content, maxLen), maxLen, n);
    }
  }

  lemma StuckStep(st: State, maxLen: nat, n: nat)
    requires st.start == 0 && Stuck(st.runes, maxLen, n)
    ensures maxLen >= 1 && !Done(st)
    ensures var st' := Step(st, maxLen);
      !Done(st') && |st'.messages| == |st.messages| + 1 && st'.start == 0 && Stuck(st'.runes, maxLen, n)
  {
    hide Stuck, Decide, TrimSpace;
    StuckHasText(st.runes, maxLen, n);
    StuckCut(st.runes, maxLen, n);
    StuckStays(st.runes, maxLen, n);
    StuckHasText(Step(st, maxLen).runes, maxLen, n);
  }

  lemma StuckHasText(s: string, maxLen: nat, n: nat)
    requires Stuck(s, maxLen, n)
    ensures maxLen >= 5 && n <= |s| && |s| > 0
  {
  }

  lemma ShortTextEnds(content: string, maxLen: nat) returns (k: nat)
    requires maxLen >= 1 && |content| <= maxLen
    ensures Done(After(k, content, maxLen))
  {
    k := 1;
    assert After(0, content, maxLen) == Begin(content);
    if content != "" {
      DecideFits(Begin(content), maxLen);
    }
  }

  /**
   `content` starts with a block that is not closed within the limit (it may be closed later, and more may follow),
   and all later fence lines leave room.
   */
  ghost predicate LongBlock(content: string, maxLen: nat, n: nat) {
    && StartsWithFenceLine(content, n)
    && (forall i :: 0 < i && i + 3 <= maxLen ==> !FenceAt(content, i))
    && (forall i :: 0 < i && FenceAt(content, i) ==> |Header(content, i)| <= maxLen - 7)
  }

  /** The splitter's loop comes to an end. */
  ghost predicate Ends(content: string, maxLen: nat)
    requires maxLen >= 1
  {
    exists k: nat :: Done(After(k, content, maxLen))
  }

  lemma EndsAfter(k: nat, content: string, maxLen: nat)
    requires maxLen >= 1 && Done(After(k, content, maxLen))
    ensures Ends(content, maxLen)
  {
  }

  /** The exact limit for a text that starts with a long block: it ends if and only if it fits or that block's fence line leaves 7 runes. */
  lemma LongBlockEndsExactly(content: string, maxLen: nat, n: nat)
    requires maxLen >= 5 && LongBlock(content, maxLen, n)
    ensures Ends(content, maxLen) <==> |content| <= maxLen || n <= maxLen - 7
  {
    if n <= maxLen - 7 {
      FenceLineHeader(content, n);
      assert HeadersFit(content, maxLen);
      RunEnds(content, maxLen);
      EndsAfter(|content|, content, maxLen);
    } else if |content| <= maxLen {
      var k := ShortTextEnds(content, maxLen);
      EndsAfter(k, content, maxLen);
    } else {
      assert Stuck(content, maxLen, n);
      forall k: nat ensures !Done(After(k, content, maxLen)) {
        NeverEnds(k, content, maxLen, n);
      }
    }
  }

  // ----- fences inside a line

  const INLINE: string := "aaaaaaaa```\nbbbbbbbb\n```"

  lemma InlinePositions()
    ensures |INLINE| == 24 && forall i :: FenceAt(INLINE, i) <==> i == 8 || i == 21
    ensures INLINE[7] == 'a'
  {
    var s := INLINE;
    assert s[8] == s[9] == s[10] == '`' && s[11] == '\n' && s[20] == '\n' && s[21] == s[22] == s[23] == '`';
  }

  lemma InlineFences()
    ensures |INLINE| == 24 && forall i :: FenceAt(INLINE, i) <==> i == 8 || i == 21
    ensures Balanced(INLINE) && !LineStart(INLINE) && CountIn(INLINE, 10, 24) == 1
  {
    InlinePositions();
    InlineCounts(INLINE);
    assert FenceAt(INLINE, 8);
  }

  lemma InlineCounts(s: string)
    requires |s| == 24 && forall i :: FenceAt(s, i) <==> i == 8 || i == 21
    ensures CountIn(s, 0, 24) == 2 && CountIn(s, 10, 24) == 1
  {
    CountNone(s, 0, 8);
    CountSplit(s, 0, 8, 24);
    CountNone(s, 11, 21);
    CountSplit(s, 11, 21, 24);
    CountNone(s, 10, 21);
    CountSplit(s, 10, 21, 24);
  }

  lemma InlineFirstCut()
    ensures Decide(INLINE, 0, 20) == Whole(10) && SkipBlanks(INLINE, 10) == 10
  {
    var s := INLINE;
    InlineFences();
    assert forall i :: 0 <= i < 8 ==> s[i] == 'a';
    assert s[8] == s[9] == s[10] == '`';
    FindLastSpec(s, 0, 10, 200, IsNewline);
    FindLastSpec(s, 0, 10, 100, IsSpaceOrTab);
    assert NaturalEnd(s, 0, 10) == 10;
    OpenFenceSpec(s, 0, 10, -1);
    CountNone(s, 0, 10);
    assert EffectiveLimit(20) == 10;
  }

  lemma InlineRun()
    ensures After(2, INLINE, 20) == State(INLINE, 24, [INLINE[..10], INLINE[10..]])
  {
    hide Decide;
    InlineFirstCut();
    InlineFences();
    DecideFits(Begin(INLINE), 20);
    assert INLINE[0..10] == INLINE[..10];
    assert After(0, INLINE, 20) == Begin(INLINE);
    assert After(1, INLINE, 20) == State(INLINE, 10, [INLINE[..10]]);
    DecideFits(State(INLINE, 10, [INLINE[..10]]), 20);
  }

  /** Two balanced fences, one of them not at the start of its line: the first chunk ends inside that fence. */
  lemma InlineFenceIsCut()
    ensures HeadersFit(INLINE, 20) && Balanced(INLINE) && !LineStart(INLINE)
    ensures Chunks(INLINE, 20) == [INLINE[..10], INLINE[10..]]
    ensures !FencesIntact(INLINE, Chunks(INLINE, 20))
  {
    hide After, FenceAt;
    InlineFences();
    InlineHeaders();
    InlineRun();
    ChunksOfEndedRun(2, INLINE, 20);
    WholeChunkCount(INLINE, 10, 24);
    assert INLINE[10..] == INLINE[10..24];
  }

  lemma InlineHeaders()
    ensures HeadersFit(INLINE, 20)
  {
    InlineFences();
    var s := INLINE;
    assert s[11] == '\n';
    HeaderShape(s, 8);
    HeaderShape(s, 21);
    NewlineFromSpec(s, 8);
  }
}
