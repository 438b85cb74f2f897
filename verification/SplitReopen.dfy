/**
 Reopening: for a text whose fences start their lines and whose fence lines fit, a chunk is closed by the
 splitter exactly when its cut lies inside a fenced block of the content, and the next chunk then starts with
 the fence line of that very block. The last block may lack its closing fence; then the last chunk ends open.
 */
module SplitReopen {
  import opened Basics
  import opened Runes
  import opened Fences
  import opened Splitter
  import opened SplitWeave
  import opened SplitBalance

  /** Fence `b` opens the block that position `p` of the content lies in. */
  ghost predicate OpenAt(content: string, b: int, p: nat) {
    && FenceAt(content, b) && b + 3 <= p <= |content|
    && CountIn(content, 0, b) % 2 == 0
    && CountIn(content, b + 3, p) == 0
  }

  const FENCE: string := "```"

  /** Only white space follows the line of fence `b`. */
  ghost predicate LastLine(content: string, b: int)
    requires FenceAt(content, b)
  {
    NewlineFrom(content, b) != -1 ==> SpaceIn(content, NewlineFrom(content, b), |content|)
  }

  /**
   How the splitter writes the line of fence `b` again: trimmed, or as the bare fence when the line is the last
   visible one (trimming may have taken its newline away).
   */
  ghost predicate LineOf(content: string, b: int, h: string) {
    FenceAt(content, b) && (h == Header(content, b) || (h == FENCE && LastLine(content, b)))
  }

  /** The piece starts with the line `h`, or is that line alone. */
  predicate StartsWithLine(piece: Piece, h: string) {
    piece.injected == h + "\n" || (piece.injected == h && piece.from == piece.upto)
  }

  /** The text injected in front of a chunk whose predecessor was closed inside block `b`. */
  ghost predicate ReopensBlock(content: string, b: int, piece: Piece)
    requires FenceAt(content, b)
  {
    StartsWithLine(piece, Header(content, b)) || (LastLine(content, b) && StartsWithLine(piece, FENCE))
  }

  /** Piece `piece` follows a piece that was closed (or not). */
  ghost predicate Follows(content: string, piece: Piece, afterClosed: bool) {
    && piece.from <= piece.upto <= |content|
    && if afterClosed
       then exists b :: OpenAt(content, b, piece.from) && ReopensBlock(content, b, piece)
       else piece.injected == "" && CountIn(content, 0, piece.from) % 2 == 0
  }

  /** The piece is closed by the splitter exactly when it ends inside a block. */
  ghost predicate ClosedExactly(content: string, piece: Piece) {
    piece.upto <= |content| && (piece.closed <==> CountIn(content, 0, piece.upto) % 2 == 1)
  }

  /** The piece before `pieces[k]` was closed by the splitter. */
  predicate AfterClosed(pieces: seq<Piece>, k: nat)
    requires k <= |pieces|
  {
    k > 0 && pieces[k - 1].closed
  }

  ghost predicate AllFollow(content: string, pieces: seq<Piece>) {
    forall k :: 0 <= k < |pieces| ==> Follows(content, pieces[k], AfterClosed(pieces, k))
  }

  /** Every piece reopens what its predecessor left open; every piece but the last is closed exactly when it has to be. */
  ghost predicate Reopens(content: string, pieces: seq<Piece>) {
    && AllFollow(content, pieces)
    && (forall k :: 0 <= k < |pieces| - 1 ==> ClosedExactly(content, pieces[k]))
    && (pieces != [] ==> !pieces[|pieces| - 1].closed)
  }

  ghost predicate SameRune(content: string, runes: string, i: int, d: int) {
    0 <= i < |runes| && 0 <= i + d < |content| && runes[i] == content[i + d]
  }

  /** `runes[lo..]` is a stretch of the content, `d` further on, followed there by white space only. */
  ghost predicate Aligned(content: string, runes: string, lo: nat, d: int) {
    && 0 <= lo + d && lo <= |runes| && |runes| + d <= |content|
    && (forall i {:trigger SameRune(content, runes, i, d)} :: lo <= i < |runes| ==> SameRune(content, runes, i, d))
    && SpaceIn(content, |runes| + d, |content|)
    && CleanCut(content, lo + d)
  }

  /**
   What is injected at the head of `runes`: nothing, or a fence line that reopens block `b` of the content.
   (That it is the same line is said by `Named`.)
   */
  ghost predicate HeadOf(content: string, runes: string, start: nat, lo: nat, d: int, b: int) {
    && start <= lo <= |runes| && 0 <= lo + d <= |content|
    && (if b < 0
        then lo == start && CountIn(content, 0, lo + d) % 2 == 0
        else
          && start == 0 && OpenAt(content, b, lo + d)
          && lo >= 4 && FenceAt(runes, 0) && runes[lo - 1] == '\n' && !IsSpace(runes[lo - 2])
          && forall i :: 0 <= i < lo - 1 ==> runes[i] != '\n')
  }

  /** The first `lo` runes are the line `h`, and a newline. */
  ghost predicate Named(runes: string, lo: nat, h: string) {
    && lo == |h| + 1 <= |runes| && runes[lo - 1] == '\n'
    && forall i {:trigger runes[i]} :: 0 <= i < lo - 1 ==> runes[i] == h[i]
  }

  /** A fence line without white space at its ends. */
  ghost predicate LineShape(h: string) {
    FenceAt(h, 0) && !IsSpace(h[|h| - 1]) && forall i :: 0 <= i < |h| ==> h[i] != '\n'
  }

  lemma HeaderIsLine(s: string, u: nat)
    requires FenceAt(s, u)
    ensures LineShape(Header(s, u))
  {
    HeaderShape(s, u);
    var h := Header(s, u);
    assert forall i :: 0 <= i < |h| ==> h[i] == s[u + i];
  }

  lemma CountKept(content: string, runes: string, lo: nat, d: int, i: nat, j: nat)
    requires Aligned(content, runes, lo, d) && lo <= i <= j <= |runes|
    ensures CountIn(content, i + d, j + d) == CountIn(runes, i, j)
  {
    forall k | i <= k < j ensures runes[k] == content[k + d] {
      assert SameRune(content, runes, k, d);
    }
    CountShift(runes, content, i, j, d);
  }

  lemma FenceKept(content: string, runes: string, lo: nat, d: int, k: nat)
    requires Aligned(content, runes, lo, d) && lo <= k
    ensures FenceAt(content, k + d) <==> FenceAt(runes, k)
  {
    if k + 3 <= |runes| {
      assert SameRune(content, runes, k, d) && SameRune(content, runes, k + 1, d) && SameRune(content, runes, k + 2, d);
    } else if k + d + 3 <= |content| {
      assert IsSpace(content[k + d + 2]);
    }
  }

  lemma CleanKept(content: string, runes: string, lo: nat, d: int, end: nat)
    requires Aligned(content, runes, lo, d) && lo <= end <= |runes| && CleanCut(runes, end)
    ensures CleanCut(content, end + d)
  {
    if end >= lo + 1 {
      FenceKept(content, runes, lo, d, end - 1);
    }
    if end >= lo + 2 {
      FenceKept(content, runes, lo, d, end - 2);
    }
  }

  /** Inside a block the number of fences so far is odd. */
  lemma OpenIsOdd(content: string, b: int, p: nat)
    requires LineStart(content) && OpenAt(content, b, p)
    ensures CountIn(content, 0, p) % 2 == 1
  {
    FenceEdgesClean(content, b);
    CountSplit(content, 0, b, p);
    CountSplit(content, b, b + 3, p);
  }

  /** The header of an injected fence line is that line. */
  lemma HeadHeader(runes: string, lo: nat, h: string)
    requires Named(runes, lo, h) && LineShape(h)
    ensures FenceAt(runes, 0) && NewlineFrom(runes, 0) == lo - 1 && Header(runes, 0) == h
  {
    NewlineFromSpec(runes, 0);
    assert runes[0..lo - 1] == h;
    TrimSpaceIdentity(h);
  }

  /** An injected fence line holds the fence at 0 and no other. */
  lemma HeadCount(content: string, runes: string, start: nat, lo: nat, d: int, b: int)
    requires HeadOf(content, runes, start, lo, d, b) && LineStart(content) && LineStart(runes)
    ensures CountIn(content, 0, lo + d) % 2 == CountIn(runes, start, lo)
    ensures start == lo || CleanCut(runes, lo)
    ensures b >= 0 ==> lo >= 3 && CountIn(runes, 3, lo) == 0 && forall i :: 0 < i < lo ==> !FenceAt(runes, i)
  {
    if b >= 0 {
      OpenIsOdd(content, b, lo + d);
      forall i | 0 < i < lo ensures !FenceAt(runes, i) {
        if i < lo - 1 {
          NotIndented(runes, 0, i);
        }
      }
      CountNone(runes, 3, lo);
    }
  }

  /** Fences have the same parity up to a position of the content and up to its place in the pending text. */
  lemma CountContent(content: string, runes: string, start: nat, lo: nat, d: int, end: nat)
    requires Aligned(content, runes, lo, d) && start <= lo <= end <= |runes|
    requires CountIn(content, 0, lo + d) % 2 == CountIn(runes, start, lo) % 2
    requires start == lo || CleanCut(runes, lo)
    ensures CountIn(content, 0, end + d) % 2 == CountIn(runes, start, end) % 2
  {
    CountSplit(content, 0, lo + d, end + d);
    CountKept(content, runes, lo, d, lo, end);
    if start < lo {
      CountSplit(runes, start, lo, end);
    }
  }

  // ----- a chunk that ends outside every block

  /** A balanced chunk extends past the injected fence line. */
  lemma WholePassesHead(content: string, runes: string, start: nat, lo: nat, d: int, b: int, end: nat)
    requires HeadOf(content, runes, start, lo, d, b) && LineStart(content) && LineStart(runes)
    requires start < end <= |runes| && CleanCut(runes, end) && CountIn(runes, start, end) % 2 == 0
    ensures lo <= end
  {
    if b >= 0 && end < lo {
      HeadCount(content, runes, start, lo, d, b);
      CountNone(runes, 3, end);
    }
  }

  lemma WholeStep(content: string, runes: string, start: nat, lo: nat, d: int, b: int, end: nat)
    requires HeadOf(content, runes, start, lo, d, b) && Aligned(content, runes, lo, d)
    requires LineStart(content) && LineStart(runes)
    requires start < end <= |runes| && CleanCut(runes, end) && CountIn(runes, start, end) % 2 == 0
    ensures lo <= end && CountIn(content, 0, end + d) % 2 == 0
  {
    WholePassesHead(content, runes, start, lo, d, b, end);
    HeadCount(content, runes, start, lo, d, b);
    CountContent(content, runes, start, lo, d, end);
  }

  /** Skipping blanks changes neither the alignment nor the number of fences so far. */
  lemma SkipStep(content: string, runes: string, lo: nat, d: int, end: nat)
    requires Aligned(content, runes, lo, d) && lo <= end <= |runes| && CleanCut(runes, end)
    ensures var next := SkipBlanks(runes, end);
      Aligned(content, runes, next, d) && CountIn(content, 0, next + d) == CountIn(content, 0, end + d)
  {
    var next := SkipBlanks(runes, end);
    StartOfSpec(runes, end, IsBlank);
    CleanKept(content, runes, lo, d, end);
    forall i | end + d <= i < next + d ensures IsSpace(content[i]) {
      assert SameRune(content, runes, i - d, d);
    }
    SpacesHoldNoFence(content, end + d, next + d);
    CountSplit(content, 0, end + d, next + d);
  }

  // ----- a chunk that ends inside a block

  /** A block that is open at a cut and starts in the kept runes is a block of the content. */
  lemma NewBlock(content: string, runes: string, start: nat, lo: nat, d: int, u: nat, end: nat)
    requires Aligned(content, runes, lo, d) && start <= lo
    requires CountIn(content, 0, lo + d) % 2 == CountIn(runes, start, lo) % 2
    requires start == lo || CleanCut(runes, lo)
    requires lo <= u && u + 3 <= end <= |runes| && FenceAt(runes, u)
    requires CountIn(runes, start, u) % 2 == 0 && CountIn(runes, u + 3, end) == 0
    ensures OpenAt(content, u + d, end + d)
  {
    FenceKept(content, runes, lo, d, u);
    CountContent(content, runes, start, lo, d, u);
    CountKept(content, runes, lo, d, u + 3, end);
  }

  lemma NewBlockLine(content: string, runes: string, lo: nat, d: int, u: nat)
    requires Aligned(content, runes, lo, d) && lo <= u && FenceAt(runes, u)
    ensures LineOf(content, u + d, Header(runes, u))
  {
    FenceKept(content, runes, lo, d, u);
    var nl := NewlineFrom(runes, u);
    if nl != -1 {
      assert SameRune(content, runes, nl, d);
      forall k | u <= k <= nl ensures runes[k] == content[k + d] {
        assert SameRune(content, runes, k, d);
      }
      SameHeader(runes, u, content, u + d, nl);
    } else {
      LastBlockLine(content, runes, lo, d, u);
    }
  }

  /** A fence line that the pending text does not end is the last visible line of the content. */
  lemma LastBlockLine(content: string, runes: string, lo: nat, d: int, u: nat)
    requires Aligned(content, runes, lo, d) && lo <= u && FenceAt(runes, u) && NewlineFrom(runes, u) == -1
    ensures FenceAt(content, u + d) && LastLine(content, u + d) && Header(runes, u) == FENCE
  {
    FenceKept(content, runes, lo, d, u);
    HeaderShape(runes, u);
    assert runes[u..u + 3] == FENCE;
    NewlineFromSpec(runes, u);
    var p := NewlineFrom(content, u + d);
    assert u + d <= p < |runes| + d ==> SameRune(content, runes, p - d, d);
  }

  /** A block that was reopened and is still open at a cut. */
  lemma SameBlock(content: string, runes: string, lo: nat, d: int, b: nat, end: nat)
    requires Aligned(content, runes, lo, d) && OpenAt(content, b, lo + d)
    requires 3 <= lo <= end <= |runes| && CleanCut(runes, lo) && CountIn(runes, 3, end) == 0
    ensures OpenAt(content, b, end + d)
  {
    CountSplit(runes, 3, lo, end);
    CountKept(content, runes, lo, d, lo, end);
    CountSplit(content, b + 3, lo + d, end + d);
  }

  lemma ReopenedBlock(content: string, runes: string, start: nat, lo: nat, d: int, b: int, end: nat, h: string)
    requires HeadOf(content, runes, start, lo, d, b) && Aligned(content, runes, lo, d) && start < lo
    requires Named(runes, lo, h) && LineShape(h)
    requires lo <= end <= |runes| && CleanCut(runes, lo) && lo >= 3 && CountIn(runes, 3, end) == 0
    ensures OpenAt(content, b, end + d) && Header(runes, 0) == h
  {
    HeadHeader(runes, lo, h);
    SameBlock(content, runes, lo, d, b, end);
  }

  /** The block that is open at a cut in the pending text is a block of the content, with the same fence line. */
  lemma BlockOfContent(content: string, runes: string, start: nat, lo: nat, d: int, b: int, u: nat, end: nat, h: string)
    returns (b': int)
    requires HeadOf(content, runes, start, lo, d, b) && Aligned(content, runes, lo, d)
    requires b >= 0 ==> Named(runes, lo, h) && LineShape(h) && LineOf(content, b, h)
    requires CountIn(content, 0, lo + d) % 2 == CountIn(runes, start, lo) % 2
    requires start == lo || (lo >= 3 && CleanCut(runes, lo) && forall i :: 0 < i < lo ==> !FenceAt(runes, i))
    requires start <= u && u + 3 <= end <= |runes| && lo <= end && FenceAt(runes, u)
    requires CountIn(runes, start, u) % 2 == 0 && CountIn(runes, u + 3, end) == 0
    ensures OpenAt(content, b', end + d) && LineOf(content, b', Header(runes, u))
  {
    hide Header, CountIn, Aligned, LineOf, LineShape, Named;
    if u >= lo {
      b' := u + d;
      NewBlock(content, runes, start, lo, d, u, end);
      NewBlockLine(content, runes, lo, d, u);
    } else {
      b' := b;
      ReopenedBlock(content, runes, start, lo, d, b, end, h);
    }
  }

  lemma ReopenAligned(content: string, runes: string, lo: nat, d: int, u: nat, n: nat, end: nat, r: string)
    requires Rebuilt(runes, u, n, end, r) && n + 1 < |r|
    requires Aligned(content, runes, lo, d) && lo <= end && CleanCut(runes, end)
    ensures Aligned(content, r, n + 1, end + d - n - 1)
  {
    CleanKept(content, runes, lo, d, end);
    forall i {:trigger SameRune(content, r, i, end + d - n - 1)} | n + 1 <= i < |r| ensures SameRune(content, r, i, end + d - n - 1) {
      assert SameRune(content, runes, end + i - n - 1, d);
    }
    forall i | |r| + end + d - n - 1 <= i < |content| ensures IsSpace(content[i]) {
      if i < |runes| + d {
        assert SameRune(content, runes, i - d, d);
      }
    }
  }

  lemma ReopenNamed(runes: string, u: nat, end: nat, r: string)
    requires FenceAt(runes, u) && Rebuilt(runes, u, |Header(runes, u)|, end, r)
    ensures forall i {:trigger r[i]} :: 0 <= i < |Header(runes, u)| ==> r[i] == Header(runes, u)[i]
    ensures !IsSpace(r[|Header(runes, u)| - 1])
  {
    var h := Header(runes, u);
    HeaderShape(runes, u);
    forall i | 0 <= i < |h| ensures r[i] == h[i] {
      assert h[i] == runes[u + i];
    }
  }

  lemma ReopenHead(content: string, runes: string, u: nat, n: nat, end: nat, r: string, d: int, b: int)
    requires Rebuilt(runes, u, n, end, r) && n + 1 < |r| && !IsSpace(r[n - 1]) && end + d >= 0
    requires OpenAt(content, b, end + d)
    ensures HeadOf(content, r, 0, n + 1, end + d - n - 1, b)
  {
  }

  lemma ReopenStep(content: string, runes: string, lo: nat, d: int, u: nat, n: nat, end: nat, b: nat, r: string)
    requires Rebuilt(runes, u, n, end, r) && !IsSpace(r[n - 1]) && n + 1 < |r|
    requires Aligned(content, runes, lo, d) && lo <= end <= |runes|
    requires CleanCut(runes, end) && OpenAt(content, b, end + d)
    ensures Aligned(content, r, n + 1, end + d - n - 1) && HeadOf(content, r, 0, n + 1, end + d - n - 1, b)
  {
    ReopenAligned(content, runes, lo, d, u, n, end, r);
    ReopenHead(content, runes, u, n, end, r, d, b);
  }

  lemma InsideBlock(content: string, runes: string, start: nat, lo: nat, d: int, b: int, u: nat, end: nat, h: string)
    returns (b': int)
    requires HeadOf(content, runes, start, lo, d, b) && Aligned(content, runes, lo, d)
    requires b >= 0 ==> Named(runes, lo, h) && LineShape(h) && LineOf(content, b, h)
    requires CountIn(content, 0, lo + d) % 2 == CountIn(runes, start, lo) % 2
    requires start == lo || (lo >= 3 && CleanCut(runes, lo) && forall i :: 0 < i < lo ==> !FenceAt(runes, i))
    requires start <= u && u + 3 <= end <= |runes| && lo <= end && FenceAt(runes, u)
    requires CountIn(runes, start, end) % 2 == 1
    requires CountIn(runes, start, u) % 2 == 0 && CountIn(runes, u + 3, end) == 0
    ensures CountIn(content, 0, end + d) % 2 == 1
    ensures OpenAt(content, b', end + d) && LineOf(content, b', Header(runes, u))
  {
    hide Header, CountIn, LineOf, LineShape, Named;
    CountContent(content, runes, start, lo, d, end);
    b' := BlockOfContent(content, runes, start, lo, d, b, u, end, h);
  }

  /** What the open fence of an inside cut looks like at the cut. */
  lemma InsideCounts(runes: string, start: nat, maxLen: nat) returns (u: nat)
    requires maxLen >= 10 && start < |runes| && LineStart(runes) && HeadersFit(runes, maxLen)
    requires Decide(runes, start, maxLen).Inside?
    ensures var cut := Decide(runes, start, maxLen);
      && start <= u && u + 3 <= cut.end && FenceAt(runes, u) && cut.header == Header(runes, u)
      && CountIn(runes, start, u) % 2 == 0 && CountIn(runes, u + 3, cut.end) == 0
      && (cut.end >= HeaderEnd(runes, u) + 21 || cut.end == start + maxLen - 5)
  {
    hide Header, HeaderEnd, CutAtBlock, NaturalEnd, LineStart, HeadersFit, CleanCut;
    var msgEnd, block := InsideCut(runes, start, maxLen);
    u := block;
    NaturalCutClean(runes, start, maxLen);
    InsideNotBefore(runes, start, maxLen, msgEnd, u);
    OpenFenceSpec(runes, start, msgEnd, -1);
    ExtendPlain(runes, u + 3, msgEnd, Decide(runes, start, maxLen).end);
  }

  // ----- origins and what they are injected with

  /** The pending text is aligned with the content and starts with the line of block `b`, or plainly. */
  ghost predicate Anchored(content: string, runes: string, start: nat, o: Origin, b: int) {
    var lo := start + |o.injected|; var d := o.from - lo;
    && Aligned(content, runes, lo, d)
    && HeadOf(content, runes, start, lo, d, b)
    && o.from <= o.upto == |runes| + d
  }

  /** The injected line, without its newline. */
  function LineIn(o: Origin): string { if o.injected == "" then "" else o.injected[..|o.injected| - 1] }

  /** The injected text is a fence line of block `b`, and a newline. */
  ghost predicate Injected(content: string, runes: string, start: nat, o: Origin, b: int) {
    b >= 0 ==>
      && o.injected == LineIn(o) + "\n" && LineShape(LineIn(o)) && LineOf(content, b, LineIn(o))
      && Named(runes, start + |o.injected|, LineIn(o))
  }

  /** The pending text is just the fence line of block `b`, and fits. */
  ghost predicate Lone(content: string, runes: string, start: nat, o: Origin, b: int, maxLen: nat) {
    && b >= 0 && start == 0 && runes == o.injected && 0 < |runes| <= maxLen
    && o.from == o.upto && OpenAt(content, b, o.from) && LineOf(content, b, o.injected)
  }

  /** What the pending text is between two iterations. */
  ghost predicate Tracks(content: string, runes: string, start: nat, o: Origin, b: int, maxLen: nat) {
    || (Anchored(content, runes, start, o, b) && Injected(content, runes, start, o, b))
    || Lone(content, runes, start, o, b, maxLen)
  }

  lemma WholeAnchors(content: string, runes: string, start: nat, o: Origin, b: int, end: nat) returns (d: int)
    requires Anchored(content, runes, start, o, b) && LineStart(content) && LineStart(runes)
    requires start < end <= |runes| && CleanCut(runes, end) && CountIn(runes, start, end) % 2 == 0
    ensures d == o.from - start - |o.injected| && start + |o.injected| <= end
    ensures 0 <= end + d <= |content| && CountIn(content, 0, end + d) % 2 == 0
    ensures var next := SkipBlanks(runes, end); Anchored(content, runes, next, Origin("", next + d, o.upto), -1)
  {
    var lo := start + |o.injected|;
    d := o.from - lo;
    WholeStep(content, runes, start, lo, d, b, end);
    SkipStep(content, runes, lo, d, end);
  }

  /** What is injected, as the content sees it. */
  ghost predicate HeadKnown(content: string, o: Origin, b: int) {
    && o.from <= |content|
    && if b < 0 then o.injected == "" && CountIn(content, 0, o.from) % 2 == 0
       else OpenAt(content, b, o.from) && o.injected == LineIn(o) + "\n" && LineOf(content, b, LineIn(o))
  }

  lemma KnowsHead(content: string, runes: string, start: nat, o: Origin, b: int)
    requires Anchored(content, runes, start, o, b) && Injected(content, runes, start, o, b)
    ensures HeadKnown(content, o, b)
  {
    hide CountIn, LineOf, LineShape, Named, Aligned, OpenAt;
  }

  /** A piece that starts with the injected text follows its predecessor properly. */
  lemma FollowsHead(content: string, o: Origin, b: int, piece: Piece)
    requires piece.from == o.from <= piece.upto <= |content| && HeadKnown(content, o, b)
    requires piece.injected == o.injected
          || (b >= 0 && piece.upto == o.from && piece.injected == o.injected[..|o.injected| - 1])
    ensures Follows(content, piece, b >= 0)
  {
    if b >= 0 {
      assert o.injected[..|o.injected| - 1] == LineIn(o);
      assert StartsWithLine(piece, LineIn(o));
      assert ReopensBlock(content, b, piece);
    }
  }

  /** Trimming the chunk before closing it never cuts into the injected fence line. */
  lemma TrimmedBody(content: string, runes: string, start: nat, o: Origin, b: int, end: nat)
    requires Anchored(content, runes, start, o, b) && start + |o.injected| <= end <= |runes|
    ensures var m := EndOf(runes[start..end], end - start, IsBlank);
      && (|o.injected| <= m || (b >= 0 && m == |o.injected| - 1))
      && forall i :: start + m <= i < end ==> IsSpace(runes[i])
  {
    var head := runes[start..end];
    var m := EndOf(head, end - start, IsBlank);
    EndOfSpec(head, end - start, IsBlank);
    forall i | start + m <= i < end ensures IsSpace(runes[i]) {
      assert IsBlank(head[i - start]);
    }
    if b >= 0 {
      assert !IsBlank(runes[|o.injected| - 2]);
    }
  }

  /** Trimming white space off the end of a chunk leaves the fences of the content before it unchanged. */
  lemma TrimmedCountContent(content: string, runes: string, lo: nat, d: int, from: nat, end: nat)
    requires Aligned(content, runes, lo, d) && lo <= from <= end <= |runes| && CleanCut(runes, end)
    requires forall i :: from <= i < end ==> IsSpace(runes[i])
    ensures CountIn(content, 0, from + d) == CountIn(content, 0, end + d)
  {
    CleanKept(content, runes, lo, d, end);
    forall i | from + d <= i < end + d ensures IsSpace(content[i]) {
      assert SameRune(content, runes, i - d, d);
    }
    SpacesHoldNoFence(content, from + d, end + d);
    CountSplit(content, 0, from + d, end + d);
  }

  lemma InsidePiece(content: string, runes: string, start: nat, o: Origin, b: int, end: nat, m: nat)
    requires Anchored(content, runes, start, o, b) && start + |o.injected| <= end <= |runes| && CleanCut(runes, end)
    requires CountIn(content, 0, end + o.from - start - |o.injected|) % 2 == 1
    requires m == EndOf(runes[start..end], end - start, IsBlank)
    ensures |o.injected| <= m || (b >= 0 && m == |o.injected| - 1)
    ensures var upto := o.from + Max(m - |o.injected|, 0);
      upto <= |content| && CountIn(content, 0, upto) % 2 == 1
  {
    hide CountIn, CleanCut, HeadOf, SpaceIn;
    var lo := start + |o.injected|;
    TrimmedBody(content, runes, start, o, b, end);
    TrimmedCountContent(content, runes, lo, o.from - lo, Max(start + m, lo), end);
  }

  lemma PieceShape(o: Origin, m: nat)
    requires o.from <= o.upto && |o.injected| - 1 <= m <= |o.injected| + o.upto - o.from
    ensures var piece := PieceAt(o, m, true);
      && piece.from == o.from && piece.closed && piece.upto == o.from + Max(m - |o.injected|, 0)
      && (piece.injected == o.injected
          || (m == |o.injected| - 1 && piece.upto == o.from && piece.injected == o.injected[..|o.injected| - 1]))
  {
  }

  lemma InsideNext(content: string, runes: string, lo: nat, d: int, u: nat, end: nat, b: int, h: string, r: string)
    requires Aligned(content, runes, lo, d) && lo <= end <= |runes|
    requires CleanCut(runes, end) && |h| + 1 < |r|
    requires OpenAt(content, b, end + d) && Rebuilt(runes, u, |h|, end, r) && !IsSpace(r[|h| - 1])
    ensures end + d >= 0
    ensures Anchored(content, r, 0, Origin(h + "\n", end + d, end + d + (|r| - |h| - 1)), b)
  {
    ReopenStep(content, runes, lo, d, u, |h|, end, b, r);
  }

  lemma InsideRebuilds(runes: string, u: nat, end: nat, h: string, r: string)
    requires FenceAt(runes, u) && end <= |runes| && h == Header(runes, u)
    requires r == TrimSpace(h + "\n" + runes[end..])
    ensures Rebuilt(runes, u, |h|, end, r) && !IsSpace(r[|h| - 1]) && !IsSpace(r[|r| - 1])
    ensures forall i {:trigger r[i]} :: 0 <= i < |h| ==> r[i] == h[i]
  {
    HeaderShape(runes, u);
    var _ := TrimSpaceKeepsStart(h + "\n" + runes[end..]);
    TrimRebuilds(runes, u, end);
    ReopenNamed(runes, u, end, r);
  }

  /** An inside cut lies past the injected fence line. */
  lemma InsidePassesHead(content: string, runes: string, start: nat, o: Origin, b: int, maxLen: nat, u: nat, end: nat)
    requires Anchored(content, runes, start, o, b) && Injected(content, runes, start, o, b)
    requires LineStart(content) && LineStart(runes) && HeadersFit(runes, maxLen)
    requires start <= u && FenceAt(runes, u) && u <= end
    requires end >= HeaderEnd(runes, u) + 21 || end == start + maxLen - 5
    ensures start + |o.injected| <= end
  {
    hide Anchored, Injected, LineStart, HeadersFit, Header, NewlineFrom;
    HeadFits(content, runes, start, o, b, maxLen, u);
  }

  /** The injected line leaves room, and fence `u` is the fence of that line or lies after it. */
  lemma HeadFits(content: string, runes: string, start: nat, o: Origin, b: int, maxLen: nat, u: nat)
    requires Anchored(content, runes, start, o, b) && Injected(content, runes, start, o, b)
    requires LineStart(content) && LineStart(runes) && HeadersFit(runes, maxLen) && start <= u && FenceAt(runes, u)
    ensures b < 0 ==> |o.injected| == 0
    ensures b >= 0 ==>
      && start == 0 && FenceAt(runes, 0) && NewlineFrom(runes, 0) == |o.injected| - 1
      && 0 < |o.injected| <= maxLen - 6 && (u == 0 || u >= |o.injected|)
  {
    hide CountIn, NewlineFrom, Header, Aligned;
    if b >= 0 {
      var lo := start + |o.injected|;
      HeadHeader(runes, lo, LineIn(o));
      HeadCount(content, runes, start, lo, o.from - lo, b);
      assert |Header(runes, 0)| <= maxLen - 7;
    }
  }

  // ----- the pieces of one iteration

  lemma WholeOrigin(st: State, end: nat, o: Origin)
    requires st.start < end <= |st.runes| && st.start + |o.injected| <= end
    requires o.from <= o.upto == |st.runes| + o.from - st.start - |o.injected|
    ensures var d := o.from - st.start - |o.injected|;
      && OriginOf(st, Whole(end), o) == Origin("", SkipBlanks(st.runes, end) + d, o.upto)
      && PieceOf(st, Whole(end), o) == Piece(o.injected, o.from, end + d, false)
  {
  }

  lemma InsideOrigin(st: State, end: nat, header: string, o: Origin)
    requires Fits(st, Inside(end, header)) && st.start + |o.injected| <= end
    requires o.from <= o.upto == |st.runes| + o.from - st.start - |o.injected|
    requires |TrimSpace(header + "\n" + st.runes[end..])| > |header| + 1
    ensures var r := TrimSpace(header + "\n" + st.runes[end..]); var d := o.from - st.start - |o.injected|;
      && end + d >= 0
      && OriginOf(st, Inside(end, header), o) == Origin(header + "\n", end + d, end + d + (|r| - |header| - 1))
  {
    var d := o.from - st.start - |o.injected|;
    assert o.injected[|o.injected|..] == "";
    assert Right(o, end - st.start) == Origin("", end + d, o.upto);
    assert header + "\n" + "" == header + "\n";
  }

  lemma WholeFollows(content: string, runes: string, start: nat, o: Origin, b: int, piece: Piece)
    requires Anchored(content, runes, start, o, b) && Injected(content, runes, start, o, b)
    requires piece == Piece(o.injected, o.from, piece.upto, false) && o.from <= piece.upto <= |content|
    ensures Follows(content, piece, b >= 0)
  {
    hide HeadKnown;
    KnowsHead(content, runes, start, o, b);
    FollowsHead(content, o, b, piece);
  }

  lemma InsideFollows(content: string, runes: string, start: nat, o: Origin, b: int, end: nat, m: nat)
    requires Anchored(content, runes, start, o, b) && Injected(content, runes, start, o, b)
    requires start + |o.injected| <= end <= |runes| && CleanCut(runes, end)
    requires CountIn(content, 0, end + o.from - start - |o.injected|) % 2 == 1
    requires m == EndOf(runes[start..end], end - start, IsBlank)
    ensures Follows(content, PieceAt(o, m, true), b >= 0) && ClosedExactly(content, PieceAt(o, m, true))
  {
    hide CountIn, CleanCut, Injected, HeadKnown, Follows, Aligned, HeadOf;
    KnowsHead(content, runes, start, o, b);
    InsidePiece(content, runes, start, o, b, end, m);
    EndOfSpec(runes[start..end], end - start, IsBlank);
    PieceShape(o, m);
    FollowsHead(content, o, b, PieceAt(o, m, true));
  }

  lemma InsideReopens(content: string, runes: string, start: nat, o: Origin, b: int, u: nat, end: nat, d: int)
    returns (b': int)
    requires d == o.from - start - |o.injected| && 0 <= end + d <= |content|
    requires FenceAt(runes, u) && start <= u && u + 3 <= end <= |runes| && start + |o.injected| <= end
    requires Anchored(content, runes, start, o, b) && Injected(content, runes, start, o, b)
    requires LineStart(content) && LineStart(runes)
    requires CleanCut(runes, end) && CountIn(runes, start, end) % 2 == 1
    requires CountIn(runes, start, u) % 2 == 0 && CountIn(runes, u + 3, end) == 0
    ensures CountIn(content, 0, end + d) % 2 == 1
    ensures OpenAt(content, b', end + d) && LineOf(content, b', Header(runes, u))
  {
    hide CountIn, Header, Aligned, Named, LineOf, LineShape;
    var lo := start + |o.injected|;
    HeadCount(content, runes, start, lo, d, b);
    b' := InsideBlock(content, runes, start, lo, d, b, u, end, LineIn(o));
  }

  /** Everything an inside cut of a steady state offers. */
  lemma InsideFacts(content: string, st: State, maxLen: nat, o: Origin, b: int) returns (u: nat, end: nat)
    requires maxLen >= 1 && !Done(st) && Steady(content, st, maxLen) && LineStart(content)
    requires Anchored(content, st.runes, st.start, o, b) && Injected(content, st.runes, st.start, o, b)
    requires Decide(st.runes, st.start, maxLen).Inside?
    ensures FenceAt(st.runes, u) && Decide(st.runes, st.start, maxLen) == Inside(end, Header(st.runes, u))
    ensures st.start <= u && u + 3 <= end <= |st.runes| && st.start + |o.injected| <= end
    ensures CleanCut(st.runes, end) && CountIn(st.runes, st.start, end) % 2 == 1
    ensures CountIn(st.runes, st.start, u) % 2 == 0 && CountIn(st.runes, u + 3, end) == 0
    ensures |Header(st.runes, u)| <= maxLen
  {
    hide Header, CutAtBlock, CutOpen, NaturalEnd, Anchored, Injected, CountIn;
    var cut := Decide(st.runes, st.start, maxLen);
    end := cut.end;
    var _, block := InsideCut(st.runes, st.start, maxLen);
    FencesNeedRoom(st.runes, maxLen, block);
    u := InsideCounts(st.runes, st.start, maxLen);
    DecideBalances(st.runes, st.start, maxLen);
    InsidePassesHead(content, st.runes, st.start, o, b, maxLen, u, end);
  }

  lemma InsideStep(content: string, st: State, o: Origin, b: int, u: nat, end: nat, h: string, maxLen: nat)
    returns (b': int)
    requires Anchored(content, st.runes, st.start, o, b) && Injected(content, st.runes, st.start, o, b)
    requires LineStart(content) && LineStart(st.runes)
    requires FenceAt(st.runes, u) && h == Header(st.runes, u) && |h| <= maxLen && Fits(st, Inside(end, h))
    requires st.start <= u && u + 3 <= end <= |st.runes| && st.start + |o.injected| <= end
    requires CleanCut(st.runes, end) && CountIn(st.runes, st.start, end) % 2 == 1
    requires CountIn(st.runes, st.start, u) % 2 == 0 && CountIn(st.runes, u + 3, end) == 0
    ensures b' >= 0 && Follows(content, PieceOf(st, Inside(end, h), o), b >= 0)
    ensures ClosedExactly(content, PieceOf(st, Inside(end, h), o))
    ensures Tracks(content, Emit(st, Inside(end, h)).runes, 0, OriginOf(st, Inside(end, h), o), b', maxLen)
  {
    hide Header, TrimSpace, Follows, CountIn, HeadOf, Named, CleanCut, LineStart, SpaceIn, LineOf, LineShape;
    b' := InsideReopens(content, st.runes, st.start, o, b, u, end, o.from - st.start - |o.injected|);
    InsideFollows(content, st.runes, st.start, o, b, end, EndOf(st.runes[st.start..end], end - st.start, IsBlank));
    InsideOriginTracks(content, st, o, u, end, b', h, TrimSpace(h + "\n" + st.runes[end..]), maxLen);
  }

  lemma InsideOriginTracks(content: string, st: State, o: Origin, u: nat, end: nat, b: int, h: string, r: string, maxLen: nat)
    requires Fits(st, Inside(end, h)) && FenceAt(st.runes, u) && h == Header(st.runes, u) && |h| <= maxLen
    requires r == TrimSpace(h + "\n" + st.runes[end..]) && st.start + |o.injected| <= end
    requires var d := o.from - st.start - |o.injected|;
      && Aligned(content, st.runes, st.start + |o.injected|, d) && o.from <= o.upto == |st.runes| + d
      && OpenAt(content, b, end + d) && LineOf(content, b, h)
    requires CleanCut(st.runes, end)
    ensures Tracks(content, r, 0, OriginOf(st, Inside(end, h), o), b, maxLen)
  {
    hide Header, TrimSpace, Rebuilt, Aligned, LineOf, LineShape;
    var lo := st.start + |o.injected|;
    InsideRebuilds(st.runes, u, end, h, r);
    HeaderIsLine(st.runes, u);
    if |r| > |h| + 1 {
      InsideNext(content, st.runes, lo, o.from - lo, u, end, b, h, r);
      InsideOrigin(st, end, h, o);
      RebuiltHead(st.runes, u, |h|, end, r);
      assert LineIn(OriginOf(st, Inside(end, h), o)) == h;
    } else {
      RebuiltAlone(st.runes, u, h, end, r);
      LoneOrigin(st, end, h, o);
    }
  }

  lemma RebuiltHead(runes: string, u: nat, n: nat, end: nat, r: string)
    requires Rebuilt(runes, u, n, end, r) && n < |r|
    ensures r[n] == '\n'
  {
  }

  /** When nothing visible follows a cut, the rebuilt text is just the fence line. */
  lemma RebuiltAlone(runes: string, u: nat, h: string, end: nat, r: string)
    requires Rebuilt(runes, u, |h|, end, r) && |r| <= |h| + 1 && !IsSpace(r[|r| - 1])
    requires forall i {:trigger r[i]} :: 0 <= i < |h| ==> r[i] == h[i]
    ensures r == h
  {
  }

  lemma LoneOrigin(st: State, end: nat, header: string, o: Origin)
    requires Fits(st, Inside(end, header)) && st.start + |o.injected| <= end
    requires o.from <= o.upto == |st.runes| + o.from - st.start - |o.injected|
    requires |TrimSpace(header + "\n" + st.runes[end..])| == |header|
    ensures var d := o.from - st.start - |o.injected|;
      end + d >= 0 && OriginOf(st, Inside(end, header), o) == Origin(header, end + d, end + d)
  {
    var d := o.from - st.start - |o.injected|;
    assert o.injected[|o.injected|..] == "";
    assert Right(o, end - st.start) == Origin("", end + d, o.upto);
    assert (header + "\n" + "")[..|header|] == header;
  }

  lemma WholeReopens(content: string, st: State, o: Origin, b: int, end: nat)
    requires Anchored(content, st.runes, st.start, o, b) && Injected(content, st.runes, st.start, o, b)
    requires LineStart(content) && LineStart(st.runes)
    requires st.start < end <= |st.runes| && CleanCut(st.runes, end) && CountIn(st.runes, st.start, end) % 2 == 0
    ensures Follows(content, PieceOf(st, Whole(end), o), b >= 0) && ClosedExactly(content, PieceOf(st, Whole(end), o))
    ensures Anchored(content, st.runes, SkipBlanks(st.runes, end), OriginOf(st, Whole(end), o), -1)
    ensures Injected(content, st.runes, SkipBlanks(st.runes, end), OriginOf(st, Whole(end), o), -1)
  {
    hide Header, CountIn, Follows, SkipBlanks, LineStart, Injected, Aligned, HeadOf, ClosedExactly, CleanCut;
    var d := WholeAnchors(content, st.runes, st.start, o, b, end);
    WholeOrigin(st, end, o);
    NothingInjected(content, st.runes, SkipBlanks(st.runes, end), OriginOf(st, Whole(end), o));
    hide OriginOf, PieceOf;
    var piece := PieceOf(st, Whole(end), o);
    NotClosed(content, piece);
    WholeFollows(content, st.runes, st.start, o, b, piece);
  }

  lemma NothingInjected(content: string, runes: string, start: nat, o: Origin)
    ensures Injected(content, runes, start, o, -1)
  {
  }

  lemma NotClosed(content: string, piece: Piece)
    requires piece.upto <= |content| && !piece.closed && CountIn(content, 0, piece.upto) % 2 == 0
    ensures ClosedExactly(content, piece)
  {
  }

  lemma FinalReopens(content: string, st: State, o: Origin, b: int, maxLen: nat)
    requires Tracks(content, st.runes, st.start, o, b, maxLen) && o.from <= o.upto <= |content|
    ensures Follows(content, Piece(o.injected, o.from, o.upto, false), b >= 0)
  {
    hide Header, LineShape, Named, CountIn;
    var piece := Piece(o.injected, o.from, o.upto, false);
    if Lone(content, st.runes, st.start, o, b, maxLen) {
      assert StartsWithLine(piece, o.injected);
      assert ReopensBlock(content, b, piece);
    } else {
      WholeFollows(content, st.runes, st.start, o, b, piece);
    }
  }

  /** What one iteration adds to the reopening discipline. */
  lemma StepReopens(content: string, st: State, maxLen: nat, o: Origin, b: int, reached: nat) returns (b': int)
    requires maxLen >= 1 && !Done(st) && Steady(content, st, maxLen) && LineStart(content)
    requires Tracks(content, st.runes, st.start, o, b, maxLen) && Pending(content, st, o, reached)
    ensures Fits(st, Decide(st.runes, st.start, maxLen))
    ensures o.from <= o.upto && |st.runes| - st.start == |o.injected| + o.upto - o.from
    ensures var cut := Decide(st.runes, st.start, maxLen); var next := Emit(st, cut);
      && Follows(content, PieceOf(st, cut, o), b >= 0)
      && (!cut.Final? ==>
            && Tracks(content, next.runes, next.start, OriginOf(st, cut, o), b', maxLen)
            && ClosedExactly(content, PieceOf(st, cut, o)) && (b' >= 0 <==> PieceOf(st, cut, o).closed))
  {
    hide Header, CountIn, Follows, SkipBlanks, TrimSpace, CutOpen, NaturalEnd, LineStart, HeadersFit, BalancedSoFar,
         Injected, Anchored, Injects, SpaceIn, ClosedExactly, LineOf, OpenAt;
    DecideFits(st, maxLen);
    PendingLength(content, st, o, reached);
    b' := -1;
    match Decide(st.runes, st.start, maxLen)
    case Final => FinalReopens(content, st, o, b, maxLen);
    case Whole(end) =>
      DecideBalances(st.runes, st.start, maxLen);
      WholeReopens(content, st, o, b, end);
    case Inside(end, header) =>
      var u, _ := InsideFacts(content, st, maxLen, o, b);
      b' := InsideStep(content, st, o, b, u, end, header, maxLen);
  }

  lemma PendingLength(content: string, st: State, o: Origin, reached: nat)
    requires Pending(content, st, o, reached)
    ensures o.from <= o.upto <= |content| && |st.runes| - st.start == |o.injected| + o.upto - o.from
  {
    assert |st.runes[st.start..]| == |Text(content, o)|;
  }

  lemma FollowAppend(content: string, pieces: seq<Piece>, piece: Piece)
    requires AllFollow(content, pieces)
    requires Follows(content, piece, AfterClosed(pieces, |pieces|))
    ensures AllFollow(content, pieces + [piece])
  {
    hide Follows;
    var all := pieces + [piece];
    forall k | 0 <= k < |all| ensures Follows(content, all[k], AfterClosed(all, k)) {
      assert AfterClosed(all, k) == AfterClosed(pieces, k);
    }
  }

  // ----- whole runs

  /** What holds after any number of iterations. */
  ghost predicate Reopening(content: string, st: State, maxLen: nat, pieces: seq<Piece>, o: Origin, b: int) {
    && Woven(content, st.messages, pieces) && Pending(content, st, o, Reached(pieces))
    && if Done(st) then Reopens(content, pieces)
       else
         && AllFollow(content, pieces) && (forall k :: 0 <= k < |pieces| ==> ClosedExactly(content, pieces[k]))
         && Tracks(content, st.runes, st.start, o, b, maxLen)
         && (b >= 0 <==> AfterClosed(pieces, |pieces|))
  }

  lemma ReopeningStarts(content: string, maxLen: nat)
    ensures Reopening(content, Begin(content), maxLen, [], Origin("", 0, |content|), -1)
  {
    forall i | 0 <= i < |content| ensures SameRune(content, content, i, 0) {
    }
  }

  /** A state that starts with a reopened line is not done. */
  lemma TracksOn(content: string, runes: string, start: nat, o: Origin, b: int, maxLen: nat)
    requires Tracks(content, runes, start, o, b, maxLen) && b >= 0
    ensures start < |runes|
  {
    hide Aligned, Injected, LineOf, OpenAt;
  }

  lemma ReopeningSteps(content: string, st: State, maxLen: nat, pieces: seq<Piece>, o: Origin, b: int)
    returns (pieces': seq<Piece>, o': Origin, b': int)
    requires maxLen >= 1 && !Done(st) && Steady(content, st, maxLen) && LineStart(content)
    requires Reopening(content, st, maxLen, pieces, o, b)
    ensures Reopening(content, Step(st, maxLen), maxLen, pieces', o', b')
  {
    hide Header, CountIn, Follows, Woven, Pending, Tracks, AllFollow, ClosedExactly, Decide, LineStart, HeadersFit,
         BalancedSoFar, NamesFence;
    b' := StepReopens(content, st, maxLen, o, b, Reached(pieces));
    var cut := Decide(st.runes, st.start, maxLen);
    DecideNames(st, maxLen);
    FollowAppend(content, pieces, PieceOf(st, cut, o));
    pieces', o' := EmitWeaves(content, st, cut, pieces, o);
    if cut.Inside? {
      TracksOn(content, Emit(st, cut).runes, Emit(st, cut).start, o', b', maxLen);
    }
  }

  /** Every run of the splitter closes and reopens exactly the blocks it cuts. */
  lemma {:induction false} RunReopens(n: nat, content: string, maxLen: nat)
    returns (pieces: seq<Piece>, o: Origin, b: int)
    requires maxLen >= 1 && LineStart(content) && HeadersFit(content, maxLen)
    ensures Reopening(content, After(n, content, maxLen), maxLen, pieces, o, b)
    decreases n
  {
    hide Reopening, Step, LineStart, HeadersFit, Steady;
    if n == 0 {
      ReopeningStarts(content, maxLen);
      pieces, o, b := [], Origin("", 0, |content|), -1;
    } else {
      pieces, o, b := RunReopens(n - 1, content, maxLen);
      var st := After(n - 1, content, maxLen);
      if !Done(st) {
        RunBalances(n - 1, content, maxLen);
        pieces, o, b := ReopeningSteps(content, st, maxLen, pieces, o, b);
      }
    }
  }
}
