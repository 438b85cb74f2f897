/**
 Conservation: at every point of every run of the splitter, for every text and every limit,
 each chunk is injected text, then a slice of the original, then possibly a closing fence;
 the slices follow one another in the original and only white space lies between them.
 What is injected only repeats fence lines of the original that lie at or before the slice.
 */
module SplitWeave {
  import opened Runes
  import opened Fences
  import opened Splitter
  import opened SplitBalance

  /** Where a chunk comes from: `injected + content[from..upto]`, closed by the splitter when `closed`. */
  datatype Piece = Piece(injected: string, from: nat, upto: nat, closed: bool)

  /** Where the pending text comes from: `injected + content[from..upto]`. */
  datatype Origin = Origin(injected: string, from: nat, upto: nat)

  ghost predicate SpaceIn(s: string, lo: int, hi: int)
    requires 0 <= lo <= hi <= |s|
  {
    forall i {:trigger IsSpace(s[i])} :: lo <= i < hi ==> IsSpace(s[i])
  }

  /** `line` is a contiguous part of a fence line, as the splitter trims it, of a fence at `upto` or before. */
  ghost predicate Echo(content: string, line: string, upto: nat) {
    exists b: nat, i: nat :: EchoOf(content, line, upto, b, i)
  }

  ghost predicate EchoOf(content: string, line: string, upto: nat, b: nat, i: nat) {
    && b <= upto && FenceAt(content, b) && i + |line| <= |Header(content, b)|
    && line == Header(content, b)[i..i + |line|]
  }

  predicate OneLine(s: string, lo: nat, hi: nat)
    requires lo <= hi <= |s|
  {
    forall i :: lo <= i < hi ==> s[i] != '\n'
  }

  /** Whatever lies between two newlines of the injected text is part of an earlier fence line. */
  ghost predicate Echoes(content: string, injected: string, upto: nat) {
    injected == "" ||
    forall lo: nat, hi: nat :: lo <= hi <= |injected| && OneLine(injected, lo, hi) ==> Echo(content, injected[lo..hi], upto)
  }

  /** What may be injected in front of `content[from..upto]`: earlier fence lines, ended by a newline if text follows. */
  ghost predicate Injects(content: string, injected: string, from: nat, upto: nat) {
    && Echoes(content, injected, from)
    && (from < upto && injected != "" ==> injected[|injected| - 1] == '\n')
  }

  ghost predicate Renders(content: string, piece: Piece, chunk: string) {
    && piece.from <= piece.upto <= |content|
    && chunk == piece.injected + content[piece.from..piece.upto] + if piece.closed then CLOSING else ""
  }

  /** How much of the content the pieces account for. */
  function Reached(pieces: seq<Piece>): nat {
    if pieces == [] then 0 else pieces[|pieces| - 1].upto
  }

  /** The chunks are the pieces, and the slices follow one another with only white space between them. */
  ghost predicate Laid(content: string, messages: seq<string>, pieces: seq<Piece>) {
    && |messages| == |pieces|
    && (forall k :: 0 <= k < |pieces| ==> Renders(content, pieces[k], messages[k]))
    && (forall k :: 0 <= k < |pieces| ==>
          && Reached(pieces[..k]) <= pieces[k].from
          && SpaceIn(content, Reached(pieces[..k]), pieces[k].from))
  }

  ghost predicate Fenced(content: string) { exists b: nat :: FenceAt(content, b) }

  /** What the splitter adds to a slice: earlier fence lines in front, and a closing fence behind only if there is one to close. */
  ghost predicate Adorned(content: string, piece: Piece) {
    && Injects(content, piece.injected, piece.from, piece.upto)
    && (piece.closed ==> Fenced(content))
  }

  ghost predicate Woven(content: string, messages: seq<string>, pieces: seq<Piece>) {
    && Laid(content, messages, pieces)
    && forall k :: 0 <= k < |pieces| ==> Adorned(content, pieces[k])
  }

  /** The pending text is some injected text and a slice of the content, with only white space around the slice. */
  ghost predicate Placed(content: string, st: State, o: Origin, reached: nat) {
    && st.start <= |st.runes|
    && reached <= o.from <= o.upto <= |content|
    && st.runes[st.start..] == o.injected + content[o.from..o.upto]
    && SpaceIn(content, reached, o.from)
    && SpaceIn(content, o.upto, |content|)
  }

  ghost predicate Pending(content: string, st: State, o: Origin, reached: nat) {
    Placed(content, st, o, reached) && Injects(content, o.injected, o.from, o.upto)
  }

  /** Cutting `injected + content[from..upto]` at `n`: where the two parts come from. */
  function Left(o: Origin, n: nat): Origin
    requires o.from <= o.upto && n <= |o.injected| + o.upto - o.from
  {
    if n <= |o.injected| then Origin(o.injected[..n], o.from, o.from)
    else Origin(o.injected, o.from, o.from + n - |o.injected|)
  }

  function Right(o: Origin, n: nat): Origin
    requires o.from <= o.upto && n <= |o.injected| + o.upto - o.from
  {
    if n <= |o.injected| then Origin(o.injected[n..], o.from, o.upto)
    else Origin("", o.from + n - |o.injected|, o.upto)
  }

  function Text(content: string, o: Origin): string
    requires o.from <= o.upto <= |content|
  {
    o.injected + content[o.from..o.upto]
  }

  /** The piece that the first `m` runes of the pending text make. */
  function PieceAt(o: Origin, m: nat, closed: bool): Piece
    requires o.from <= o.upto && m <= |o.injected| + o.upto - o.from
  {
    var l := Left(o, m);
    Piece(l.injected, l.from, l.upto, closed)
  }

  lemma CutText(content: string, o: Origin, n: nat)
    requires o.from <= o.upto <= |content| && n <= |Text(content, o)|
    ensures Text(content, Left(o, n)) == Text(content, o)[..n]
    ensures Text(content, Right(o, n)) == Text(content, o)[n..]
    ensures Left(o, n).upto == Right(o, n).from
  {
    var kept := content[o.from..o.upto];
    if n > |o.injected| {
      var m := o.from + n - |o.injected|;
      CutConcat(o.injected, kept, n - |o.injected|);
      assert kept[..n - |o.injected|] == content[o.from..m];
      assert kept[n - |o.injected|..] == content[m..o.upto];
    } else {
      assert content[o.from..o.from] == "";
    }
  }

  lemma CutConcat(a: string, b: string, k: nat)
    requires k <= |b|
    ensures (a + b)[..|a| + k] == a + b[..k] && (a + b)[|a| + k..] == b[k..]
  {
  }

  /** Dropping white space from the pending text only opens a white-space gap in the content. */
  lemma GapText(content: string, o: Origin, m: nat, n: nat)
    requires o.from <= o.upto <= |content| && m <= n <= |Text(content, o)|
    requires forall i :: m <= i < n ==> IsSpace(Text(content, o)[i])
    ensures Left(o, m).upto <= Right(o, n).from
    ensures SpaceIn(content, Left(o, m).upto, Right(o, n).from)
  {
    var t := Text(content, o);
    forall i | Left(o, m).upto <= i < Right(o, n).from
      ensures IsSpace(content[i])
    {
      assert t[|o.injected| + i - o.from] == content[i];
    }
  }

  /** The piece behind the chunk that a cut emits. */
  function PieceOf(st: State, cut: Cut, o: Origin): Piece
    requires Fits(st, cut) && o.from <= o.upto && |st.runes| - st.start == |o.injected| + o.upto - o.from
  {
    match cut
    case Final => Piece(o.injected, o.from, o.upto, false)
    case Whole(end) => PieceAt(o, end - st.start, false)
    case Inside(end, _) => PieceAt(o, EndOf(st.runes[st.start..end], end - st.start, IsBlank), true)
  }

  /** Where the text comes from that a cut keeps. */
  function OriginOf(st: State, cut: Cut, o: Origin): Origin
    requires Fits(st, cut) && o.from <= o.upto && |st.runes| - st.start == |o.injected| + o.upto - o.from
  {
    match cut
    case Final => Origin("", o.upto, o.upto)
    case Whole(end) => Right(o, SkipBlanks(st.runes, end) - st.start)
    case Inside(end, header) =>
      Left(Reopened(Right(o, end - st.start), header), |TrimSpace(header + "\n" + st.runes[end..])|)
  }

  function Reopened(o: Origin, header: string): Origin {
    Origin(header + "\n" + o.injected, o.from, o.upto)
  }

  // ----- what is injected

  lemma EchoPart(content: string, line: string, upto: nat, lo: nat, hi: nat, later: nat)
    requires Echo(content, line, upto) && lo <= hi <= |line| && upto <= later
    ensures Echo(content, line[lo..hi], later)
  {
    hide Header, FenceAt;
    var b: nat, i: nat :| EchoOf(content, line, upto, b, i);
    PartOfPart(Header(content, b), i, i + |line|, lo, hi);
    assert EchoOf(content, line[lo..hi], later, b, i + lo);
  }

  lemma PartOfPart(s: string, i: nat, j: nat, lo: nat, hi: nat)
    requires i <= j <= |s| && lo <= hi <= j - i
    ensures s[i..j][lo..hi] == s[i + lo..i + hi]
  {
    assert forall k :: 0 <= k < hi - lo ==> s[i..j][lo..hi][k] == s[i..j][lo + k] == s[i + lo..i + hi][k];
  }

  lemma EchoesPart(content: string, s: string, upto: nat, i: nat, j: nat, later: nat)
    requires Echoes(content, s, upto) && i <= j <= |s| && upto <= later
    ensures Echoes(content, s[i..j], later)
  {
    hide Echo;
    var t := s[i..j];
    if t != "" {
      forall lo: nat, hi: nat | lo <= hi <= |t| && OneLine(t, lo, hi) ensures Echo(content, t[lo..hi], later) {
        PartOfPart(s, i, j, lo, hi);
        assert OneLine(s, i + lo, i + hi) by {
          forall k | i + lo <= k < i + hi ensures s[k] != '\n' {
            assert s[k] == t[k - i];
          }
        }
        EchoPart(content, t[lo..hi], upto, 0, hi - lo, later);
        assert t[lo..hi][0..hi - lo] == t[lo..hi];
      }
    }
  }

  lemma EchoesJoin(content: string, h: string, rest: string, upto: nat)
    requires Echo(content, h, upto) && Echoes(content, rest, upto)
    ensures Echoes(content, h + "\n" + rest, upto)
  {
    hide Echo;
    var t := h + "\n" + rest;
    forall lo: nat, hi: nat | lo <= hi <= |t| && OneLine(t, lo, hi) ensures Echo(content, t[lo..hi], upto) {
      if hi <= |h| {
        EchoPart(content, h, upto, lo, hi, upto);
        assert t[lo..hi] == h[lo..hi];
      } else {
        assert t[|h|] == '\n';
        assert lo > |h|;
        RestPart(content, h, rest, upto, lo, hi);
      }
    }
  }

  lemma RestPart(content: string, h: string, rest: string, upto: nat, lo: nat, hi: nat)
    requires Echo(content, h, upto) && Echoes(content, rest, upto)
    requires |h| < lo <= hi <= |h| + 1 + |rest| && OneLine(h + "\n" + rest, lo, hi)
    ensures Echo(content, (h + "\n" + rest)[lo..hi], upto)
  {
    hide Echo;
    var t, n := h + "\n" + rest, |h| + 1;
    PartBehind(h + "\n", rest, lo - n, hi - n);
    if rest == "" {
      EchoPart(content, h, upto, 0, 0, upto);
      assert t[lo..hi] == "" == h[0..0];
    } else {
      assert OneLine(rest, lo - n, hi - n);
    }
  }

  lemma PartBehind(a: string, b: string, lo: nat, hi: nat)
    requires lo <= hi <= |b|
    ensures (a + b)[|a| + lo..|a| + hi] == b[lo..hi]
    ensures OneLine(a + b, |a| + lo, |a| + hi) ==> OneLine(b, lo, hi)
  {
    forall k | lo <= k < hi ensures b[k] == (a + b)[|a| + k] {
    }
  }

  /** The header of a fence of the pending text repeats part of a fence line of the content. */
  lemma HeaderEchoes(content: string, runes: string, start: nat, o: Origin, u: nat)
    requires start <= u && FenceAt(runes, u)
    requires o.from <= o.upto <= |content| && runes[start..] == Text(content, o)
    requires SpaceIn(content, o.upto, |content|) && Injects(content, o.injected, o.from, o.upto)
    ensures Echo(content, Header(runes, u), o.from + if u >= start + |o.injected| then u - start - |o.injected| else 0)
  {
    hide Echo, SpaceIn, Injects, Header;
    if u >= start + |o.injected| {
      var d := o.from - start - |o.injected|;
      PendingRunes(content, runes, start, o, d);
      ContentHeader(content, runes, start + |o.injected|, d, u);
    } else {
      InjectedHeader(content, runes, start, o, u);
    }
  }

  lemma PendingRunes(content: string, runes: string, start: nat, o: Origin, d: int)
    requires d == o.from - start - |o.injected|
    requires start <= |runes| && o.from <= o.upto <= |content| && runes[start..] == Text(content, o)
    ensures |runes| + d == o.upto
    ensures forall k :: start + |o.injected| <= k < |runes| ==> runes[k] == content[k + d]
  {
    assert |runes| - start == |runes[start..]|;
    assert forall k :: start <= k < |runes| ==> runes[k] == runes[start..][k - start];
  }

  lemma ContentHeader(content: string, runes: string, lo: nat, d: int, u: nat)
    requires lo <= u && FenceAt(runes, u) && 0 <= lo + d && |runes| + d <= |content|
    requires forall k :: lo <= k < |runes| ==> runes[k] == content[k + d]
    ensures Echo(content, Header(runes, u), u + d)
  {
    hide Header, NewlineFrom;
    var b := u + d;
    assert FenceAt(content, b);
    HeaderShape(content, b);
    HeaderShape(runes, u);
    var nl := NewlineFrom(runes, u);
    if nl != -1 {
      SameHeader(runes, u, content, b, nl);
    } else {
      assert runes[u..u + 3] == content[b..b + 3];
      assert Header(runes, u) == Header(content, b)[0..3];
    }
    assert EchoOf(content, Header(runes, u), b, b, 0);
  }

  lemma InjectedHeader(content: string, runes: string, start: nat, o: Origin, u: nat)
    requires start <= u < start + |o.injected| && FenceAt(runes, u)
    requires o.from <= o.upto <= |content| && runes[start..] == Text(content, o)
    requires Injects(content, o.injected, o.from, o.upto)
    ensures Echo(content, Header(runes, u), o.from)
  {
    hide Echo, Header, NewlineFrom, Injects;
    var i := InjectedLine(content, runes, start, o, u);
    var h := Header(runes, u);
    assert Echo(content, o.injected[i..i + |h|], o.from) by { InjectedEchoes(content, o, i, i + |h|); }
  }

  lemma InjectedEchoes(content: string, o: Origin, lo: nat, hi: nat)
    requires lo < hi <= |o.injected| && OneLine(o.injected, lo, hi) && Injects(content, o.injected, o.from, o.upto)
    ensures Echo(content, o.injected[lo..hi], o.from)
  {
    hide Echo;
  }

  /** The header of a fence in the injected text lies in it as a whole. */
  lemma InjectedLine(content: string, runes: string, start: nat, o: Origin, u: nat) returns (i: nat)
    requires start <= u < start + |o.injected| && FenceAt(runes, u)
    requires o.from <= o.upto <= |content| && runes[start..] == Text(content, o)
    requires Injects(content, o.injected, o.from, o.upto)
    ensures var h := Header(runes, u);
      h != "" && i + |h| <= |o.injected| && h == o.injected[i..i + |h|] && OneLine(o.injected, i, i + |h|)
  {
    hide Echoes, Header, NewlineFrom, HeaderEnd;
    i := u - start;
    HeaderShape(runes, u);
    var n := |Header(runes, u)|;
    forall k | 0 <= k < |o.injected| ensures runes[start + k] == o.injected[k] {
      assert runes[start..][k] == o.injected[k];
    }
    assert |runes| - start == |runes[start..]|;
    assert u + n <= start + |o.injected| by {
      if o.from < o.upto {
        assert runes[start + (|o.injected| - 1)] == '\n';
      }
    }
    forall k | i <= k < i + n ensures o.injected[k] != '\n' {
      assert o.injected[k] == runes[start + k];
    }
    assert runes[u..u + n] == o.injected[i..i + n];
  }

  /** The header of an inside cut is that of a fence at the cut or before. */
  ghost predicate NamesFence(st: State, cut: Cut) {
    cut.Inside? ==> exists u: nat ::
      st.start <= u <= cut.end && FenceAt(st.runes, u) && cut.header == Header(st.runes, u)
  }

  lemma DecideNames(st: State, maxLen: nat)
    requires maxLen >= 1 && st.start < |st.runes|
    ensures NamesFence(st, Decide(st.runes, st.start, maxLen))
  {
    hide Header, HeaderEnd, NaturalEnd, OpenFence, FindLast;
    if Decide(st.runes, st.start, maxLen).Inside? {
      var msgEnd, u := InsideCut(st.runes, st.start, maxLen);
      InsideAtBlock(st.runes, st.start, maxLen, msgEnd, u);
    }
  }

  lemma InsideAtBlock(runes: string, start: nat, maxLen: nat, msgEnd: nat, u: nat)
    requires maxLen >= 5 && start + maxLen < |runes| && FenceAt(runes, u)
    requires start <= u && u + 3 <= msgEnd <= start + EffectiveLimit(maxLen)
    requires CutAtBlock(runes, start, maxLen, msgEnd, u).Inside?
    ensures u <= CutAtBlock(runes, start, maxLen, msgEnd, u).end
  {
    hide Header, FindLast;
    assert EffectiveLimit(maxLen) <= maxLen - 2;
    HeaderShape(runes, u);
  }

  lemma PieceAdorned(content: string, st: State, cut: Cut, o: Origin, reached: nat)
    requires Fits(st, cut) && NamesFence(st, cut) && Pending(content, st, o, reached)
    ensures |st.runes| - st.start == |o.injected| + o.upto - o.from
    ensures Adorned(content, PieceOf(st, cut, o))
  {
    hide Echoes, Echo, SpaceIn, Header, FenceAt;
    assert |st.runes[st.start..]| == |Text(content, o)|;
    hide TrimSpace, EndOf, SkipBlanks, Injects, Left, Text, Fenced;
    match cut
    case Final =>
    case Whole(end) => LeftInjects(content, o, end - st.start);
    case Inside(end, header) =>
      LeftInjects(content, o, EndOf(st.runes[st.start..end], end - st.start, IsBlank));
      var u: nat :| st.start <= u <= end && FenceAt(st.runes, u) && header == Header(st.runes, u);
      HeaderEchoes(content, st.runes, st.start, o, u);
      EchoFenced(content, header, o.from + if u >= st.start + |o.injected| then u - st.start - |o.injected| else 0);
  }

  lemma EchoFenced(content: string, line: string, upto: nat)
    requires Echo(content, line, upto)
    ensures Fenced(content)
  {
    hide Header;
    var b: nat, i: nat :| EchoOf(content, line, upto, b, i);
  }

  lemma LeftInjects(content: string, o: Origin, n: nat)
    requires o.from <= o.upto && n <= |o.injected| + o.upto - o.from && Injects(content, o.injected, o.from, o.upto)
    ensures Injects(content, Left(o, n).injected, Left(o, n).from, Left(o, n).upto)
  {
    hide Echoes;
    if n <= |o.injected| {
      EchoesPart(content, o.injected, o.from, 0, n, o.from);
      assert o.injected[0..n] == o.injected[..n];
    }
  }

  lemma RightInjects(content: string, o: Origin, n: nat)
    requires o.from <= o.upto && n <= |o.injected| + o.upto - o.from && Injects(content, o.injected, o.from, o.upto)
    ensures Injects(content, Right(o, n).injected, Right(o, n).from, Right(o, n).upto)
  {
    hide Echoes;
    if n <= |o.injected| {
      EchoesPart(content, o.injected, o.from, n, |o.injected|, o.from);
      assert o.injected[n..|o.injected|] == o.injected[n..];
    } else {
      NothingEchoes(content, o.from + n - |o.injected|);
    }
  }

  lemma NothingEchoes(content: string, upto: nat)
    ensures Echoes(content, "", upto)
  {
  }

  lemma ReopenedInjects(content: string, o: Origin, header: string)
    requires Injects(content, o.injected, o.from, o.upto) && Echo(content, header, o.from)
    ensures var whole := Reopened(o, header); Injects(content, whole.injected, whole.from, whole.upto)
  {
    hide Echoes, Echo;
    EchoesJoin(content, header, o.injected, o.from);
  }

  lemma OriginInjects(content: string, st: State, cut: Cut, o: Origin, reached: nat)
    requires Fits(st, cut) && NamesFence(st, cut) && Pending(content, st, o, reached)
    ensures o.from <= o.upto && |st.runes| - st.start == |o.injected| + o.upto - o.from
    ensures var next := OriginOf(st, cut, o); Injects(content, next.injected, next.from, next.upto)
  {
    hide Echoes, Echo, SpaceIn, Left, Right, Header, FenceAt;
    assert |st.runes[st.start..]| == |Text(content, o)|;
    match cut
    case Final => NothingEchoes(content, o.upto);
    case Whole(end) => RightInjects(content, o, SkipBlanks(st.runes, end) - st.start);
    case Inside(end, header) =>
      var u: nat :| st.start <= u <= end && FenceAt(st.runes, u) && header == Header(st.runes, u);
      HeaderEchoes(content, st.runes, st.start, o, u);
      RightLength(o, end - st.start);
      InsideInjects(content, o, end - st.start, header, u - st.start, |TrimSpace(header + "\n" + st.runes[end..])|);
  }

  lemma RightLength(o: Origin, n: nat)
    requires o.from <= o.upto && n <= |o.injected| + o.upto - o.from
    ensures Right(o, n).from <= Right(o, n).upto == o.upto
    ensures |Right(o, n).injected| + Right(o, n).upto - Right(o, n).from == |o.injected| + o.upto - o.from - n
  {
  }

  lemma InsideInjects(content: string, o: Origin, n: nat, header: string, u: nat, k: nat)
    requires o.from <= o.upto && u <= n <= |o.injected| + o.upto - o.from
    requires Injects(content, o.injected, o.from, o.upto)
    requires Echo(content, header, o.from + if u >= |o.injected| then u - |o.injected| else 0)
    requires var whole := Reopened(Right(o, n), header); whole.from <= whole.upto && k <= |whole.injected| + whole.upto - whole.from
    ensures var next := Left(Reopened(Right(o, n), header), k); Injects(content, next.injected, next.from, next.upto)
  {
    hide Echoes, Echo, Injects;
    RightInjects(content, o, n);
    var r := Right(o, n);
    EchoPart(content, header, o.from + if u >= |o.injected| then u - |o.injected| else 0, 0, |header|, r.from);
    assert header[0..|header|] == header;
    ReopenedInjects(content, r, header);
    LeftInjects(content, Reopened(r, header), k);
  }

  lemma PieceRenders(content: string, st: State, cut: Cut, o: Origin, reached: nat)
    requires Fits(st, cut) && Placed(content, st, o, reached)
    ensures |st.runes| - st.start == |o.injected| + o.upto - o.from
    ensures Renders(content, PieceOf(st, cut, o), Chunk(st, cut))
  {
    assert |st.runes[st.start..]| == |Text(content, o)|;
    match cut
    case Final =>
    case Whole(end) => PrefixRenders(content, st, end, o, end - st.start);
    case Inside(end, _) =>
      var head := st.runes[st.start..end];
      var m := EndOf(head, end - st.start, IsBlank);
      assert TrimRight(head) == head[..m];
      PrefixRenders(content, st, end, o, m);
  }

  lemma PrefixRenders(content: string, st: State, end: nat, o: Origin, m: nat)
    requires st.start <= end <= |st.runes| && m <= end - st.start
    requires o.from <= o.upto <= |content| && st.runes[st.start..] == Text(content, o)
    ensures m <= |o.injected| + o.upto - o.from
    ensures st.runes[st.start..end][..m] == Text(content, Left(o, m))
    ensures m == end - st.start ==> st.runes[st.start..end] == Text(content, Left(o, m))
  {
    var t := st.runes[st.start..];
    assert |t| == |Text(content, o)|;
    CutText(content, o, m);
    TakeOfSlice(st.runes, st.start, end, m);
  }

  lemma TakeOfSlice(s: string, lo: nat, hi: nat, m: nat)
    requires lo + m <= hi <= |s|
    ensures s[lo..hi][..m] == s[lo..][..m]
    ensures m == hi - lo ==> s[lo..hi] == s[lo..][..m]
  {
    assert s[lo..hi][..m] == s[lo..lo + m] == s[lo..][..m];
  }

  lemma OriginTracks(content: string, st: State, cut: Cut, o: Origin, reached: nat)
    requires Fits(st, cut) && Placed(content, st, o, reached)
    ensures |st.runes| - st.start == |o.injected| + o.upto - o.from
    ensures Placed(content, Emit(st, cut), OriginOf(st, cut, o), PieceOf(st, cut, o).upto)
  {
    hide SpaceIn, TrimSpace, EndOf, SkipBlanks, Left, Right;
    assert |st.runes[st.start..]| == |Text(content, o)|;
    NoSpace(content, o.upto);
    match cut
    case Final =>
    case Whole(end) => WholeTracks(content, st, end, o);
    case Inside(end, header) => InsideTracks(content, st, end, header, o);
  }

  lemma NoSpace(content: string, at: nat)
    requires at <= |content|
    ensures SpaceIn(content, at, at)
  {
  }

  lemma WholeTracks(content: string, st: State, end: nat, o: Origin)
    requires st.start < end <= |st.runes|
    requires o.from <= o.upto <= |content| && st.runes[st.start..] == Text(content, o)
    ensures var next := SkipBlanks(st.runes, end) - st.start;
      && next <= |Text(content, o)|
      && st.runes[SkipBlanks(st.runes, end)..] == Text(content, Right(o, next))
      && Left(o, end - st.start).upto <= Right(o, next).from <= Right(o, next).upto == o.upto
      && SpaceIn(content, Left(o, end - st.start).upto, Right(o, next).from)
  {
    var t := Text(content, o);
    var next := SkipBlanks(st.runes, end);
    CutText(content, o, next - st.start);
    assert st.runes[next..] == t[next - st.start..];
    forall i | end - st.start <= i < next - st.start ensures IsSpace(t[i]) {
      StartOfSpec(st.runes, end, IsBlank);
      assert t[i] == st.runes[st.start + i];
    }
    GapText(content, o, end - st.start, next - st.start);
  }

  lemma InsideTracks(content: string, st: State, end: nat, header: string, o: Origin)
    requires Fits(st, Inside(end, header))
    requires o.from <= o.upto <= |content| && st.runes[st.start..] == Text(content, o)
    requires SpaceIn(content, o.upto, |content|)
    ensures |st.runes| - st.start == |o.injected| + o.upto - o.from
    ensures Placed(content, Emit(st, Inside(end, header)), OriginOf(st, Inside(end, header), o),
                    PieceOf(st, Inside(end, header), o).upto)
  {
    hide SpaceIn, TrimSpace, EndOf, Left, Right;
    var t := st.runes[st.start..];
    assert |t| == |Text(content, o)|;
    var n := end - st.start;
    TrimmedGap(content, t[..n], o);
    assert st.runes[st.start..end] == t[..n] && st.runes[end..] == t[n..];
    CutText(content, o, n);
    RightEnds(content, o, n);
    ReopenTracks(content, Right(o, n), header, st.runes[end..]);
    LeftBounds(Reopened(Right(o, n), header), |TrimSpace(header + "\n" + st.runes[end..])|);
  }

  /** The blanks trimmed from the end of a chunk are a gap. */
  lemma TrimmedGap(content: string, head: string, o: Origin)
    requires o.from <= o.upto <= |content| && |head| <= |Text(content, o)| && head == Text(content, o)[..|head|]
    ensures var m := EndOf(head, |head|, IsBlank);
      Left(o, m).upto <= Right(o, |head|).from && SpaceIn(content, Left(o, m).upto, Right(o, |head|).from)
  {
    hide SpaceIn, EndOf, Left, Right, Text;
    var m := EndOf(head, |head|, IsBlank);
    EndOfSpec(head, |head|, IsBlank);
    forall i | m <= i < |head| ensures IsSpace(Text(content, o)[i]) {
      assert Text(content, o)[i] == head[i];
    }
    GapText(content, o, m, |head|);
  }

  lemma RightEnds(content: string, o: Origin, n: nat)
    requires o.from <= o.upto <= |content| && n <= |Text(content, o)|
    ensures Right(o, n).from <= Right(o, n).upto == o.upto
  {
  }

  lemma LeftBounds(o: Origin, n: nat)
    requires o.from <= o.upto && n <= |o.injected| + o.upto - o.from
    ensures o.from == Left(o, n).from <= Left(o, n).upto <= o.upto
  {
  }

  /** Putting a header in front of the kept text, and trimming. */
  lemma ReopenTracks(content: string, o: Origin, header: string, rest: string)
    requires o.from <= o.upto <= |content| && SpaceIn(content, o.upto, |content|)
    requires header != "" && !IsSpace(header[0]) && rest == Text(content, o)
    ensures var r := TrimSpace(header + "\n" + rest);
      && |r| <= |header| + 1 + |o.injected| + o.upto - o.from
      && r == Text(content, Left(Reopened(o, header), |r|))
      && SpaceIn(content, Left(Reopened(o, header), |r|).upto, |content|)
  {
    hide TrimSpace, SpaceIn;
    var whole := Reopened(o, header);
    var text := Text(content, whole);
    assert text == header + "\n" + rest;
    var k := TrimSpaceKeepsStart(text);
    CutText(content, whole, k);
    GapText(content, whole, k, |text|);
    SpaceJoins(content, Left(whole, k).upto, o.upto);
  }

  lemma SpaceJoins(s: string, lo: nat, mid: nat)
    requires lo <= mid <= |s| && SpaceIn(s, lo, mid) && SpaceIn(s, mid, |s|)
    ensures SpaceIn(s, lo, |s|)
  {
  }

  lemma LaidAppend(content: string, messages: seq<string>, pieces: seq<Piece>, chunk: string, piece: Piece)
    requires Laid(content, messages, pieces) && Renders(content, piece, chunk)
    requires Reached(pieces) <= piece.from && SpaceIn(content, Reached(pieces), piece.from)
    ensures Laid(content, messages + [chunk], pieces + [piece])
  {
    var all := pieces + [piece];
    forall k | 0 <= k < |all|
      ensures Reached(all[..k]) <= all[k].from && SpaceIn(content, Reached(all[..k]), all[k].from)
    {
      assert all[..k] == pieces[..k];
      if k == |pieces| {
        assert pieces[..k] == pieces;
      }
    }
  }

  /** After any number of iterations the chunks are woven from the content, and so is the pending text. */
  lemma {:induction false} RunWeaves(n: nat, content: string, maxLen: nat) returns (pieces: seq<Piece>, o: Origin)
    requires maxLen >= 1
    ensures Woven(content, After(n, content, maxLen).messages, pieces)
    ensures Pending(content, After(n, content, maxLen), o, Reached(pieces))
    decreases n
  {
    if n == 0 {
      pieces, o := [], Origin("", 0, |content|);
    } else {
      hide Decide, Emit, Fits, NamesFence, Woven, Pending, Reached, PieceOf, OriginOf;
      pieces, o := RunWeaves(n - 1, content, maxLen);
      var st := After(n - 1, content, maxLen);
      if !Done(st) {
        pieces, o := StepWeaves(content, st, maxLen, pieces, o);
      }
    }
  }

  lemma StepWeaves(content: string, st: State, maxLen: nat, pieces: seq<Piece>, o: Origin)
    returns (pieces': seq<Piece>, o': Origin)
    requires maxLen >= 1 && !Done(st) && Woven(content, st.messages, pieces) && Pending(content, st, o, Reached(pieces))
    ensures Woven(content, Step(st, maxLen).messages, pieces')
    ensures Pending(content, Step(st, maxLen), o', Reached(pieces'))
  {
    hide Decide, Emit, Fits, NamesFence, Woven, Pending, Reached, PieceOf, OriginOf;
    DecideFits(st, maxLen);
    DecideNames(st, maxLen);
    pieces', o' := EmitWeaves(content, st, Decide(st.runes, st.start, maxLen), pieces, o);
  }

  lemma EmitWeaves(content: string, st: State, cut: Cut, pieces: seq<Piece>, o: Origin)
    returns (pieces': seq<Piece>, o': Origin)
    requires Fits(st, cut) && NamesFence(st, cut)
    requires Woven(content, st.messages, pieces) && Pending(content, st, o, Reached(pieces))
    ensures Woven(content, Emit(st, cut).messages, pieces')
    ensures Pending(content, Emit(st, cut), o', Reached(pieces'))
    ensures |st.runes| - st.start == |o.injected| + o.upto - o.from
    ensures pieces' == pieces + [PieceOf(st, cut, o)] && o' == OriginOf(st, cut, o)
  {
    PieceRenders(content, st, cut, o, Reached(pieces));
    OriginTracks(content, st, cut, o, Reached(pieces));
    LaidAppend(content, st.messages, pieces, Chunk(st, cut), PieceOf(st, cut, o));
    PieceAdorned(content, st, cut, o, Reached(pieces));
    OriginInjects(content, st, cut, o, Reached(pieces));
    pieces', o' := pieces + [PieceOf(st, cut, o)], OriginOf(st, cut, o);
  }

  /**
   Apart from earlier fence lines in front of a slice and closing fences behind it, the chunks lose, repeat and
   reorder nothing but white space of the content.
   */
  ghost predicate Conserved(content: string, messages: seq<string>, pieces: seq<Piece>) {
    && Woven(content, messages, pieces)
    && Reached(pieces) <= |content|
    && SpaceIn(content, Reached(pieces), |content|)
  }

  /** To a text without fences the splitter adds nothing: its chunks are slices of the text, in order. */
  lemma FencelessTextIsOnlyCut(content: string, messages: seq<string>, pieces: seq<Piece>, k: nat)
    requires Conserved(content, messages, pieces) && !Fenced(content) && k < |messages|
    ensures pieces[k].from <= pieces[k].upto <= |content| && messages[k] == content[pieces[k].from..pieces[k].upto]
  {
    hide SpaceIn, Header;
    var piece := pieces[k];
    assert Adorned(content, piece);
    if piece.injected != "" {
      EchoFenced(content, piece.injected[0..0], piece.from);
    }
  }

  lemma PendingEnds(content: string, st: State, o: Origin, reached: nat)
    requires Pending(content, st, o, reached) && Done(st)
    ensures reached <= |content| && SpaceIn(content, reached, |content|)
  {
    assert |st.runes[st.start..]| == 0;
  }

  lemma EndedRunConserves(n: nat, content: string, maxLen: nat)
    requires maxLen >= 1 && Done(After(n, content, maxLen))
    ensures exists pieces :: Conserved(content, After(n, content, maxLen).messages, pieces)
  {
    var pieces, o := RunWeaves(n, content, maxLen);
    var st := After(n, content, maxLen);
    PendingEnds(content, st, o, Reached(pieces));
    assert Conserved(content, st.messages, pieces);
  }

  /** No chunk of any run, ended or not, is longer than the limit. */
  lemma {:induction false} ChunksFit(n: nat, content: string, maxLen: nat)
    requires maxLen >= 1
    ensures forall k :: 0 <= k < |After(n, content, maxLen).messages| ==>
              |After(n, content, maxLen).messages[k]| <= maxLen
    decreases n
  {
    if n == 0 {
    } else {
      ChunksFit(n - 1, content, maxLen);
      var st := After(n - 1, content, maxLen);
      if !Done(st) {
        DecideFits(st, maxLen);
        ChunkFits(st, Decide(st.runes, st.start, maxLen), maxLen);
      }
    }
  }

  lemma ChunkFits(st: State, cut: Cut, maxLen: nat)
    requires Fits(st, cut)
    requires cut.Final? ==> |st.runes| - st.start <= maxLen
    requires cut.Whole? ==> cut.end - st.start <= maxLen
    requires cut.Inside? ==> cut.end - st.start <= maxLen - 5
    ensures |Chunk(st, cut)| <= maxLen
  {
  }
}
