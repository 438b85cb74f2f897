/**
 One iteration of the message splitter: where it cuts, and what it emits and keeps.
 */
module Splitter {
  import opened Basics
  import opened Runes
  import opened Fences

  const CLOSING: string := "\n```"

  /** What one iteration decides about the pending text `runes[start..]`. */
  datatype Cut =
    | Final                               // the pending text fits: emit it and stop
    | Whole(end: nat)                     // emit runes[start..end] as it is
    | Inside(end: nat, header: string)    // cut inside a block: close it here, reopen it with `header`

  /** The loop's variables. The pending text is `runes[start..]`. */
  datatype State = State(runes: string, start: nat, messages: seq<string>)

  /** Runes kept free for a closing fence: a tenth of `maxLen`, at least 50, at most half of `maxLen`. */
  function Buffer(maxLen: nat): nat {
    var b := Max(maxLen / 10, 50);
    if b > maxLen / 2 then maxLen / 2 else b
  }

  function EffectiveLimit(maxLen: nat): (limit: nat)
    requires maxLen >= 1
    ensures 1 <= limit <= maxLen
    ensures limit > 2 ==> maxLen >= 5
    ensures maxLen >= 10 ==> 5 <= limit <= maxLen - 5
  {
    Max(maxLen - Buffer(maxLen), maxLen / 2)
  }

  /** The natural split point: a newline or else a space close to the limit, or the limit itself. */
  function NaturalEnd(runes: string, start: nat, end: nat): (msgEnd: nat)
    requires start < end <= |runes|
    ensures start < msgEnd <= end
  {
    var nl := FindLast(runes, start, end, 200, IsNewline);
    if nl > start then nl
    else
      var sp := FindLast(runes, start, end, 100, IsSpaceOrTab);
      if sp > start then sp else end
  }

  function HeaderEnd(runes: string, u: nat): nat
    requires FenceAt(runes, u)
  {
    var nl := NewlineFrom(runes, u);
    if nl == -1 then u + |Header(runes, u)| else nl
  }

  /** The cut when the text up to `msgEnd` leaves the block opened at `u` open and no close fits. */
  function CutAtBlock(runes: string, start: nat, maxLen: nat, msgEnd: nat, u: nat): (cut: Cut)
    requires maxLen >= 5 && start + maxLen < |runes|
    requires start <= u && u + 3 <= msgEnd <= start + maxLen && FenceAt(runes, u)
    ensures !cut.Final? && start <= cut.end <= start + maxLen
    ensures cut.Whole? ==> start < cut.end <= u
    ensures cut.Inside? ==> cut.end <= start + maxLen - 5 && cut.header == Header(runes, u)
  {
    var inner := Min(start + maxLen - 5, |runes|);
    if msgEnd > HeaderEnd(runes, u) + 20 then
      var better := FindLast(runes, start, inner, 200, IsNewline);
      Inside(if better > HeaderEnd(runes, u) then better else inner, Header(runes, u))
    else
      var nl := FindLast(runes, start, u, 200, IsNewline);
      var newEnd := if nl <= start then FindLast(runes, start, u, 100, IsSpaceOrTab) else nl;
      if newEnd > start then Whole(newEnd)
      else if u - start > 20 then Whole(u)
      else Inside(inner, Header(runes, u))
  }

  /** The cut when the block opened at `u` is open at `msgEnd`: extend to its closing fence if that fits. */
  function CutOpen(runes: string, start: nat, maxLen: nat, msgEnd: nat, u: nat): (cut: Cut)
    requires maxLen >= 5 && start + maxLen < |runes|
    requires start <= u && u + 3 <= msgEnd <= start + maxLen && FenceAt(runes, u)
    ensures !cut.Final? && start <= cut.end <= start + maxLen
    ensures cut.Whole? ==> start < cut.end
    ensures cut.Inside? ==> cut.end <= start + maxLen - 5 && cut.header == Header(runes, u)
  {
    var c := NextFence(runes, msgEnd, |runes|);
    if c > 0 && c - start <= maxLen then Whole(c) else CutAtBlock(runes, start, maxLen, msgEnd, u)
  }

  function Decide(runes: string, start: nat, maxLen: nat): (cut: Cut)
    requires maxLen >= 1 && start < |runes|
    ensures cut.Final? <==> |runes| - start <= maxLen
    ensures cut.Whole? ==> start < cut.end <= start + maxLen < |runes|
    ensures cut.Inside? ==> maxLen >= 5 && start <= cut.end <= start + maxLen - 5 && start + maxLen < |runes|
  {
    if |runes| - start <= maxLen then Final
    else
      var msgEnd := NaturalEnd(runes, start, start + EffectiveLimit(maxLen));
      var u := OpenFence(runes, start, msgEnd, -1);
      if u < 0 then Whole(msgEnd) else CutOpen(runes, start, maxLen, msgEnd, u)
  }

  /** Facts that every branch of `Decide` shares about an `Inside` cut: it names the open block. */
  lemma InsideCut(runes: string, start: nat, maxLen: nat) returns (msgEnd: nat, u: nat)
    requires maxLen >= 1 && start < |runes| && Decide(runes, start, maxLen).Inside?
    ensures msgEnd == NaturalEnd(runes, start, start + EffectiveLimit(maxLen))
    ensures u == OpenFence(runes, start, msgEnd, -1) && start <= u && u + 3 <= msgEnd
    ensures FenceAt(runes, u) && Decide(runes, start, maxLen).header == Header(runes, u)
    ensures Decide(runes, start, maxLen) == CutAtBlock(runes, start, maxLen, msgEnd, u)
    ensures forall k :: msgEnd <= k <= start + maxLen - 3 ==> !FenceAt(runes, k)
  {
    msgEnd := NaturalEnd(runes, start, start + EffectiveLimit(maxLen));
    u := OpenFence(runes, start, msgEnd, -1);
    NextFenceSpec(runes, msgEnd, |runes|);
  }

  /** The line of fence `u` as the splitter sees it: up to its newline, or just the fence on a last line. */
  function LineEnd(s: string, u: nat): (end: nat)
    requires FenceAt(s, u)
    ensures u + 3 <= end <= |s|
    ensures (end < |s| && s[end] == '\n' && end == NewlineFrom(s, u)) || (end == u + 3 && NewlineFrom(s, u) == -1)
  {
    var nl := NewlineFrom(s, u);
    if nl == -1 then u + 3 else nl
  }

  /** A header is a visible line: it starts with its fence and has no white space at either end. */
  lemma HeaderShape(s: string, u: nat)
    requires FenceAt(s, u)
    ensures var h := Header(s, u);
      && |h| >= 3 && u + |h| <= LineEnd(s, u) && HeaderEnd(s, u) == LineEnd(s, u)
      && h == s[u..u + |h|] && h[0] == '`' && !IsSpace(h[|h| - 1])
    ensures forall i :: u + |Header(s, u)| <= i < LineEnd(s, u) ==> IsSpace(s[i])
    ensures forall i :: u <= i < LineEnd(s, u) ==> s[i] != '\n'
  {
    NewlineFromSpec(s, u);
    var line := s[u..LineEnd(s, u)];
    var k := TrimSpaceKeepsStart(line);
    assert line[0] == line[1] == line[2] == '`';
    assert s[u..u + k] == line[..k];
    forall i | u + k <= i < LineEnd(s, u) ensures IsSpace(s[i]) {
      assert s[i] == line[i - u];
    }
  }

  lemma DecideFits(st: State, maxLen: nat)
    requires maxLen >= 1 && st.start < |st.runes|
    ensures Fits(st, Decide(st.runes, st.start, maxLen))
  {
    if Decide(st.runes, st.start, maxLen).Inside? {
      var _, u := InsideCut(st.runes, st.start, maxLen);
      HeaderShape(st.runes, u);
    }
  }

  /** A cut that `Decide` can return for a running state. */
  predicate Fits(st: State, cut: Cut) {
    match cut
    case Final => st.start < |st.runes|
    case Whole(end) => st.start < end <= |st.runes|
    case Inside(end, header) => st.start <= end <= |st.runes| && header != "" && !IsSpace(header[0])
  }

  /** The chunk that a cut emits. */
  function Chunk(st: State, cut: Cut): string
    requires Fits(st, cut)
  {
    match cut
    case Final => st.runes[st.start..]
    case Whole(end) => st.runes[st.start..end]
    case Inside(end, _) => TrimRight(st.runes[st.start..end]) + CLOSING
  }

  /** Emits the chunk and keeps the rest, with the block reopened after an `Inside` cut. */
  function Emit(st: State, cut: Cut): State
    requires Fits(st, cut)
  {
    var messages := st.messages + [Chunk(st, cut)];
    match cut
    case Final => State(st.runes, |st.runes|, messages)
    case Whole(end) => State(st.runes, SkipBlanks(st.runes, end), messages)
    case Inside(end, header) => State(TrimSpace(header + "\n" + st.runes[end..]), 0, messages)
  }

  function Step(st: State, maxLen: nat): State
    requires maxLen >= 1 && st.start < |st.runes|
  {
    DecideFits(st, maxLen);
    Emit(st, Decide(st.runes, st.start, maxLen))
  }

  /** The loop has ended. */
  predicate Done(st: State) { st.start >= |st.runes| }

  function Begin(content: string): State { State(content, 0, []) }

  /** The state after `n` iterations (or fewer, when the loop ends earlier). */
  function After(n: nat, content: string, maxLen: nat): State
    requires maxLen >= 1
  {
    if n == 0 then Begin(content)
    else
      var st := After(n - 1, content, maxLen);
      if Done(st) then st else Step(st, maxLen)
  }
}
