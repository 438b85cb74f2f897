/**
 What a crash can and cannot do to a stored session, and what truncation keeps.
 */
module SessionCrash {
  import opened History
  import opened SessionStore

  /** The truncation offset never points past the log. */
  ghost predicate SkipInLog(cell: Cell) { cell.meta.skip <= |Lines(cell.log)| }

  /** Every line of the log holds a message, as in every log written without torn writes. */
  ghost predicate Intact(cell: Cell) {
    forall k :: 0 <= k < |cell.log| ==> cell.log[k].Record?
  }

  ghost predicate Suffix<T(!new)>(s: seq<T>, t: seq<T>) { |s| <= |t| && t[|t| - |s|..] == s }

  /** The last `k` elements (all of them when there are fewer, none when `k` is not positive). */
  function Last<T>(s: seq<T>, k: int): seq<T> {
    if k <= 0 then [] else if k < |s| then s[|s| - k..] else s
  }

  lemma LastSpec<T(!new)>(s: seq<T>, k: int)
    ensures Suffix(Last(s, k), s) && |Last(s, k)| == if k < 0 then 0 else if k < |s| then k else |s|
  {
  }

  // ----- lines and messages

  lemma {:induction false} MessagesConcat(a: seq<Line>, b: seq<Line>)
    ensures Messages(a + b) == Messages(a) + Messages(b)
    decreases |b|
  {
    if b == [] {
      assert a + b == a;
    } else {
      assert (a + b)[..|a + b| - 1] == a + b[..|b| - 1];
      MessagesConcat(a, b[..|b| - 1]);
    }
  }

  lemma {:induction false} MessagesOfRecords(lines: seq<Line>)
    ensures |Messages(lines)| == |lines| <==> forall k :: 0 <= k < |lines| ==> lines[k].Record?
    ensures Messages(lines) == [] <==> forall k :: 0 <= k < |lines| ==> !lines[k].Record?
    decreases |lines|
  {
    if lines == [] {
    } else {
      MessagesOfRecords(lines[..|lines| - 1]);
    }
  }

  lemma {:induction false} EncodeRoundTrip(history: seq<Message>)
    ensures Lines(Encode(history)) == Encode(history) && Messages(Encode(history)) == history
    decreases |history|
  {
    if history == [] {
    } else {
      var most := history[..|history| - 1];
      EncodeRoundTrip(most);
      assert Encode(history)[..|history| - 1] == Encode(most);
    }
  }

  lemma {:induction false} IntactLines(log: seq<Line>)
    requires forall k :: 0 <= k < |log| ==> log[k].Record?
    ensures Lines(log) == log
    decreases |log|
  {
    if log == [] {
    } else {
      IntactLines(log[..|log| - 1]);
    }
  }

  lemma LinesAppend(log: seq<Line>, message: Message)
    ensures Lines(log + [Record(message)]) == Lines(log) + [Record(message)]
  {
    assert (log + [Record(message)])[..|log|] == log;
  }

  // ----- operations that run to completion

  lemma AddAppends(cell: Cell, message: Message)
    requires SkipInLog(cell)
    ensures SkipInLog(Partial(cell, Add(message), 1)) && SkipInLog(Done(cell, Add(message)))
    ensures Visible(Done(cell, Add(message))) == Visible(cell) + [message]
    ensures Visible(Partial(cell, Add(message), 1)) == Visible(cell) + [message]
  {
    hide Lines, Messages, From, ApplyAll;
    PlanOfTwo(cell, Add(message));
    DoneIsPartial(cell, Add(message));
    hide Partial, Done;
    LinesAppend(cell.log, message);
    FromAppend(Lines(cell.log), Record(message), cell.meta.skip);
    MessagesAppend(From(Lines(cell.log), cell.meta.skip), Record(message));
  }

  lemma DoneIsPartial(cell: Cell, op: Op)
    ensures Done(cell, op) == Partial(cell, op, |Plan(cell, op)|)
  {
    assert Plan(cell, op)[..|Plan(cell, op)|] == Plan(cell, op);
  }

  lemma ReplaceShows(cell: Cell, history: seq<Message>)
    requires cell.log == Encode(history) && cell.meta.skip == 0
    ensures Visible(cell) == history && SkipInLog(cell)
  {
    EncodeRoundTrip(history);
    assert Encode(history)[0..] == Encode(history);
  }

  lemma SetHistoryReplaces(cell: Cell, history: seq<Message>)
    ensures Visible(Done(cell, SetHistory(history))) == history && SkipInLog(Done(cell, SetHistory(history)))
  {
    PlanOfTwo(cell, SetHistory(history));
    DoneIsPartial(cell, SetHistory(history));
    ReplaceShows(Done(cell, SetHistory(history)), history);
  }

  /** The states a compaction goes through. */
  lemma CompactCells(cell: Cell, writes: nat)
    ensures var meta := cell.meta.(skip := 0, count := |Visible(cell)|);
      Partial(cell, Compact, writes) ==
        if cell.meta.skip == 0 || writes == 0 then cell
        else if writes == 1 then Cell(cell.log, meta)
        else Cell(Encode(Visible(cell)), meta)
  {
    hide Visible;
    PlanOfTwo(cell, Compact);
  }

  /** Compaction changes nothing that can be observed. */
  lemma CompactIsInvisible(cell: Cell)
    requires SkipInLog(cell)
    ensures Visible(Done(cell, Compact)) == Visible(cell) && SkipInLog(Done(cell, Compact))
    ensures Done(cell, Compact).meta.summary == cell.meta.summary
  {
    hide Visible, Done, Partial;
    CompactCells(cell, 2);
    DoneIsPartial(cell, Compact);
    CompactCells(cell, |Plan(cell, Compact)|);
    if cell.meta.skip != 0 {
      ReplaceShows(Done(cell, Compact), Visible(cell));
    }
  }

  /** Compaction that has something to compact leaves a log of exactly the visible messages, and nothing to skip. */
  lemma CompactReclaims(cell: Cell)
    requires cell.meta.skip > 0
    ensures var compacted := Done(cell, Compact);
      && compacted.meta.skip == 0 && compacted.meta.count == |compacted.log| == |Visible(cell)|
      && forall k :: 0 <= k < |compacted.log| ==> compacted.log[k] == Record(Visible(cell)[k])
  {
    hide Visible;
    DoneIsPartial(cell, Compact);
    CompactCells(cell, |Plan(cell, Compact)|);
  }

  lemma TruncateCell(cell: Cell, keepLast: int)
    ensures var n := |Lines(cell.log)|;
      Done(cell, Truncate(keepLast))
      == cell.(meta := cell.meta.(count := n, skip := TruncatedSkip(n, cell.meta.skip, keepLast)))
  {
    PlanOfOne(cell, Truncate(keepLast));
    DoneIsPartial(cell, Truncate(keepLast));
  }

  /** Truncation re-counts the log: a count left stale by a crash has no influence on the result. */
  lemma TruncateIgnoresCount(cell: Cell, stale: nat, keepLast: int)
    ensures Done(cell.(meta := cell.meta.(count := stale)), Truncate(keepLast)) == Done(cell, Truncate(keepLast))
  {
    TruncateCell(cell, keepLast);
    TruncateCell(cell.(meta := cell.meta.(count := stale)), keepLast);
  }

  /** The lines that truncation newly hides, and those it leaves visible. */
  function Hidden(cell: Cell, keepLast: int): seq<Line>
    requires 0 < keepLast && cell.meta.skip + keepLast <= |Lines(cell.log)|
  {
    Lines(cell.log)[cell.meta.skip..|Lines(cell.log)| - keepLast]
  }

  function Kept(cell: Cell, keepLast: int): seq<Line>
    requires 0 < keepLast <= |Lines(cell.log)|
  {
    Lines(cell.log)[|Lines(cell.log)| - keepLast..]
  }

  /** The exact condition under which truncation leaves the last `keepLast` visible messages. */
  ghost predicate TruncatesToLast(cell: Cell, keepLast: int)
    requires SkipInLog(cell)
  {
    || keepLast <= 0
    || keepLast >= |Lines(cell.log)| - cell.meta.skip
    || (forall k :: 0 <= k < keepLast ==> Kept(cell, keepLast)[k].Record?)
    || (forall k :: 0 <= k < |Hidden(cell, keepLast)| ==> !Hidden(cell, keepLast)[k].Record?)
  }

  /**
   Truncation counts lines, not messages: it leaves exactly the last `keepLast` visible messages if and only if
   no corrupt line is among the lines it keeps, or none of the lines it hides held a message.
   */
  lemma TruncateExactly(cell: Cell, keepLast: int)
    requires SkipInLog(cell)
    ensures Visible(Done(cell, Truncate(keepLast))) == Last(Visible(cell), keepLast) <==> TruncatesToLast(cell, keepLast)
    ensures SkipInLog(Done(cell, Truncate(keepLast)))
  {
    hide Lines, Messages, Last, Done;
    TruncateCell(cell, keepLast);
    var lines := Lines(cell.log);
    if keepLast <= 0 {
      NothingVisible(Visible(cell), keepLast);
      assert lines[|lines|..] == [];
    } else if keepLast >= |lines| - cell.meta.skip {
      NothingCut(Visible(cell), keepLast);
    } else {
      var hidden, kept := Hidden(cell, keepLast), Kept(cell, keepLast);
      assert lines[cell.meta.skip..] == hidden + kept;
      CutExactly(hidden, kept);
    }
  }

  lemma NothingVisible(visible: seq<Message>, keepLast: int)
    requires keepLast <= 0
    ensures Last(visible, keepLast) == [] == Messages([])
  {
  }

  lemma NothingCut(visible: seq<Message>, keepLast: int)
    requires |visible| <= keepLast
    ensures Last(visible, keepLast) == visible
  {
  }

  lemma CutExactly(hidden: seq<Line>, kept: seq<Line>)
    requires kept != []
    ensures Messages(kept) == Last(Messages(hidden + kept), |kept|) <==>
      (forall k :: 0 <= k < |kept| ==> kept[k].Record?) || (forall k :: 0 <= k < |hidden| ==> !hidden[k].Record?)
  {
    hide Messages;
    MessagesConcat(hidden, kept);
    MessagesOfRecords(hidden);
    MessagesOfRecords(kept);
    LastOfConcat(Messages(hidden), Messages(kept), |kept|);
  }

  lemma LastOfConcat<T>(a: seq<T>, b: seq<T>, k: nat)
    requires |b| <= k && 0 < k
    ensures Last(a + b, k) == b <==> |b| == k || a == []
  {
    if |b| < k && a != [] {
      assert |Last(a + b, k)| > |b|;
    } else if a == [] {
      assert a + b == b;
    }
  }

  /** On intact logs truncation does what its name says. */
  lemma TruncateIntact(cell: Cell, keepLast: int)
    requires SkipInLog(cell) && Intact(cell)
    ensures Visible(Done(cell, Truncate(keepLast))) == Last(Visible(cell), keepLast)
    ensures Suffix(Visible(Done(cell, Truncate(keepLast))), Visible(cell))
    ensures |Visible(Done(cell, Truncate(keepLast)))| ==
      if keepLast < 0 then 0 else if keepLast < |Visible(cell)| then keepLast else |Visible(cell)|
  {
    LastSpec(Visible(cell), keepLast);
    hide Lines, Messages, Last, Done, Visible;
    IntactLines(cell.log);
    TruncateExactly(cell, keepLast);
  }

  // ----- the stored count

  /** The stored count is the number of lines, as long as no operation is interrupted. */
  lemma CountIsKept(cell: Cell, op: Op)
    requires cell.meta.count == |Lines(cell.log)|
    ensures Done(cell, op).meta.count == |Lines(Done(cell, op).log)|
  {
    hide Visible, Lines;
    DoneIsPartial(cell, op);
    match op
    case Add(message) =>
      PlanOfTwo(cell, op);
      LinesAppend(cell.log, message);
    case SetSummary(_) => PlanOfOne(cell, op);
    case Truncate(keepLast) => TruncateCell(cell, keepLast);
    case SetHistory(history) =>
      PlanOfTwo(cell, op);
      EncodeRoundTrip(history);
    case Compact =>
      CompactCells(cell, |Plan(cell, op)|);
      EncodeRoundTrip(Visible(cell));
  }

  // ----- crashes

  /**
   Whatever write an operation dies after, the history that can be read is the new one or one that ends in the
   old one, and the offset stays within the log.
   */
  lemma CrashKeepsHistory(cell: Cell, op: Op, writes: nat)
    requires SkipInLog(cell)
    ensures var crashed := Partial(cell, op, writes);
      && SkipInLog(crashed)
      && (Visible(crashed) == Visible(Done(cell, op)) || Suffix(Visible(cell), Visible(crashed)))
  {
    hide Lines, Messages, Partial, Done;
    SuffixItself(Visible(cell));
    PartialIsOneOf(cell, op, writes);
    match op
    case Add(message) => AddAppends(cell, message);
    case SetSummary(summary) => SummaryCell(cell, summary);
    case Truncate(keepLast) => TruncateExactly(cell, keepLast);
    case SetHistory(history) =>
      SetHistoryReplaces(cell, history);
      UnskippedEndsInVisible(cell, |history|);
    case Compact =>
      CompactIsInvisible(cell);
      UnskippedEndsInVisible(cell, |Visible(cell)|);
  }

  lemma SuffixItself<T(!new)>(s: seq<T>)
    ensures Suffix(s, s)
  {
  }

  lemma SummaryCell(cell: Cell, summary: string)
    ensures Done(cell, SetSummary(summary)) == cell.(meta := cell.meta.(summary := summary))
  {
    PlanOfOne(cell, SetSummary(summary));
    DoneIsPartial(cell, SetSummary(summary));
  }

  /** A crash leaves the cell before the operation, after it, or after the first of its two writes. */
  lemma PartialIsOneOf(cell: Cell, op: Op, writes: nat)
    ensures var plan, crashed := Plan(cell, op), Partial(cell, op, writes);
      crashed == cell || crashed == Done(cell, op)
      || (|plan| == 2 && writes == 1 && crashed == Apply(cell, plan[0]) && crashed == Partial(cell, op, 1))
  {
    hide Lines, Visible;
    if |Plan(cell, op)| == 1 {
      PlanOfOne(cell, op);
    } else {
      PlanOfTwo(cell, op);
    }
    DoneIsPartial(cell, op);
  }

  /** Crashes leave no corrupt line. */
  lemma PartialIsIntact(cell: Cell, op: Op, writes: nat)
    requires Intact(cell)
    ensures Intact(Partial(cell, op, writes))
  {
    hide Visible, ApplyAll;
    if |Plan(cell, op)| == 1 {
      PlanOfOne(cell, op);
    } else {
      PlanOfTwo(cell, op);
    }
  }

  /** Forgetting the offset before the log is rewritten shows old messages again, but loses none. */
  lemma UnskippedEndsInVisible(cell: Cell, count: nat)
    requires SkipInLog(cell)
    ensures var shown := cell.(meta := cell.meta.(skip := 0, count := count));
      SkipInLog(shown) && Suffix(Visible(cell), Visible(shown))
  {
    var lines := Lines(cell.log);
    var skip := cell.meta.skip;
    assert lines[0..] == lines[..skip] + lines[skip..];
    MessagesConcat(lines[..skip], lines[skip..]);
  }

  // ----- what repairs a crashed compaction

  /** The next compaction does not: it sees a zero offset and returns. */
  lemma CompactDoesNotRepair(cell: Cell)
    requires cell.meta.skip > 0
    ensures Done(Partial(cell, Compact, 1), Compact) == Partial(cell, Compact, 1)
  {
    hide Visible;
    CompactCells(cell, 1);
    DoneIsPartial(Partial(cell, Compact, 1), Compact);
    CompactCells(Partial(cell, Compact, 1), |Plan(Partial(cell, Compact, 1), Compact)|);
  }

  /** Between the two writes, a compaction that has something to compact shows truncated messages again. */
  lemma CrashedCompactShowsMore(cell: Cell)
    requires SkipInLog(cell) && Intact(cell) && cell.meta.skip > 0
    ensures |Visible(Partial(cell, Compact, 1))| > |Visible(cell)|
  {
    hide Visible, Partial, Lines;
    CompactCells(cell, 1);
    IntactLines(cell.log);
    IntactVisible(cell);
    IntactVisible(Partial(cell, Compact, 1));
  }

  /** On an intact log every line past the offset is visible. */
  lemma IntactVisible(cell: Cell)
    requires Intact(cell) && cell.meta.skip <= |cell.log|
    ensures |Visible(cell)| == |cell.log| - cell.meta.skip && Lines(cell.log) == cell.log
  {
    hide Lines, Messages;
    IntactLines(cell.log);
    MessagesOfRecords(cell.log[cell.meta.skip..]);
  }

  /**
   A truncation makes a crash of the compaction before it unobservable if and only if the crash fell outside the
   two writes, or the truncation keeps no more than was visible before.
   */
  lemma TruncateRepairsExactly(cell: Cell, writes: nat, keepLast: int)
    requires SkipInLog(cell) && Intact(cell)
    ensures Visible(Done(Partial(cell, Compact, writes), Truncate(keepLast))) == Visible(Done(cell, Truncate(keepLast)))
      <==> cell.meta.skip == 0 || writes != 1 || keepLast <= |Visible(cell)|
  {
    hide Visible, Done, Partial, Last, Lines;
    var crashed := Partial(cell, Compact, writes);
    PartialIsIntact(cell, Compact, writes);
    CrashKeepsHistory(cell, Compact, writes);
    CompactIsInvisible(cell);
    TruncateIntact(cell, keepLast);
    TruncateIntact(crashed, keepLast);
    CompactCells(cell, writes);
    if cell.meta.skip == 0 || writes != 1 {
      CompactDone(cell, writes);
    } else {
      CrashedCompactShowsMore(cell);
      UnskippedEndsInVisible(cell, |Visible(cell)|);
      LastTellsApart(Visible(cell), Visible(crashed), keepLast);
    }
  }

  lemma CompactDone(cell: Cell, writes: nat)
    requires SkipInLog(cell) && (cell.meta.skip == 0 || writes != 1)
    ensures Visible(Partial(cell, Compact, writes)) == Visible(cell)
  {
    hide Visible, Done, Partial;
    CompactCells(cell, writes);
    CompactIsInvisible(cell);
    DoneIsPartial(cell, Compact);
    CompactCells(cell, |Plan(cell, Compact)|);
  }

  /** The last `k` elements of a proper suffix and of the whole agree exactly when the suffix has that many. */
  lemma LastTellsApart<T(!new)>(s: seq<T>, t: seq<T>, k: int)
    requires Suffix(s, t) && |s| < |t|
    ensures Last(t, k) == Last(s, k) <==> k <= |s|
  {
    if k <= |s| {
      LastOfSuffix(s, t, k);
    } else {
      assert |Last(t, k)| > |Last(s, k)|;
    }
  }

  lemma LastOfSuffix<T(!new)>(s: seq<T>, t: seq<T>, k: int)
    requires Suffix(s, t) && k <= |s|
    ensures Last(t, k) == Last(s, k)
  {
    if 0 < k {
      assert t[|t| - k..] == t[|t| - |s|..][|s| - k..];
      assert s[0..] == s;
    }
  }
}
