/**
 Whole runs of a session on disk, with crashes: each operation may die, or a write may fail, after any number of its writes.
 */
module SessionRuns {
  import opened History
  import opened SessionStore
  import opened SessionCrash

  /** An operation of which `writes` writes reached the disk. */
  datatype Attempt = Attempt(op: Op, writes: nat)

  function CellAfter(run: seq<Attempt>): Cell {
    if run == [] then ABSENT
    else
      var last := run[|run| - 1];
      Partial(CellAfter(run[..|run| - 1]), last.op, last.writes)
  }

  /** What must be kept after an attempt: an addition counts once its line is written, a replacement once it is complete. */
  function KeptAfter(kept: seq<Message>, op: Op, writes: nat): seq<Message> {
    if writes == 0 then kept
    else match op
      case Add(message) => kept + [message]
      case Truncate(keepLast) => Last(kept, keepLast)
      case SetHistory(history) => if writes == 1 then kept else history
      case _ => kept
  }

  function Kept(run: seq<Attempt>): seq<Message> {
    if run == [] then [] else KeptAfter(Kept(run[..|run| - 1]), run[|run| - 1].op, run[|run| - 1].writes)
  }

  /** At every point of every run the offset lies within the log and no line is corrupt. */
  lemma {:induction false} RunsStaySound(run: seq<Attempt>)
    ensures SkipInLog(CellAfter(run)) && Intact(CellAfter(run))
    decreases |run|
  {
    if run == [] {
    } else {
      var before, last := CellAfter(run[..|run| - 1]), run[|run| - 1];
      RunsStaySound(run[..|run| - 1]);
      PartialIsIntact(before, last.op, last.writes);
      CrashKeepsHistory(before, last.op, last.writes);
    }
  }

  /** So at every point of every run a completed truncation leaves exactly the last visible messages. */
  lemma TruncationIsExactInRuns(run: seq<Attempt>, keepLast: int)
    ensures Visible(Done(CellAfter(run), Truncate(keepLast))) == Last(Visible(CellAfter(run)), keepLast)
  {
    RunsStaySound(run);
    TruncateIntact(CellAfter(run), keepLast);
  }

  /** What an attempt shows, against what was shown before. */
  lemma AttemptShows(cell: Cell, op: Op, writes: nat)
    requires SkipInLog(cell) && Intact(cell)
    ensures writes == 0 ==> Partial(cell, op, writes) == cell
    ensures op.Add? && writes > 0 ==> Visible(Partial(cell, op, writes)) == Visible(cell) + [op.message]
    ensures op.Truncate? && writes > 0 ==> Visible(Partial(cell, op, writes)) == Last(Visible(cell), op.keepLast)
    ensures op.SetHistory? && writes > 1 ==> Visible(Partial(cell, op, writes)) == op.history
    ensures op.SetSummary? || op.Compact? || (op.SetHistory? && writes == 1) ==>
      Suffix(Visible(cell), Visible(Partial(cell, op, writes)))
  {
    hide Visible, Last, ApplyAll, Lines, Suffix;
    SuffixItself(Visible(cell));
    AttemptCells(cell, op, writes);
    hide Partial, Done;
    match op
    case Add(message) => AddAppends(cell, message);
    case Truncate(keepLast) => TruncateIntact(cell, keepLast);
    case SetHistory(history) =>
      SetHistoryReplaces(cell, history);
      UnskippedEndsInVisible(cell, |history|);
    case SetSummary(summary) => SummaryShows(cell, summary);
    case Compact =>
      CompactIsInvisible(cell);
      UnskippedEndsInVisible(cell, |Visible(cell)|);
  }

  lemma SummaryShows(cell: Cell, summary: string)
    ensures Visible(Done(cell, SetSummary(summary))) == Visible(cell)
  {
    SummaryCell(cell, summary);
  }

  lemma AttemptCells(cell: Cell, op: Op, writes: nat)
    ensures writes == 0 ==> Partial(cell, op, writes) == cell
    ensures writes > 0 && (op.Truncate? || op.SetSummary? || writes > 1) ==> Partial(cell, op, writes) == Done(cell, op)
    ensures op.Add? && writes == 1 ==> Partial(cell, op, writes) == Partial(cell, op, 1)
    ensures op.SetHistory? && writes == 1 ==>
      Partial(cell, op, 1) == cell.(meta := cell.meta.(skip := 0, count := |op.history|))
    ensures op.Compact? && writes == 1 ==>
      Partial(cell, op, 1) == cell || Partial(cell, op, 1) == cell.(meta := cell.meta.(skip := 0, count := |Visible(cell)|))
  {
    hide Visible, Lines;
    if |Plan(cell, op)| == 1 {
      PlanOfOne(cell, op);
    } else {
      PlanOfTwo(cell, op);
    }
    DoneIsPartial(cell, op);
  }

  lemma AttemptLosesNothing(kept: seq<Message>, cell: Cell, op: Op, writes: nat)
    requires SkipInLog(cell) && Intact(cell) && Suffix(kept, Visible(cell))
    ensures Suffix(KeptAfter(kept, op, writes), Visible(Partial(cell, op, writes)))
  {
    hide Visible, Partial, Last, Suffix, SkipInLog, Intact;
    var now := Visible(Partial(cell, op, writes));
    AttemptShows(cell, op, writes);
    SuffixExtends(kept, Visible(cell), now);
    SuffixItself(now);
    if op.Add? {
      SuffixPushes(kept, Visible(cell), op.message);
    } else if op.Truncate? {
      SuffixCuts(kept, Visible(cell), op.keepLast);
    }
  }

  /** Whatever crashes, no kept message is ever lost: the readable history always ends in what must be kept. */
  lemma {:induction false} NothingKeptIsLost(run: seq<Attempt>)
    ensures Suffix(Kept(run), Visible(CellAfter(run)))
    decreases |run|
  {
    hide Visible, Partial, KeptAfter, Suffix;
    if run == [] {
      NothingVisibleAtFirst();
      var none: seq<Message> := [];
      SuffixItself(none);
    } else {
      var most, last := run[..|run| - 1], run[|run| - 1];
      NothingKeptIsLost(most);
      RunsStaySound(most);
      AttemptLosesNothing(Kept(most), CellAfter(most), last.op, last.writes);
    }
  }

  lemma NothingVisibleAtFirst()
    ensures Visible(ABSENT) == []
  {
  }

  lemma SuffixExtends<T(!new)>(a: seq<T>, b: seq<T>, c: seq<T>)
    requires Suffix(a, b)
    ensures Suffix(b, c) ==> Suffix(a, c)
  {
    if Suffix(b, c) {
      assert c[|c| - |a|..] == c[|c| - |b|..][|b| - |a|..];
    }
  }

  lemma SuffixPushes<T(!new)>(a: seq<T>, b: seq<T>, x: T)
    requires Suffix(a, b)
    ensures Suffix(a + [x], b + [x])
  {
    assert (b + [x])[|b| - |a|..] == b[|b| - |a|..] + [x];
  }

  lemma SuffixCuts<T(!new)>(a: seq<T>, b: seq<T>, k: int)
    requires Suffix(a, b)
    ensures Suffix(Last(a, k), Last(b, k))
  {
    if k <= |a| {
      LastOfSuffix(a, b, k);
    } else if k < |b| {
      assert Last(b, k)[k - |a|..] == b[|b| - |a|..];
    }
  }

  lemma CompletedAttemptIsExact(cell: Cell, op: Op, writes: nat)
    requires SkipInLog(cell) && Intact(cell) && writes >= 2
    ensures Visible(Partial(cell, op, writes)) == KeptAfter(Visible(cell), op, writes)
  {
    hide Visible, Partial, Last, Suffix, SkipInLog, Intact;
    AttemptShows(cell, op, writes);
    AttemptCells(cell, op, writes);
    if op.SetSummary? {
      SummaryShows(cell, op.summary);
    } else if op.Compact? {
      CompactIsInvisible(cell);
    }
  }

  /** Without crashes the readable history is exactly that. */
  lemma {:induction false} UncrashedRunsAreExact(run: seq<Attempt>)
    requires forall i :: 0 <= i < |run| ==> run[i].writes >= 2
    ensures Visible(CellAfter(run)) == Kept(run)
    decreases |run|
  {
    hide Visible, Partial, KeptAfter;
    if run == [] {
      NothingVisibleAtFirst();
    } else {
      var most, last := run[..|run| - 1], run[|run| - 1];
      UncrashedRunsAreExact(most);
      RunsStaySound(most);
      CompletedAttemptIsExact(CellAfter(most), last.op, last.writes);
    }
  }
}
