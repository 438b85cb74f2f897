/**
 What the tracker promises over whole logs of calls, failures and successes:
 the counters count what they should, deadlines only move later, and back-offs are waited out.
 */
module CooldownRuns {
  import opened Basics
  import opened Cooldown

  datatype Event =
    | Call(provider: string, at: int)
    | Fail(provider: string, reason: Reason, at: int)
    | Succeed(provider: string, at: int)

  /** The tracker's entry for a provider after a log, starting from an empty tracker. */
  function EntryAfter(log: seq<Event>, provider: string): Entry {
    if log == [] then NEW_ENTRY
    else
      var entry := EntryAfter(log[..|log| - 1], provider);
      var event := log[|log| - 1];
      if event.provider != provider then entry
      else match event
        case Call(_, _) => entry
        case Fail(_, reason, at) => Failed(entry, reason, at)
        case Succeed(_, _) => Succeeded(entry)
  }

  ghost predicate Timed(log: seq<Event>) {
    forall i, j :: 0 <= i < j < |log| ==> log[i].at <= log[j].at
  }

  /** Only available providers are called. */
  ghost predicate CallsAvailable(log: seq<Event>) {
    forall i :: 0 <= i < |log| && log[i].Call? ==> Available(EntryAfter(log[..i], log[i].provider), log[i].at)
  }

  // ----- the failures that count

  predicate FailsAt(log: seq<Event>, provider: string, i: int) {
    0 <= i < |log| && log[i].Fail? && log[i].provider == provider
  }

  predicate SucceedsAt(log: seq<Event>, provider: string, i: int) {
    0 <= i < |log| && log[i].Succeed? && log[i].provider == provider
  }

  predicate Within(log: seq<Event>, j: int, k: int) {
    0 <= j < k < |log| && log[k].at - log[j].at <= 86_400_000
  }

  /** The failure at `k` came no later than a window after an earlier one, `i` or later. */
  ghost predicate Joined(log: seq<Event>, provider: string, i: int, k: int) {
    exists j :: i <= j < k && FailsAt(log, provider, j) && Within(log, j, k)
  }

  /** The failure at `i` still counts: no success has come after it, and every later failure is joined to it. */
  ghost predicate InStreak(log: seq<Event>, provider: string, i: int) {
    && FailsAt(log, provider, i)
    && (forall k :: i < k < |log| ==> !SucceedsAt(log, provider, k))
    && (forall k :: i < k < |log| && FailsAt(log, provider, k) ==> Joined(log, provider, i, k))
  }

  ghost function Streak(log: seq<Event>, provider: string, reasons: set<Reason>): set<int> {
    set i | 0 <= i < |log| && InStreak(log, provider, i) && log[i].reason in reasons
  }

  const ALL_REASONS := {Auth, RateLimit, Billing, Timeout, Format, Overloaded, Unknown}

  ghost predicate NoneAfter(log: seq<Event>, provider: string, i: int) {
    forall k :: i < k < |log| ==> !FailsAt(log, provider, k)
  }

  /** The provider's last failure is the one at `i`. */
  ghost predicate LastAt(log: seq<Event>, provider: string, i: int, at: int) {
    FailsAt(log, provider, i) && log[i].at == at && NoneAfter(log, provider, i)
  }

  ghost predicate IsLastFailure(log: seq<Event>, provider: string, lastFailure: Option<int>) {
    if lastFailure.None? then NoneAfter(log, provider, -1) else exists i :: LastAt(log, provider, i, lastFailure.value)
  }

  lemma {:induction false} LastFailureKept(log: seq<Event>, provider: string)
    ensures IsLastFailure(log, provider, EntryAfter(log, provider).lastFailure)
    decreases |log|
  {
    hide IsLastFailure, EntryAfter;
    if log == [] {
      NoFailureYet(provider);
    } else {
      LastFailureKept(log[..|log| - 1], provider);
      LastFailureChanges(log, provider);
      LastFailureMoves(log, provider, EntryAfter(log[..|log| - 1], provider).lastFailure);
    }
  }

  lemma NoFailureYet(provider: string)
    ensures IsLastFailure([], provider, EntryAfter([], provider).lastFailure)
  {
  }

  lemma LastFailureChanges(log: seq<Event>, provider: string)
    requires log != []
    ensures EntryAfter(log, provider).lastFailure ==
      if FailsAt(log, provider, |log| - 1) then Some(log[|log| - 1].at)
      else EntryAfter(log[..|log| - 1], provider).lastFailure
  {
    hide StandardCooldown, BillingCooldown, WindowPassed;
  }

  lemma LastFailureMoves(log: seq<Event>, provider: string, was: Option<int>)
    requires log != [] && IsLastFailure(log[..|log| - 1], provider, was)
    ensures IsLastFailure(log, provider, if FailsAt(log, provider, |log| - 1) then Some(log[|log| - 1].at) else was)
  {
    var n := |log| - 1;
    assert forall k :: k < n ==> (FailsAt(log[..n], provider, k) <==> FailsAt(log, provider, k));
    if FailsAt(log, provider, n) {
      assert LastAt(log, provider, n, log[n].at);
    } else if was.Some? {
      var i :| LastAt(log[..n], provider, i, was.value);
      assert LastAt(log, provider, i, was.value);
    }
  }

  lemma SamePrefix(log: seq<Event>, provider: string)
    requires log != []
    ensures var n := |log| - 1;
      && (forall k :: k < n ==> (FailsAt(log[..n], provider, k) <==> FailsAt(log, provider, k)))
      && (forall k :: k < n ==> (SucceedsAt(log[..n], provider, k) <==> SucceedsAt(log, provider, k)))
    ensures var n := |log| - 1;
      forall i, k :: k < n ==> (Joined(log[..n], provider, i, k) <==> Joined(log, provider, i, k))
  {
    var n := |log| - 1;
    forall i, k | k < n ensures Joined(log[..n], provider, i, k) <==> Joined(log, provider, i, k) {
      assert forall j :: FailsAt(log[..n], provider, j) && Within(log[..n], j, k) <==> j < n && FailsAt(log, provider, j) && Within(log, j, k);
    }
  }

  /** The last failure is joined to any earlier one exactly when the tracker sees no window passed. */
  lemma JoinedLast(log: seq<Event>, provider: string, i: int)
    requires Timed(log) && FailsAt(log, provider, |log| - 1) && FailsAt(log, provider, i) && i < |log| - 1
    ensures Joined(log, provider, i, |log| - 1) <==>
      !WindowPassed(EntryAfter(log[..|log| - 1], provider), log[|log| - 1].at)
  {
    var n := |log| - 1;
    var most := log[..n];
    LastFailureKept(most, provider);
    assert FailsAt(most, provider, i);
    var was := EntryAfter(most, provider).lastFailure.value;
    var last :| LastAt(most, provider, last, was);
    assert FailsAt(log, provider, last);
    forall j | i <= j < n && FailsAt(log, provider, j) ensures log[j].at <= was {
      assert FailsAt(most, provider, j);
    }
    if log[n].at - was <= FAILURE_WINDOW {
      assert Within(log, last, n);
    }
  }

  /** A failure outside the window starts a new streak; one inside it joins the old one. */
  lemma StreakAfterFailure(log: seq<Event>, provider: string, i: int)
    requires Timed(log) && FailsAt(log, provider, |log| - 1) && i < |log| - 1
    ensures InStreak(log, provider, i) <==>
      InStreak(log[..|log| - 1], provider, i) && !WindowPassed(EntryAfter(log[..|log| - 1], provider), log[|log| - 1].at)
  {
    hide Timed, Joined, WindowPassed, EntryAfter;
    SamePrefix(log, provider);
    if FailsAt(log, provider, i) {
      JoinedLast(log, provider, i);
    }
  }

  /** Any other event ends the streak if it is a success of the provider and leaves it alone otherwise. */
  lemma StreakAfterOther(log: seq<Event>, provider: string, i: int)
    requires log != [] && !FailsAt(log, provider, |log| - 1) && i < |log| - 1
    ensures InStreak(log, provider, i) <==>
      InStreak(log[..|log| - 1], provider, i) && !SucceedsAt(log, provider, |log| - 1)
  {
    hide Joined;
    SamePrefix(log, provider);
  }

  /** The streak after one more event. */
  lemma StreakGrows(log: seq<Event>, provider: string, reasons: set<Reason>)
    requires Timed(log) && log != []
    ensures var n := |log| - 1; var before := Streak(log[..n], provider, reasons);
      Streak(log, provider, reasons) ==
        if FailsAt(log, provider, n) then
          (if WindowPassed(EntryAfter(log[..n], provider), log[n].at) then {} else before)
          + if log[n].reason in reasons then {n} else {}
        else if SucceedsAt(log, provider, n) then {}
        else before
  {
    hide Timed, WindowPassed, EntryAfter, InStreak, Joined;
    var n := |log| - 1;
    assert forall i :: 0 <= i < n ==> log[..n][i] == log[i];
    forall i | 0 <= i < n
      ensures InStreak(log, provider, i) <==>
        InStreak(log[..n], provider, i) && !SucceedsAt(log, provider, n)
        && (FailsAt(log, provider, n) ==> !WindowPassed(EntryAfter(log[..n], provider), log[n].at))
    {
      if FailsAt(log, provider, n) {
        StreakAfterFailure(log, provider, i);
      } else {
        StreakAfterOther(log, provider, i);
      }
    }
    LastInStreak(log, provider);
  }

  lemma LastInStreak(log: seq<Event>, provider: string)
    requires log != []
    ensures InStreak(log, provider, |log| - 1) <==> FailsAt(log, provider, |log| - 1)
    ensures forall i :: InStreak(log, provider, i) ==> FailsAt(log, provider, i)
  {
  }

  /** How the size of the streak changes with one more event. */
  lemma StreakCounts(log: seq<Event>, provider: string, reasons: set<Reason>)
    requires Timed(log) && log != []
    ensures var n := |log| - 1; var before := |Streak(log[..n], provider, reasons)|;
      |Streak(log, provider, reasons)| ==
        if FailsAt(log, provider, n) then
          (if WindowPassed(EntryAfter(log[..n], provider), log[n].at) then 0 else before)
          + if log[n].reason in reasons then 1 else 0
        else if SucceedsAt(log, provider, n) then 0
        else before
  {
    hide Timed, WindowPassed, EntryAfter, InStreak;
    StreakGrows(log, provider, reasons);
  }

  /** How the counters change with one more event. */
  lemma CountersChange(log: seq<Event>, provider: string, reason: Reason)
    requires log != []
    ensures var n := |log| - 1; var before, after := EntryAfter(log[..n], provider), EntryAfter(log, provider);
      if FailsAt(log, provider, n) then
        var reset := WindowPassed(before, log[n].at);
        && after.errorCount == (if reset then 0 else before.errorCount) + 1
        && Count(after, reason) == (if reset then 0 else Count(before, reason)) + if log[n].reason == reason then 1 else 0
      else if SucceedsAt(log, provider, n) then after.errorCount == 0 == Count(after, reason)
      else after == before
  {
    hide StandardCooldown, BillingCooldown, WindowPassed;
  }

  /** The tracker's counters are the sizes of the streak, in all and by reason. */
  lemma {:induction false} CountersCountTheStreak(log: seq<Event>, provider: string, reason: Reason)
    requires Timed(log)
    ensures EntryAfter(log, provider).errorCount == |Streak(log, provider, ALL_REASONS)|
    ensures Count(EntryAfter(log, provider), reason) == |Streak(log, provider, {reason})|
    decreases |log|
  {
    hide InStreak, WindowPassed, Failed, Succeeded;
    if log == [] {
    } else {
      hide EntryAfter, Streak, Count;
      CountersCountTheStreak(log[..|log| - 1], provider, reason);
      StreakCounts(log, provider, ALL_REASONS);
      StreakCounts(log, provider, {reason});
      CountersChange(log, provider, reason);
    }
  }

  function Total(entry: Entry): nat {
    Count(entry, Auth) + Count(entry, RateLimit) + Count(entry, Billing) + Count(entry, Timeout)
    + Count(entry, Format) + Count(entry, Overloaded) + Count(entry, Unknown)
  }

  /** The error count is always the sum of the counts by reason. */
  lemma {:induction false} CountsAddUp(log: seq<Event>, provider: string)
    ensures EntryAfter(log, provider).errorCount == Total(EntryAfter(log, provider))
    decreases |log|
  {
    hide EntryAfter, WindowPassed;
    if log != [] {
      CountsAddUp(log[..|log| - 1], provider);
      hide Count;
      forall reason {
        CountersChange(log, provider, reason);
      }
    } else {
      assert EntryAfter([], provider) == NEW_ENTRY by { StartsNew(provider); }
    }
  }

  lemma StartsNew(provider: string)
    ensures EntryAfter([], provider) == NEW_ENTRY
  {
  }

  // ----- deadlines

  predicate NoLater(a: Option<int>, b: Option<int>) { a.None? || (b.Some? && a.value <= b.value) }

  /** Deadlines are no further from the last failure than the current back-offs. */
  ghost predicate Bounded(entry: Entry) {
    && (entry.cooldownEnd.Some? ==>
          entry.lastFailure.Some?
          && entry.cooldownEnd.value <= entry.lastFailure.value + StandardCooldown(entry.errorCount))
    && (entry.disabledUntil.Some? ==>
          entry.lastFailure.Some?
          && entry.disabledUntil.value <= entry.lastFailure.value + BillingCooldown(Count(entry, Billing)))
  }

  /** A failure moves neither deadline earlier, not even when the window resets the counters. */
  lemma FailureExtends(entry: Entry, reason: Reason, now: int)
    requires Bounded(entry) && (entry.lastFailure.Some? ==> entry.lastFailure.value <= now)
    ensures Bounded(Failed(entry, reason, now))
    ensures NoLater(entry.cooldownEnd, Failed(entry, reason, now).cooldownEnd)
    ensures NoLater(entry.disabledUntil, Failed(entry, reason, now).disabledUntil)
  {
    StandardCooldowns(entry.errorCount);
    StandardCooldowns(1);
    StandardCooldowns(entry.errorCount + 1);
    BillingCooldowns(Count(entry, Billing));
    BillingCooldowns(0);
    BillingCooldowns(1);
    BillingCooldowns(Count(entry, Billing) + 1);
    hide StandardCooldown, BillingCooldown;
  }

  lemma {:induction false} DeadlinesBounded(log: seq<Event>, provider: string)
    requires Timed(log)
    ensures Bounded(EntryAfter(log, provider))
    decreases |log|
  {
    if log != [] {
      hide Bounded, Failed;
      var n := |log| - 1;
      DeadlinesBounded(log[..n], provider);
      if FailsAt(log, provider, n) {
        LastFailureEarlier(log, provider);
        FailureExtends(EntryAfter(log[..n], provider), log[n].reason, log[n].at);
      } else if SucceedsAt(log, provider, n) {
        assert Bounded(Succeeded(EntryAfter(log[..n], provider))) by { SuccessIsBounded(EntryAfter(log[..n], provider)); }
      }
    } else {
      assert Bounded(NEW_ENTRY);
    }
  }

  lemma SuccessIsBounded(entry: Entry)
    ensures Bounded(Succeeded(entry))
  {
  }

  lemma LastFailureEarlier(log: seq<Event>, provider: string)
    requires Timed(log) && log != []
    ensures var last := EntryAfter(log[..|log| - 1], provider).lastFailure; last.Some? ==> last.value <= log[|log| - 1].at
  {
    hide EntryAfter;
    LastFailureKept(log[..|log| - 1], provider);
  }

  /** Between successes, neither deadline of a provider ever moves earlier. */
  lemma {:induction false} DeadlinesNeverMoveEarlier(log: seq<Event>, provider: string, i: nat, j: nat)
    requires Timed(log) && i <= j <= |log|
    requires forall k :: i <= k < j ==> !SucceedsAt(log, provider, k)
    ensures NoLater(EntryAfter(log[..i], provider).cooldownEnd, EntryAfter(log[..j], provider).cooldownEnd)
    ensures NoLater(EntryAfter(log[..i], provider).disabledUntil, EntryAfter(log[..j], provider).disabledUntil)
    decreases j
  {
    if i == j {
    } else {
      DeadlinesNeverMoveEarlier(log, provider, i, j - 1);
      var upto := log[..j];
      assert upto[..j - 1] == log[..j - 1] && !SucceedsAt(log, provider, j - 1);
      DeadlinesBounded(log[..j - 1], provider);
      hide Bounded, Failed;
      if FailsAt(upto, provider, j - 1) {
        LastFailureEarlier(upto, provider);
        FailureExtends(EntryAfter(log[..j - 1], provider), log[j - 1].reason, log[j - 1].at);
      }
    }
  }

  // ----- back-offs are waited out

  /** The back-off owed after the failure at `i`, by the number of failures that count at that moment. */
  ghost function BackOff(log: seq<Event>, i: nat): int
    requires i < |log| && log[i].Fail?
  {
    if log[i].reason == Billing then BillingCooldown(|Streak(log[..i + 1], log[i].provider, {Billing})|)
    else StandardCooldown(|Streak(log[..i + 1], log[i].provider, ALL_REASONS)|)
  }

  lemma DeadlineSet(log: seq<Event>, i: nat)
    requires Timed(log) && i < |log| && log[i].Fail?
    ensures var entry := EntryAfter(log[..i + 1], log[i].provider);
      (if log[i].reason == Billing then entry.disabledUntil else entry.cooldownEnd) == Some(log[i].at + BackOff(log, i))
  {
    hide Streak, StandardCooldown, BillingCooldown, WindowPassed;
    CountersCountTheStreak(log[..i + 1], log[i].provider, Billing);
  }

  /** After a provider's failure, unless it succeeds in between, its next call starts at least the back-off later. */
  lemma BackOffIsWaitedOut(log: seq<Event>, i: nat, j: nat)
    requires Timed(log) && CallsAvailable(log) && i < j < |log|
    requires log[i].Fail? && log[j].Call? && log[i].provider == log[j].provider
    requires forall k :: i < k < j ==> !SucceedsAt(log, log[i].provider, k)
    ensures log[j].at >= log[i].at + BackOff(log, i)
  {
    hide Timed, EntryAfter, BackOff;
    DeadlineSet(log, i);
    DeadlinesNeverMoveEarlier(log, log[i].provider, i + 1, j);
  }

  // ----- and no longer

  /** No success has come after `i`. */
  ghost predicate Owed(log: seq<Event>, provider: string, i: int) {
    FailsAt(log, provider, i) && forall k :: i < k < |log| ==> !SucceedsAt(log, provider, k)
  }

  ghost predicate WaitedOut(log: seq<Event>, i: nat, now: int)
    requires i < |log| && log[i].Fail?
  {
    now >= log[i].at + BackOff(log, i)
  }

  /** Every back-off owed since the provider's last success is over. */
  ghost predicate AllWaitedOut(log: seq<Event>, provider: string, now: int) {
    forall i: nat :: Owed(log, provider, i) ==> WaitedOut(log, i, now)
  }

  lemma OwedChanges(log: seq<Event>, provider: string, now: int)
    requires log != []
    ensures var n := |log| - 1;
      AllWaitedOut(log, provider, now) <==>
        if FailsAt(log, provider, n) then AllWaitedOut(log[..n], provider, now) && WaitedOut(log, n, now)
        else SucceedsAt(log, provider, n) || AllWaitedOut(log[..n], provider, now)
  {
    hide BackOff;
    var n := |log| - 1;
    forall i: nat | i < n && log[i].Fail? ensures WaitedOut(log, i, now) <==> WaitedOut(log[..n], i, now) {
      SameBackOff(log, i);
    }
    forall i: nat | i < n ensures Owed(log, provider, i) <==> Owed(log[..n], provider, i) && !SucceedsAt(log, provider, n) {
      SamePrefix(log, provider);
    }
    assert Owed(log, provider, n) <==> FailsAt(log, provider, n);
    hide WaitedOut, Owed;
    assert forall i: nat :: i >= |log| ==> !Owed(log, provider, i) by { OwedInLog(log, provider); }
    assert forall i: nat :: i >= n ==> !Owed(log[..n], provider, i) by { OwedInLog(log[..n], provider); }
  }

  lemma OwedInLog(log: seq<Event>, provider: string)
    ensures forall i: nat :: i >= |log| ==> !Owed(log, provider, i)
  {
  }

  lemma SameBackOff(log: seq<Event>, i: nat)
    requires i < |log| - 1 && log[i].Fail?
    ensures BackOff(log[..|log| - 1], i) == BackOff(log, i)
  {
    hide Streak, StandardCooldown, BillingCooldown;
    assert log[..|log| - 1][..i + 1] == log[..i + 1];
  }

  /** One more failure keeps a provider unavailable until its own back-off is over as well. */
  lemma FailureAdds(log: seq<Event>, provider: string, now: int)
    requires Timed(log) && FailsAt(log, provider, |log| - 1)
    ensures var n := |log| - 1;
      Available(EntryAfter(log, provider), now) <==> Available(EntryAfter(log[..n], provider), now) && WaitedOut(log, n, now)
  {
    hide BackOff;
    var n := |log| - 1;
    assert log[..n + 1] == log;
    DeadlineSet(log, n);
    DeadlinesBounded(log[..n], provider);
    LastFailureEarlier(log, provider);
    hide Bounded;
    FailureExtends(EntryAfter(log[..n], provider), log[n].reason, log[n].at);
    hide StandardCooldown, BillingCooldown, WindowPassed;
  }

  /** A provider is available at a time if and only if every back-off owed since its last success is over then. */
  lemma {:induction false} AvailableExactly(log: seq<Event>, provider: string, now: int)
    requires Timed(log)
    ensures Available(EntryAfter(log, provider), now) <==> AllWaitedOut(log, provider, now)
    decreases |log|
  {
    hide WaitedOut, Failed;
    if log == [] {
    } else {
      var n := |log| - 1;
      AvailableExactly(log[..n], provider, now);
      OwedChanges(log, provider, now);
      hide AllWaitedOut;
      if FailsAt(log, provider, n) {
        FailureAdds(log, provider, now);
      }
    }
  }
}
