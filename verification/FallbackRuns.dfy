/**
 What the fallback chain promises: one attempt for each candidate in turn, no call to a provider in cooldown,
 and, over any number of executions, back-offs that are waited out.
 */
module FallbackRuns {
  import opened Basics
  import opened Cooldown
  import opened CooldownRuns
  import opened Fallback

  // ----- one execution

  /** From `p`, candidate number `k` is passed: it is skipped in cooldown, or called and failed in a retriable way. */
  predicate Passes(env: Surroundings, candidate: Candidate, k: nat, p: Progress, attempt: Attempt) {
    && attempt.candidate == candidate
    && !env.cancelledBefore(k)
    && (if Available(EntryAfter(p.log, candidate.provider), env.checkedAt(k)) then
          && !attempt.skipped && attempt.error.Some? && attempt.reason.Some? && attempt.reason.value != Format
          && env.reply(k) == Errored(attempt.error.value, attempt.reason)
          && !env.cancelledAfter(k)
        else
          attempt.skipped && attempt.reason == Some(RateLimit))
  }

  /** The providers that a log calls, in order. */
  function CallsOf(log: seq<Event>): seq<string> {
    if log == [] then []
    else CallsOf(log[..|log| - 1]) + if log[|log| - 1].Call? then [log[|log| - 1].provider] else []
  }

  function Tried(attempts: seq<Attempt>): seq<string> {
    if attempts == [] then []
    else
      var last := attempts[|attempts| - 1];
      Tried(attempts[..|attempts| - 1]) + if last.skipped then [] else [last.candidate.provider]
  }

  lemma CallsOfLonger(log: seq<Event>, event: Event)
    ensures CallsOf(log + [event]) == CallsOf(log) + if event.Call? then [event.provider] else []
  {
    assert (log + [event])[..|log|] == log;
  }

  lemma TriedLonger(attempts: seq<Attempt>, attempt: Attempt)
    ensures Tried(attempts + [attempt]) == Tried(attempts) + if attempt.skipped then [] else [attempt.candidate.provider]
  {
    assert (attempts + [attempt])[..|attempts|] == attempts;
  }

  lemma VisitPasses(env: Surroundings, candidate: Candidate, k: nat, p: Progress) returns (attempt: Attempt)
    requires Visit(env, candidate, k, p).ended.None? && p.ended.None?
    ensures Passes(env, candidate, k, p, attempt)
    ensures Visit(env, candidate, k, p).attempts == p.attempts + [attempt]
    ensures CallsOf(Visit(env, candidate, k, p).log) == CallsOf(p.log) + if attempt.skipped then [] else [candidate.provider]
  {
    hide EntryAfter, Available;
    var next := Visit(env, candidate, k, p);
    attempt := next.attempts[|p.attempts|];
    if !attempt.skipped {
      var call := Call(candidate.provider, env.checkedAt(k));
      CallsOfLonger(p.log, call);
      CallsOfLonger(p.log + [call], next.log[|p.log| + 1]);
    }
  }

  /** While the chain has not ended there is exactly one attempt for each candidate, in order, and the calls are the unskipped ones. */
  lemma {:induction false} OneAttemptEach(env: Surroundings, candidates: seq<Candidate>, log: seq<Event>, n: nat)
    requires n <= |candidates| && After(env, candidates, log, n).ended.None?
    ensures |After(env, candidates, log, n).attempts| == n
    ensures forall k :: 0 <= k < n ==>
      After(env, candidates, log, k).ended.None?
      && Passes(env, candidates[k], k, After(env, candidates, log, k), After(env, candidates, log, n).attempts[k])
    ensures CallsOf(After(env, candidates, log, n).log) == CallsOf(log) + Tried(After(env, candidates, log, n).attempts)
  {
    hide Visit, Passes, CallsOf, EntryAfter;
    if n == 0 {
    } else {
      hide Tried, After;
      var was := After(env, candidates, log, n - 1);
      AfterNext(env, candidates, log, n);
      OneAttemptEach(env, candidates, log, n - 1);
      var attempt := VisitPasses(env, candidates[n - 1], n - 1, was);
      PassedCandidate(env, candidates[n - 1], n - 1, was, attempt);
      TriedLonger(was.attempts, attempt);
    }
  }

  lemma AfterNext(env: Surroundings, candidates: seq<Candidate>, log: seq<Event>, n: nat)
    requires 0 < n <= |candidates| && After(env, candidates, log, n).ended.None?
    ensures After(env, candidates, log, n - 1).ended.None?
    ensures After(env, candidates, log, n) == Visit(env, candidates[n - 1], n - 1, After(env, candidates, log, n - 1))
  {
    hide Visit;
  }

  lemma PassedCandidate(env: Surroundings, candidate: Candidate, k: nat, p: Progress, attempt: Attempt)
    requires Passes(env, candidate, k, p, attempt)
    ensures attempt.candidate == candidate
  {
  }

  /** From `p`, candidate number `k` ends the chain in this way. */
  predicate Stops(env: Surroundings, candidate: Candidate, k: nat, p: Progress, ending: Ending) {
    var called := !env.cancelledBefore(k) && Available(EntryAfter(p.log, candidate.provider), env.checkedAt(k));
    match ending
    case Answer(response, c, attempts) =>
      called && c == candidate && attempts == p.attempts && env.reply(k) == Answered(response)
    case Canceled => env.cancelledBefore(k) || (called && env.reply(k).Errored? && env.cancelledAfter(k))
    case Unclassified(c, error) =>
      called && c == candidate && env.reply(k) == Errored(error, None) && !env.cancelledAfter(k)
    case NotRetriable(c, reason, error) =>
      called && c == candidate && env.reply(k) == Errored(error, Some(reason)) && reason == Format && !env.cancelledAfter(k)
    case _ => false
  }

  lemma VisitStops(env: Surroundings, candidate: Candidate, k: nat, p: Progress)
    requires Visit(env, candidate, k, p).ended.Some? && p.ended.None?
    ensures Stops(env, candidate, k, p, Visit(env, candidate, k, p).ended.value)
  {
    hide EntryAfter, Available;
  }

  /**
   An execution passes its first `m` candidates, with one attempt each, and then candidate `m` ends it;
   it is exhausted exactly when no candidate does.
   */
  lemma ExecuteEnds(env: Surroundings, candidates: seq<Candidate>, log: seq<Event>) returns (m: nat)
    requires candidates != []
    ensures m <= |candidates| && After(env, candidates, log, m).ended.None?
    ensures |After(env, candidates, log, m).attempts| == m
    ensures forall k :: 0 <= k < m ==>
      Passes(env, candidates[k], k, After(env, candidates, log, k), After(env, candidates, log, m).attempts[k])
    ensures CallsOf(After(env, candidates, log, m).log) == CallsOf(log) + Tried(After(env, candidates, log, m).attempts)
    ensures m == |candidates| ==> Executed(env, candidates, log).0 == Exhausted(After(env, candidates, log, m).attempts)
    ensures m < |candidates| ==>
      Stops(env, candidates[m], m, After(env, candidates, log, m), Executed(env, candidates, log).0)
  {
    hide Visit, Passes, Stops, CallsOf, Tried, EntryAfter;
    m := FirstEnd(env, candidates, log, |candidates|);
    OneAttemptEach(env, candidates, log, m);
    if m < |candidates| {
      VisitStops(env, candidates[m], m, After(env, candidates, log, m));
      AfterStays(env, candidates, log, m + 1, |candidates|);
    }
  }

  /** The number of candidates the chain passes before it ends, among the first `n`. */
  lemma {:induction false} FirstEnd(env: Surroundings, candidates: seq<Candidate>, log: seq<Event>, n: nat) returns (m: nat)
    requires n <= |candidates|
    ensures m <= n && After(env, candidates, log, m).ended.None?
    ensures m < n ==> After(env, candidates, log, m + 1).ended.Some?
  {
    hide Visit;
    if After(env, candidates, log, n).ended.None? {
      m := n;
    } else {
      m := FirstEnd(env, candidates, log, n - 1);
      if m == n - 1 {
        assert After(env, candidates, log, m + 1).ended.Some?;
      }
    }
  }

  // ----- what an execution leaves in the log

  /** What the passed candidates leave: a call and a failure for each that was called, nothing for a skipped one. */
  function EventsOf(env: Surroundings, attempts: seq<Attempt>): seq<Event> {
    if attempts == [] then []
    else
      var k := |attempts| - 1;
      var attempt := attempts[k];
      EventsOf(env, attempts[..k])
      + if attempt.skipped || attempt.reason.None? then []
        else [Call(attempt.candidate.provider, env.checkedAt(k)),
              Fail(attempt.candidate.provider, attempt.reason.value, env.returnedAt(k))]
  }

  /** What the candidate that ends the chain leaves: its call unless it was not reached, and a success if it answered. */
  function EndEvents(env: Surroundings, candidate: Candidate, k: nat, ending: Ending): seq<Event> {
    if env.cancelledBefore(k) then []
    else
      [Call(candidate.provider, env.checkedAt(k))]
      + if ending.Answer? then [Succeed(candidate.provider, env.returnedAt(k))] else []
  }

  lemma PassLogs(env: Surroundings, candidate: Candidate, k: nat, p: Progress, attempt: Attempt)
    requires Visit(env, candidate, k, p).ended.None? && p.ended.None? && Passes(env, candidate, k, p, attempt)
    ensures Visit(env, candidate, k, p).log == p.log +
      if attempt.skipped then []
      else [Call(candidate.provider, env.checkedAt(k)), Fail(candidate.provider, attempt.reason.value, env.returnedAt(k))]
  {
    hide EntryAfter, Available;
  }

  lemma StopLogs(env: Surroundings, candidate: Candidate, k: nat, p: Progress)
    requires Visit(env, candidate, k, p).ended.Some? && p.ended.None?
    ensures var next := Visit(env, candidate, k, p); next.log == p.log + EndEvents(env, candidate, k, next.ended.value)
  {
    hide EntryAfter, Available;
  }

  lemma EventsLonger(env: Surroundings, attempts: seq<Attempt>, attempt: Attempt)
    ensures EventsOf(env, attempts + [attempt]) == EventsOf(env, attempts) +
      if attempt.skipped || attempt.reason.None? then []
      else [Call(attempt.candidate.provider, env.checkedAt(|attempts|)),
            Fail(attempt.candidate.provider, attempt.reason.value, env.returnedAt(|attempts|))]
  {
    assert (attempts + [attempt])[..|attempts|] == attempts;
  }

  /** While the chain has not ended, the log has grown by exactly the calls and failures of its attempts. */
  lemma {:induction false} PassedLog(env: Surroundings, candidates: seq<Candidate>, log: seq<Event>, n: nat)
    requires n <= |candidates| && After(env, candidates, log, n).ended.None?
    ensures After(env, candidates, log, n).log == log + EventsOf(env, After(env, candidates, log, n).attempts)
  {
    hide Visit, Passes, EntryAfter;
    if n == 0 {
    } else {
      hide EventsOf, After;
      var was := After(env, candidates, log, n - 1);
      AfterNext(env, candidates, log, n);
      PassedLog(env, candidates, log, n - 1);
      OneAttemptEach(env, candidates, log, n - 1);
      var attempt := VisitPasses(env, candidates[n - 1], n - 1, was);
      PassLogs(env, candidates[n - 1], n - 1, was, attempt);
      PassedReason(env, candidates[n - 1], n - 1, was, attempt);
      EventsLonger(env, was.attempts, attempt);
    }
  }

  lemma PassedReason(env: Surroundings, candidate: Candidate, k: nat, p: Progress, attempt: Attempt)
    requires Passes(env, candidate, k, p, attempt)
    ensures attempt.candidate == candidate && (!attempt.skipped ==> attempt.reason.Some?)
  {
  }

  /**
   The log of a whole execution: a call and a failure for each candidate that was called and passed, then the call of the one
   that ended it (if it was reached), then its success if it answered; nothing for skipped candidates and other endings.
   */
  lemma ExecutionLog(env: Surroundings, candidates: seq<Candidate>, log: seq<Event>) returns (m: nat)
    requires candidates != []
    ensures m <= |candidates| && After(env, candidates, log, m).ended.None?
    ensures m < |candidates| ==>
      Stops(env, candidates[m], m, After(env, candidates, log, m), Executed(env, candidates, log).0)
    ensures Executed(env, candidates, log).1 == log + EventsOf(env, After(env, candidates, log, m).attempts) +
      if m == |candidates| then [] else EndEvents(env, candidates[m], m, Executed(env, candidates, log).0)
  {
    hide Visit, Stops, EntryAfter, EventsOf, EndEvents;
    m := FirstEnd(env, candidates, log, |candidates|);
    PassedLog(env, candidates, log, m);
    if m < |candidates| {
      VisitStops(env, candidates[m], m, After(env, candidates, log, m));
      StopLogs(env, candidates[m], m, After(env, candidates, log, m));
      AfterStays(env, candidates, log, m + 1, |candidates|);
    }
  }

  /** A provider that has just failed in a retriable way is in cooldown for at least a minute. */
  lemma FailureBlocks(env: Surroundings, candidates: seq<Candidate>, log: seq<Event>, k: nat, now: int)
    requires k < |candidates| && After(env, candidates, log, k + 1).ended.None? && now < env.returnedAt(k) + 60_000
    ensures var p := After(env, candidates, log, k + 1);
      |p.attempts| == k + 1 &&
      (!p.attempts[k].skipped ==> !Available(EntryAfter(p.log, candidates[k].provider), now))
  {
    hide Visit, Passes, EntryAfter, Failed, Available;
    var was := After(env, candidates, log, k);
    AfterNext(env, candidates, log, k + 1);
    OneAttemptEach(env, candidates, log, k);
    var attempt := VisitPasses(env, candidates[k], k, was);
    PassedReason(env, candidates[k], k, was, attempt);
    PassLogs(env, candidates[k], k, was, attempt);
    if !attempt.skipped {
      var called := was.log + [Call(candidates[k].provider, env.checkedAt(k))];
      var failed := called + [Fail(candidates[k].provider, attempt.reason.value, env.returnedAt(k))];
      assert failed == After(env, candidates, log, k + 1).log;
      AfterFailure(called, candidates[k].provider, attempt.reason.value, env.returnedAt(k), candidates[k].provider);
      FailedIsBlocked(EntryAfter(called, candidates[k].provider), attempt.reason.value, env.returnedAt(k), now);
    }
  }

  lemma FailedIsBlocked(entry: Entry, reason: Reason, at: int, now: int)
    requires now < at + 60_000
    ensures !Available(Failed(entry, reason, at), now)
  {
    var reset := WindowPassed(entry, at);
    StandardCooldowns(if reset then 1 else entry.errorCount + 1);
    BillingCooldowns(if reset then 1 else Count(entry, Billing) + 1);
    hide StandardCooldown, BillingCooldown;
  }

  // ----- any number of executions

  datatype Run = Run(candidates: seq<Candidate>, env: Surroundings)

  function LogAfter(runs: seq<Run>): seq<Event> {
    if runs == [] then []
    else
      var run := runs[|runs| - 1];
      Executed(run.env, run.candidates, LogAfter(runs[..|runs| - 1])).1
  }

  ghost predicate NotAfter(log: seq<Event>, now: int) { forall i :: 0 <= i < |log| ==> log[i].at <= now }

  /** Within one execution the clock does not go back. */
  ghost predicate ClockRuns(env: Surroundings, n: nat) {
    && (forall i :: 0 <= i < n ==> env.checkedAt(i) <= env.returnedAt(i))
    && (forall i, j :: 0 <= i < j < n ==> env.returnedAt(i) <= env.checkedAt(j))
  }

  /** Nor between executions. */
  ghost predicate InTime(runs: seq<Run>) {
    runs == [] || (
      var before, run := runs[..|runs| - 1], runs[|runs| - 1];
      && InTime(before)
      && ClockRuns(run.env, |run.candidates|)
      && (run.candidates != [] ==> NotAfter(LogAfter(before), run.env.checkedAt(0))))
  }

  lemma KeptByEvent(log: seq<Event>, event: Event)
    requires Timed(log) && CallsAvailable(log) && NotAfter(log, event.at)
    requires event.Call? ==> Available(EntryAfter(log, event.provider), event.at)
    ensures Timed(log + [event]) && CallsAvailable(log + [event]) && NotAfter(log + [event], event.at)
  {
    hide EntryAfter, Available;
    var longer := log + [event];
    assert longer[..|log|] == log;
    assert forall i :: 0 <= i < |log| ==> longer[..i] == log[..i];
  }

  lemma KeptByVisit(env: Surroundings, candidate: Candidate, i: nat, p: Progress)
    requires Timed(p.log) && CallsAvailable(p.log) && NotAfter(p.log, env.checkedAt(i))
    requires env.checkedAt(i) <= env.returnedAt(i)
    ensures var log := Visit(env, candidate, i, p).log;
      Timed(log) && CallsAvailable(log) && NotAfter(log, env.returnedAt(i))
  {
    hide Timed, CallsAvailable, EntryAfter, Available;
    if Available(EntryAfter(p.log, candidate.provider), env.checkedAt(i)) {
      var call := Call(candidate.provider, env.checkedAt(i));
      KeptByEvent(p.log, call);
      var called := p.log + [call];
      KeptByEvent(called, Succeed(candidate.provider, env.returnedAt(i)));
      if env.reply(i).Errored? && env.reply(i).reason.Some? {
        KeptByEvent(called, Fail(candidate.provider, env.reply(i).reason.value, env.returnedAt(i)));
      }
    }
  }

  lemma {:induction false} KeptByChain(env: Surroundings, candidates: seq<Candidate>, log: seq<Event>, n: nat)
    requires n <= |candidates| && Timed(log) && CallsAvailable(log) && ClockRuns(env, |candidates|)
    requires candidates != [] ==> NotAfter(log, env.checkedAt(0))
    ensures var p := After(env, candidates, log, n);
      Timed(p.log) && CallsAvailable(p.log) && (n < |candidates| ==> NotAfter(p.log, env.checkedAt(n)))
  {
    hide Timed, CallsAvailable, Visit;
    if n == 0 {
    } else {
      KeptByChain(env, candidates, log, n - 1);
      KeptByVisit(env, candidates[n - 1], n - 1, After(env, candidates, log, n - 1));
    }
  }

  /** Over any number of executions time only moves forward in the log, and only available providers are called. */
  lemma {:induction false} RunsKeepTheRules(runs: seq<Run>)
    requires InTime(runs)
    ensures Timed(LogAfter(runs)) && CallsAvailable(LogAfter(runs))
    decreases |runs|
  {
    hide Visit, EntryAfter, Available, ClockRuns, NotAfter;
    if runs == [] {
    } else {
      var before, run := runs[..|runs| - 1], runs[|runs| - 1];
      RunsKeepTheRules(before);
      KeptByChain(run.env, run.candidates, LogAfter(before), |run.candidates|);
    }
  }

  /**
   Over any number of executions: after a provider's failure, unless it succeeds in between,
   its next call starts at least the back-off later, whichever execution makes it.
   */
  lemma NextCallWaits(runs: seq<Run>, i: nat, j: nat)
    requires InTime(runs) && i < j < |LogAfter(runs)|
    requires LogAfter(runs)[i].Fail? && LogAfter(runs)[j].Call? && LogAfter(runs)[i].provider == LogAfter(runs)[j].provider
    requires forall k :: i < k < j ==> !SucceedsAt(LogAfter(runs), LogAfter(runs)[i].provider, k)
    ensures LogAfter(runs)[j].at >= LogAfter(runs)[i].at + BackOff(LogAfter(runs), i)
  {
    hide LogAfter, InTime, Timed, CallsAvailable, BackOff;
    RunsKeepTheRules(runs);
    BackOffIsWaitedOut(LogAfter(runs), i, j);
  }
}
