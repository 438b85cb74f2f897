/**
 The fallback chain: candidates are tried in order, those in cooldown are skipped, and outcomes feed the tracker.
 What the provider answers, the clock and the caller's cancellation are given by the surroundings, one value per candidate.
 */
module Fallback {
  import opened Basics
  import opened Cooldown
  import opened CooldownRuns

  datatype Candidate = Candidate(provider: string, model: string)

  /** An error carries the reason it was classified with, if any. */
  datatype Reply = Answered(response: string) | Errored(error: string, reason: Option<Reason>)

  datatype Surroundings = Surroundings(
    cancelledBefore: nat -> bool,
    checkedAt: nat -> int,
    reply: nat -> Reply,
    cancelledAfter: nat -> bool,
    returnedAt: nat -> int)

  datatype Attempt = Attempt(candidate: Candidate, skipped: bool, error: Option<string>, reason: Option<Reason>)

  datatype Ending =
    | Answer(response: string, candidate: Candidate, attempts: seq<Attempt>)
    | NoCandidates
    | Canceled
    | Unclassified(candidate: Candidate, error: string)
    | NotRetriable(candidate: Candidate, reason: Reason, error: string)
    | Exhausted(attempts: seq<Attempt>)

  datatype Progress = Progress(attempts: seq<Attempt>, log: seq<Event>, ended: Option<Ending>)

  predicate IsRetriable(reason: Reason) { reason != Format }

  /** What happens to one candidate that is reached. */
  function Visit(env: Surroundings, candidate: Candidate, i: nat, p: Progress): Progress {
    if env.cancelledBefore(i) then p.(ended := Some(Canceled))
    else if !Available(EntryAfter(p.log, candidate.provider), env.checkedAt(i)) then
      p.(attempts := p.attempts + [Attempt(candidate, true, None, Some(RateLimit))])
    else
      var called := p.log + [Call(candidate.provider, env.checkedAt(i))];
      match env.reply(i)
      case Answered(response) =>
        Progress(p.attempts, called + [Succeed(candidate.provider, env.returnedAt(i))],
                 Some(Answer(response, candidate, p.attempts)))
      case Errored(error, reason) =>
        if env.cancelledAfter(i) then Progress(p.attempts, called, Some(Canceled))
        else if reason.None? then Progress(p.attempts, called, Some(Unclassified(candidate, error)))
        else if !IsRetriable(reason.value) then
          Progress(p.attempts, called, Some(NotRetriable(candidate, reason.value, error)))
        else
          Progress(p.attempts + [Attempt(candidate, false, Some(error), reason)],
                   called + [Fail(candidate.provider, reason.value, env.returnedAt(i))], None)
  }

  /** The chain after its first `n` candidates. */
  function After(env: Surroundings, candidates: seq<Candidate>, log: seq<Event>, n: nat): Progress
    requires n <= |candidates|
  {
    if n == 0 then Progress([], log, None)
    else
      var p := After(env, candidates, log, n - 1);
      if p.ended.Some? then p else Visit(env, candidates[n - 1], n - 1, p)
  }

  /** The whole execution: how it ends, and the log it leaves. */
  function Executed(env: Surroundings, candidates: seq<Candidate>, log: seq<Event>): (Ending, seq<Event>) {
    if candidates == [] then (NoCandidates, log)
    else
      var p := After(env, candidates, log, |candidates|);
      (if p.ended.Some? then p.ended.value else Exhausted(p.attempts), p.log)
  }

  // ----- the chain as it runs

  class FallbackChain {
    const cooldown: CooldownTracker
    ghost var log: seq<Event>

    ghost predicate Valid()
      reads this, cooldown
    {
      forall provider :: Lookup(cooldown.entries, provider) == EntryAfter(log, provider)
    }

    constructor ()
      ensures Valid() && fresh(cooldown) && log == []
    {
      cooldown := new CooldownTracker();
      log := [];
    }

    ghost method Call(provider: string, at: int)
      requires Valid()
      modifies this`log
      ensures Valid() && log == old(log) + [Event.Call(provider, at)]
    {
      log := log + [Event.Call(provider, at)];
      assert log[..|log| - 1] == old(log);
    }

    method MarkFailure(provider: string, reason: Reason, now: int)
      requires Valid()
      modifies this`log, cooldown
      ensures Valid() && log == old(log) + [Fail(provider, reason, now)]
    {
      hide Failed;
      cooldown.MarkFailure(provider, reason, now);
      log := log + [Fail(provider, reason, now)];
      forall p ensures Lookup(cooldown.entries, p) == EntryAfter(log, p) {
        AfterFailure(old(log), provider, reason, now, p);
      }
    }

    method MarkSuccess(provider: string, now: int)
      requires Valid()
      modifies this`log, cooldown
      ensures Valid() && log == old(log) + [Succeed(provider, now)]
    {
      cooldown.MarkSuccess(provider);
      log := log + [Succeed(provider, now)];
      assert log[..|log| - 1] == old(log);
    }

    method Execute(candidates: seq<Candidate>, env: Surroundings) returns (ending: Ending)
      requires Valid()
      modifies this`log, cooldown
      ensures Valid() && (ending, log) == Executed(env, candidates, old(log))
    {
      if |candidates| == 0 {
        return NoCandidates;
      }
      hide Available;
      var attempts: seq<Attempt> := [];
      for i := 0 to |candidates|
        invariant Valid()
        invariant After(env, candidates, old(log), i) == Progress(attempts, log, None)
      {
        var candidate := candidates[i];
        if After(env, candidates, old(log), i + 1).ended.Some? {
          AfterStays(env, candidates, old(log), i + 1, |candidates|);
        }
        if env.cancelledBefore(i) {
          return Canceled;
        }
        var available := cooldown.IsAvailable(candidate.provider, env.checkedAt(i));
        if !available {
          attempts := attempts + [Attempt(candidate, true, None, Some(RateLimit))];
          continue;
        }
        Call(candidate.provider, env.checkedAt(i));
        var reply := env.reply(i);
        if reply.Answered? {
          MarkSuccess(candidate.provider, env.returnedAt(i));
          return Answer(reply.response, candidate, attempts);
        }
        if env.cancelledAfter(i) {
          return Canceled;
        }
        if reply.reason.None? {
          return Unclassified(candidate, reply.error);
        }
        if !IsRetriable(reply.reason.value) {
          return NotRetriable(candidate, reply.reason.value, reply.error);
        }
        MarkFailure(candidate.provider, reply.reason.value, env.returnedAt(i));
        attempts := attempts + [Attempt(candidate, false, Some(reply.error), reply.reason)];
        if i == |candidates| - 1 {
          return Exhausted(attempts);
        }
      }
      return Exhausted(attempts);
    }
  }

  lemma AfterFailure(log: seq<Event>, provider: string, reason: Reason, now: int, p: string)
    ensures EntryAfter(log + [Fail(provider, reason, now)], p) ==
      if p == provider then Failed(EntryAfter(log, p), reason, now) else EntryAfter(log, p)
  {
    hide Failed;
    var longer := log + [Fail(provider, reason, now)];
    assert longer[..|longer| - 1] == log;
  }

  /** Once the chain has ended it does not move any more. */
  lemma {:induction false} AfterStays(env: Surroundings, candidates: seq<Candidate>, log: seq<Event>, n: nat, m: nat)
    requires n <= m <= |candidates| && After(env, candidates, log, n).ended.Some?
    ensures After(env, candidates, log, m) == After(env, candidates, log, n)
  {
    hide Visit;
    if n == m {
    } else {
      AfterStays(env, candidates, log, n, m - 1);
    }
  }
}
