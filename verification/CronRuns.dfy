/**
 Every run of the cron service: any interleaving of checks, executions, additions, removals, switches,
 stops, restarts, crashes and failed writes, under a clock that does not go back.
 */
module CronRuns {
  import opened Basics
  import opened Cron

  /** A claim of a job: when it was due, and when it was claimed. */
  datatype Claim = Claim(id: string, due: int, at: int)

  /**
   The service and its surroundings. `pending` holds the ids that were claimed and whose execution has not
   finished; `born` remembers the schedule under which each id was added (ids are never reused).
   */
  datatype World = World(
    jobs: seq<Job>,
    disk: seq<Job>,
    running: bool,
    clock: int,
    pending: multiset<string>,
    claims: seq<Claim>,
    born: map<string, Schedule>)

  datatype Action =
    | Wait(ms: nat)
    | Check(saved: bool)
    | Finish(id: string, started: int, error: Option<string>, saved: bool)
    | Add(id: string, schedule: Schedule, saved: bool)
    | Remove(id: string, saved: bool)
    | Switch(id: string, enabled: bool, saved: bool)
    | Start(loaded: bool, saved: bool)
    | Stop
    | Crash(loaded: bool)

  const INITIAL := World([], [], false, 0, multiset{}, [], map[])

  /** Only claimed executions finish, and new jobs get new ids. */
  predicate Enabled(w: World, a: Action) {
    match a
    case Finish(id, _, _, _) => id in w.pending
    case Add(id, _, _) => id !in w.born
    case _ => true
  }

  function ClaimsOf(jobs: seq<Job>, now: int): seq<Claim> {
    if jobs == [] then []
    else
      var job := jobs[|jobs| - 1];
      ClaimsOf(jobs[..|jobs| - 1], now) + if IsDue(job, now) then [Claim(job.id, job.nextRun.value, now)] else []
  }

  function Saved(w: World, jobs: seq<Job>, saved: bool): World {
    w.(jobs := jobs, disk := if saved then jobs else w.disk)
  }

  function Next(tick: Tick, w: World, a: Action): World {
    match a
    case Wait(ms) => w.(clock := w.clock + ms)
    case Check(saved) =>
      if !w.running then w
      else
        var due := DueIds(w.jobs, w.clock);
        Saved(w, Claimed(w.jobs, set id | id in due), saved)
          .(pending := w.pending + multiset(due), claims := w.claims + ClaimsOf(w.jobs, w.clock))
    case Finish(id, started, error, saved) =>
      Saved(w, Finished(tick, w.jobs, id, started, error, w.clock), saved && Find(w.jobs, id) < |w.jobs|)
        .(pending := w.pending - multiset{id})
    case Add(id, schedule, saved) =>
      Saved(w, w.jobs + [NewJob(tick, id, schedule, w.clock)], saved).(born := w.born[id := schedule])
    case Remove(id, saved) =>
      var jobs := Without(w.jobs, id);
      Saved(w, jobs, saved && |jobs| < |w.jobs|)
    case Switch(id, enabled, saved) =>
      Saved(w, Switched(tick, w.jobs, id, enabled, w.clock), saved && Find(w.jobs, id) < |w.jobs|)
    case Start(loaded, saved) =>
      if w.running then w
      else if !loaded then w.(jobs := [])
      else Saved(w, Rescheduled(tick, w.disk, w.clock), saved).(running := saved)
    case Stop => w.(running := false)
    case Crash(loaded) => w.(jobs := if loaded then w.disk else [], running := false, pending := multiset{})
  }

  /** A run: every action is possible where it is taken. */
  ghost predicate IsRun(tick: Tick, actions: seq<Action>) {
    actions == [] ||
    (IsRun(tick, actions[..|actions| - 1]) && Enabled(WorldAfter(tick, actions[..|actions| - 1]), actions[|actions| - 1]))
  }

  function WorldAfter(tick: Tick, actions: seq<Action>): World {
    if actions == [] then INITIAL
    else Next(tick, WorldAfter(tick, actions[..|actions| - 1]), actions[|actions| - 1])
  }

  /** The cron library only looks forward. */
  ghost predicate Forward(tick: Tick) {
    forall expr, now :: tick(expr, now).Some? ==> tick(expr, now).value > now
  }

  // ----- what is promised

  /** A later claim of the same job is due after the earlier one was made, never happens for an `at` job, and keeps the `every` spacing. */
  ghost predicate Spaced(schedule: Schedule, earlier: Claim, due: int) {
    && earlier.at < due
    && !schedule.At?
    && (schedule.Every? && schedule.every.Some? ==> earlier.at + schedule.every.value <= due)
  }

  ghost predicate ClaimsSpaced(w: World) {
    forall i, j :: 0 <= i < j < |w.claims| && w.claims[i].id == w.claims[j].id && w.claims[i].id in w.born ==>
      Spaced(w.born[w.claims[i].id], w.claims[i], w.claims[j].due)
  }

  /** Schedules that always have a next run. */
  ghost predicate Recurring(tick: Tick, schedule: Schedule) {
    !schedule.At? && forall now :: NextRun(tick, schedule, now).Some?
  }

  ghost predicate NotStranded(tick: Tick, w: World) {
    forall job :: job in w.jobs && w.running && job.enabled && Recurring(tick, job.schedule) ==>
      job.nextRun.Some? || job.id in w.pending
  }

  // ----- what every reachable world satisfies

  ghost predicate KnownJobs(born: map<string, Schedule>, jobs: seq<Job>) {
    forall job :: job in jobs ==> job.id in born && born[job.id] == job.schedule
  }

  ghost predicate DistinctIds(jobs: seq<Job>) {
    forall i, j :: 0 <= i < j < |jobs| ==> jobs[i].id != jobs[j].id
  }

  ghost predicate KnownClaims(w: World) {
    forall c :: c in w.claims ==>
      && c.id in w.born && c.due <= c.at <= w.clock
      && (w.born[c.id].At? ==> w.born[c.id].at == Some(c.due))
  }

  /** A next run is spaced from every claim made so far, and an `at` job's next run is its one time. */
  ghost predicate FreshRun(w: World, job: Job) {
    job.nextRun.Some? ==>
      && (forall c :: c in w.claims && c.id == job.id ==> Spaced(job.schedule, c, job.nextRun.value))
      && (job.schedule.At? ==> job.schedule.at == job.nextRun)
  }

  ghost predicate FreshJobs(w: World) {
    w.running ==> forall job :: job in w.jobs && job.enabled ==> FreshRun(w, job)
  }

  ghost predicate Invariant(tick: Tick, w: World) {
    && KnownJobs(w.born, w.jobs) && KnownJobs(w.born, w.disk)
    && DistinctIds(w.jobs) && DistinctIds(w.disk)
    && KnownClaims(w) && FreshJobs(w) && ClaimsSpaced(w) && NotStranded(tick, w)
  }

  // ----- steps

  /** A run computed now is spaced from everything that was claimed up to now. */
  lemma ComputedRunIsFresh(tick: Tick, w: World, job: Job)
    requires Forward(tick) && KnownClaims(w) && job.id in w.born && w.born[job.id] == job.schedule
    requires job.nextRun == NextRun(tick, job.schedule, w.clock)
    ensures FreshRun(w, job)
  {
  }

  lemma ClaimsOfSpec(jobs: seq<Job>, now: int)
    ensures forall c :: c in ClaimsOf(jobs, now) <==> exists job :: job in jobs && IsDue(job, now) && c == Claim(job.id, job.nextRun.value, now)
    ensures forall id :: id in DueIds(jobs, now) <==> exists job :: job in jobs && IsDue(job, now) && job.id == id
    decreases |jobs|
  {
    if jobs != [] {
      var most, last := jobs[..|jobs| - 1], jobs[|jobs| - 1];
      ClaimsOfSpec(most, now);
      assert jobs == most + [last];
    }
  }

  lemma ClaimedFrom(jobs: seq<Job>, now: int, c: Claim) returns (job: Job)
    requires c in ClaimsOf(jobs, now)
    ensures job in jobs && IsDue(job, now) && c == Claim(job.id, job.nextRun.value, now)
  {
    ClaimsOfSpec(jobs, now);
    job :| job in jobs && IsDue(job, now) && c == Claim(job.id, job.nextRun.value, now);
  }

  lemma {:induction false} ClaimsDistinct(jobs: seq<Job>, now: int)
    requires DistinctIds(jobs)
    ensures forall i, j :: 0 <= i < j < |ClaimsOf(jobs, now)| ==> ClaimsOf(jobs, now)[i].id != ClaimsOf(jobs, now)[j].id
    decreases |jobs|
  {
    if jobs == [] {
    } else {
      var most, last := jobs[..|jobs| - 1], jobs[|jobs| - 1];
      ClaimsDistinct(most, now);
      forall c | c in ClaimsOf(most, now) ensures c.id != last.id {
        var job := ClaimedFrom(most, now, c);
        var k :| 0 <= k < |most| && most[k] == job;
        assert jobs[k] == job;
      }
    }
  }

  /** The claims of one check are spaced from all earlier claims. */
  lemma CheckSpaces(tick: Tick, w: World)
    requires Invariant(tick, w) && w.running
    ensures ClaimsSpaced(w.(claims := w.claims + ClaimsOf(w.jobs, w.clock)))
    ensures KnownClaims(w.(claims := w.claims + ClaimsOf(w.jobs, w.clock)))
  {
    var added := ClaimsOf(w.jobs, w.clock);
    var w' := w.(claims := w.claims + added);
    ClaimsDistinct(w.jobs, w.clock);
    forall c | c in w'.claims
      ensures c.id in w.born && c.due <= c.at <= w.clock && (w.born[c.id].At? ==> w.born[c.id].at == Some(c.due))
    {
      if c in added {
        var job := ClaimedFrom(w.jobs, w.clock, c);
      }
    }
    forall i, j | 0 <= i < j < |w'.claims| && w'.claims[i].id == w'.claims[j].id && w'.claims[i].id in w.born
      ensures Spaced(w.born[w'.claims[i].id], w'.claims[i], w'.claims[j].due)
    {
      if j >= |w.claims| {
        assert w'.claims[j] in added;
        var job := ClaimedFrom(w.jobs, w.clock, w'.claims[j]);
        if i < |w.claims| {
          assert w'.claims[i] in w.claims;
          assert FreshRun(w, job);
        } else {
          assert false;
        }
      }
    }
  }

  lemma CheckKeeps(tick: Tick, w: World, saved: bool)
    requires Invariant(tick, w) && w.running
    ensures Invariant(tick, Next(tick, w, Check(saved)))
  {
    hide ClaimsSpaced, KnownClaims, Recurring, Spaced, ClaimsOf, DueIds, IsDue;
    var w' := Next(tick, w, Check(saved));
    CheckSpaces(tick, w);
    SpacedSame(w.(claims := w'.claims), w');
    var due := set id | id in DueIds(w.jobs, w.clock);
    assert KnownJobs(w'.born, w'.jobs);
    forall job | job in w'.jobs && job.enabled ensures FreshRun(w', job) {
      var k :| 0 <= k < |w'.jobs| && w'.jobs[k] == job;
      if job.nextRun.Some? {
        assert w.jobs[k] == job && job in w.jobs;
        StillFresh(w, w', job);
      }
    }
    forall job | job in w'.jobs && job.enabled && Recurring(tick, job.schedule)
      ensures job.nextRun.Some? || job.id in w'.pending
    {
      var k :| 0 <= k < |w'.jobs| && w'.jobs[k] == job;
      assert w.jobs[k] in w.jobs;
    }
  }

  /** Spacing and bookkeeping only depend on the claims, the births and the clock. */
  lemma SpacedSame(w: World, w': World)
    requires w.claims == w'.claims && w.born == w'.born && w.clock <= w'.clock
    requires ClaimsSpaced(w) && KnownClaims(w)
    ensures ClaimsSpaced(w') && KnownClaims(w')
  {
  }

  /** A job that was not claimed stays spaced from the claims of others. */
  lemma StillFresh(w: World, w': World, job: Job)
    requires DistinctIds(w.jobs) && job in w.jobs && FreshRun(w, job)
    requires w'.claims == w.claims + ClaimsOf(w.jobs, w.clock)
    requires job.id !in DueIds(w.jobs, w.clock)
    ensures FreshRun(w', job)
  {
    hide Spaced, ClaimsOf, DueIds, IsDue;
    forall c | c in w'.claims && c.id == job.id ensures c in w.claims {
      if c in ClaimsOf(w.jobs, w.clock) {
        var claimed := ClaimedFrom(w.jobs, w.clock, c);
        ClaimsOfSpec(w.jobs, w.clock);
      }
    }
  }

  // ----- what the operations do to the job list

  ghost predicate HasOrigin(jobs: seq<Job>, job': Job, touched: string) {
    exists job ::
      job in jobs && job.id == job'.id && job.schedule == job'.schedule && (job' == job || job'.id == touched)
  }

  /** `jobs'` is `jobs` with some jobs dropped, and every changed or added job has been rescheduled at `now` or switched off. */
  ghost predicate Derived(tick: Tick, jobs: seq<Job>, jobs': seq<Job>, now: int, touched: string) {
    && (forall job' :: job' in jobs' ==> HasOrigin(jobs, job', touched))
    && (forall job' :: job' in jobs' && job'.id == touched ==>
          !job'.enabled || job'.nextRun == NextRun(tick, job'.schedule, now))
    && (DistinctIds(jobs) ==> DistinctIds(jobs'))
  }

  lemma {:induction false} WithoutDistinct(jobs: seq<Job>, id: string)
    requires DistinctIds(jobs)
    ensures DistinctIds(Without(jobs, id))
    decreases |jobs|
  {
    if jobs == [] {
    } else {
      WithoutDistinct(jobs[..|jobs| - 1], id);
      var most := Without(jobs[..|jobs| - 1], id);
      forall k | 0 <= k < |most| ensures most[k].id != jobs[|jobs| - 1].id {
        assert most[k] in jobs[..|jobs| - 1];
      }
    }
  }

  lemma WithoutDerived(tick: Tick, jobs: seq<Job>, id: string, now: int)
    ensures Derived(tick, jobs, Without(jobs, id), now, id)
  {
    if DistinctIds(jobs) {
      WithoutDistinct(jobs, id);
    }
  }

  lemma UpdateDerived(tick: Tick, jobs: seq<Job>, i: nat, job: Job, now: int)
    requires i < |jobs| && job.id == jobs[i].id && job.schedule == jobs[i].schedule && DistinctIds(jobs)
    requires !job.enabled || job.nextRun == NextRun(tick, job.schedule, now)
    ensures Derived(tick, jobs, jobs[i := job], now, job.id)
  {
    hide NextRun;
    var jobs' := jobs[i := job];
    forall job' | job' in jobs'
      ensures HasOrigin(jobs, job', job.id)
    {
      var k :| 0 <= k < |jobs'| && jobs'[k] == job';
      assert jobs[k] in jobs;
    }
  }

  /** Operations on one job keep what every reachable world satisfies. */
  lemma DerivedKeeps(tick: Tick, w: World, jobs: seq<Job>, disk: seq<Job>, pending: multiset<string>, touched: string)
    requires Forward(tick) && Invariant(tick, w) && Derived(tick, w.jobs, jobs, w.clock, touched)
    requires disk == jobs || disk == w.disk
    requires forall id :: id in w.pending && id != touched ==> id in pending
    ensures Invariant(tick, w.(jobs := jobs, disk := disk, pending := pending))
  {
    hide ClaimsSpaced, Recurring, Spaced, NextRun, Forward;
    var w' := w.(jobs := jobs, disk := disk, pending := pending);
    SpacedSame(w, w');
    forall job' | job' in jobs && w.running && job'.enabled ensures FreshRun(w', job') {
      if job'.id == touched {
        ComputedRunIsFresh(tick, w', job');
      } else {
        assert job' in w.jobs;
        assert FreshRun(w, job');
      }
    }
    forall job' | job' in jobs && w.running && job'.enabled && Recurring(tick, job'.schedule)
      ensures job'.nextRun.Some? || job'.id in pending
    {
      if job'.id == touched {
        RecurringRuns(tick, job'.schedule, w.clock);
      } else {
        assert job' in w.jobs;
      }
    }
  }

  lemma RecurringRuns(tick: Tick, schedule: Schedule, now: int)
    requires Recurring(tick, schedule)
    ensures NextRun(tick, schedule, now).Some?
  {
  }

  lemma FinishKeeps(tick: Tick, w: World, id: string, started: int, error: Option<string>, saved: bool)
    requires Forward(tick) && Invariant(tick, w) && id in w.pending
    ensures Invariant(tick, Next(tick, w, Finish(id, started, error, saved)))
  {
    hide Invariant, Derived, NextRun, Forward;
    assert DistinctIds(w.jobs) by { DistinctFromInvariant(tick, w); }
    var i := Find(w.jobs, id);
    var jobs := Finished(tick, w.jobs, id, started, error, w.clock);
    if i == |w.jobs| {
      UntouchedDerived(tick, w.jobs, id, w.clock);
    } else if w.jobs[i].schedule.At? && w.jobs[i].deleteAfterRun {
      WithoutDerived(tick, w.jobs, id, w.clock);
    } else {
      UpdateDerived(tick, w.jobs, i, jobs[i], w.clock);
    }
    DerivedKeeps(tick, w, jobs, if saved && i < |w.jobs| then jobs else w.disk, w.pending - multiset{id}, id);
  }

  lemma DistinctFromInvariant(tick: Tick, w: World)
    requires Invariant(tick, w)
    ensures DistinctIds(w.jobs)
  {
  }

  lemma UntouchedDerived(tick: Tick, jobs: seq<Job>, id: string, now: int)
    requires Find(jobs, id) == |jobs|
    ensures Derived(tick, jobs, jobs, now, id)
  {
  }

  lemma SwitchKeeps(tick: Tick, w: World, id: string, enabled: bool, saved: bool)
    requires Forward(tick) && Invariant(tick, w)
    ensures Invariant(tick, Next(tick, w, Switch(id, enabled, saved)))
  {
    hide Invariant, Derived, NextRun, Forward;
    assert DistinctIds(w.jobs) by { DistinctFromInvariant(tick, w); }
    var i := Find(w.jobs, id);
    var jobs := Switched(tick, w.jobs, id, enabled, w.clock);
    if i == |w.jobs| {
      UntouchedDerived(tick, w.jobs, id, w.clock);
    } else {
      UpdateDerived(tick, w.jobs, i, jobs[i], w.clock);
    }
    DerivedKeeps(tick, w, jobs, if saved && i < |w.jobs| then jobs else w.disk, w.pending, id);
  }

  lemma RemoveKeeps(tick: Tick, w: World, id: string, saved: bool)
    requires Forward(tick) && Invariant(tick, w)
    ensures Invariant(tick, Next(tick, w, Remove(id, saved)))
  {
    hide Invariant, Derived, NextRun, Forward;
    var jobs := Without(w.jobs, id);
    WithoutDerived(tick, w.jobs, id, w.clock);
    DerivedKeeps(tick, w, jobs, if saved && |jobs| < |w.jobs| then jobs else w.disk, w.pending, id);
  }

  lemma AddKeeps(tick: Tick, w: World, id: string, schedule: Schedule, saved: bool)
    requires Forward(tick) && Invariant(tick, w) && id !in w.born
    ensures Invariant(tick, Next(tick, w, Add(id, schedule, saved)))
  {
    hide Spaced, NextRun, Recurring, Forward;
    var w' := Next(tick, w, Add(id, schedule, saved));
    var added := NewJob(tick, id, schedule, w.clock);
    assert KnownClaims(w');
    assert ClaimsSpaced(w') by {
      forall i, j | 0 <= i < j < |w.claims| && w.claims[i].id == w.claims[j].id
        ensures Spaced(w'.born[w.claims[i].id], w.claims[i], w.claims[j].due)
      {
        assert w.claims[i] in w.claims;
      }
    }
    forall job | job in w'.jobs && w.running && job.enabled ensures FreshRun(w', job) {
      if job == added {
        ComputedRunIsFresh(tick, w', job);
      } else {
        assert FreshRun(w, job);
      }
    }
    forall job | job in w'.jobs && w.running && job.enabled && Recurring(tick, job.schedule)
      ensures job.nextRun.Some? || job.id in w'.pending
    {
      if job == added {
        RecurringRuns(tick, schedule, w.clock);
      }
    }
  }

  lemma StartKeeps(tick: Tick, w: World, loaded: bool, saved: bool)
    requires Forward(tick) && Invariant(tick, w) && !w.running
    ensures Invariant(tick, Next(tick, w, Start(loaded, saved)))
  {
    hide Spaced, NextRun, Recurring, Forward, ClaimsSpaced;
    var w' := Next(tick, w, Start(loaded, saved));
    SpacedSame(w, w');
    forall job | job in w'.jobs ensures job.id in w.born && w.born[job.id] == job.schedule {
      if loaded {
        var k :| 0 <= k < |w'.jobs| && w'.jobs[k] == job;
        assert w.disk[k] in w.disk;
      }
    }
    forall job | job in w'.jobs && w'.running && job.enabled
      ensures FreshRun(w', job) && (Recurring(tick, job.schedule) ==> job.nextRun.Some?)
    {
      var k :| 0 <= k < |w'.jobs| && w'.jobs[k] == job;
      ComputedRunIsFresh(tick, w', job);
      if Recurring(tick, job.schedule) {
        RecurringRuns(tick, job.schedule, w.clock);
      }
    }
  }

  lemma IdleKeeps(tick: Tick, w: World, w': World)
    requires Invariant(tick, w) && w.clock <= w'.clock && w'.claims == w.claims && w'.born == w.born && w'.disk == w.disk
    requires (w'.jobs == w.jobs && w'.pending == w.pending && w'.running == w.running)
          || (!w'.running && (w'.jobs == w.jobs || w'.jobs == w.disk || w'.jobs == []))
    ensures Invariant(tick, w')
  {
    hide Spaced, Recurring, ClaimsSpaced;
    SpacedSame(w, w');
    forall job | job in w'.jobs && w'.running && job.enabled ensures FreshRun(w', job) {
      assert FreshRun(w, job);
    }
  }

  lemma StepKeeps(tick: Tick, w: World, a: Action)
    requires Forward(tick) && Invariant(tick, w) && Enabled(w, a)
    ensures Invariant(tick, Next(tick, w, a))
  {
    hide Invariant, Forward;
    match a
    case Wait(ms) => IdleKeeps(tick, w, Next(tick, w, a));
    case Check(saved) =>
      if w.running {
        CheckKeeps(tick, w, saved);
      }
    case Finish(id, started, error, saved) => FinishKeeps(tick, w, id, started, error, saved);
    case Add(id, schedule, saved) => AddKeeps(tick, w, id, schedule, saved);
    case Remove(id, saved) => RemoveKeeps(tick, w, id, saved);
    case Switch(id, enabled, saved) => SwitchKeeps(tick, w, id, enabled, saved);
    case Start(loaded, saved) =>
      if !w.running {
        StartKeeps(tick, w, loaded, saved);
      }
    case Stop => IdleKeeps(tick, w, Next(tick, w, a));
    case Crash(_) => IdleKeeps(tick, w, Next(tick, w, a));
  }

  lemma {:induction false} RunKeeps(tick: Tick, actions: seq<Action>)
    requires Forward(tick) && IsRun(tick, actions)
    ensures Invariant(tick, WorldAfter(tick, actions))
    decreases |actions|
  {
    hide Next, Enabled, Forward;
    if actions == [] {
    } else {
      RunKeeps(tick, actions[..|actions| - 1]);
      StepKeeps(tick, WorldAfter(tick, actions[..|actions| - 1]), actions[|actions| - 1]);
    }
  }

  // ----- the promises

  lemma ClaimsApart(tick: Tick, w: World, i: nat, j: nat)
    requires Invariant(tick, w) && i < j < |w.claims| && w.claims[i].id == w.claims[j].id
    ensures w.claims[i].id in w.born && Spaced(w.born[w.claims[i].id], w.claims[i], w.claims[j].due)
    ensures !w.born[w.claims[i].id].At?
  {
    assert w.claims[i] in w.claims;
  }

  /** With distinct ids, a due job is claimed once and no other id is. */
  lemma {:induction false} DueOnce(jobs: seq<Job>, now: int)
    requires DistinctIds(jobs)
    ensures forall job :: job in jobs ==>
      multiset(DueIds(jobs, now))[job.id] ==
        if job.enabled && job.nextRun.Some? && job.nextRun.value <= now then 1 else 0
    decreases |jobs|
  {
    if jobs == [] {
    } else {
      var most, last := jobs[..|jobs| - 1], jobs[|jobs| - 1];
      assert jobs == most + [last];
      DueOnce(most, now);
      DueIdsSpec(most, now);
      forall job | job in most ensures job.id != last.id {
        var k :| 0 <= k < |most| && most[k] == job;
        assert jobs[k] == job;
      }
      hide IsDue;
      assert multiset(DueIds(jobs, now)) == multiset(DueIds(most, now)) + multiset(if IsDue(last, now) then [last.id] else []);
      assert last.id !in DueIds(most, now);
    }
  }

  ghost predicate WasDue(jobs: seq<Job>, id: string, due: int, now: int) {
    exists job :: job in jobs && job.id == id && job.enabled && job.nextRun == Some(due) && due <= now
  }

  /**
   At every point of a run, a check of the running service claims every enabled job whose next run has come, once and at
   the clock; no such job is left; the other jobs keep their next run.
   */
  lemma CheckClaimsAllDue(tick: Tick, actions: seq<Action>, saved: bool)
    requires Forward(tick) && IsRun(tick, actions) && WorldAfter(tick, actions).running
    ensures var w, w' := WorldAfter(tick, actions), WorldAfter(tick, actions + [Check(saved)]);
      && w'.clock == w.clock && |w'.jobs| == |w.jobs|
      && (forall job :: job in w'.jobs && job.enabled && job.nextRun.Some? ==> w.clock < job.nextRun.value)
      && (forall job :: job in w.jobs && job.enabled && job.nextRun.Some? && job.nextRun.value <= w.clock ==>
            && Claim(job.id, job.nextRun.value, w.clock) in w'.claims
            && w'.pending[job.id] == w.pending[job.id] + 1 && job.(nextRun := None) in w'.jobs)
      && (forall job :: job in w.jobs && !(job.enabled && job.nextRun.Some? && job.nextRun.value <= w.clock) ==>
            w'.pending[job.id] == w.pending[job.id] && job in w'.jobs)
      && (forall c :: c in w'.claims ==> c in w.claims || (c.at == w.clock && WasDue(w.jobs, c.id, c.due, w.clock)))
      && w.claims <= w'.claims
  {
    hide IsRun, Forward, WorldAfter, DueIds, ClaimsOf;
    RunKeeps(tick, actions);
    var w := WorldAfter(tick, actions);
    assert (actions + [Check(saved)])[..|actions|] == actions;
    var w' := WorldAfter(tick, actions + [Check(saved)]);
    assert w' == Next(tick, w, Check(saved)) by { LastAction(tick, actions, Check(saved)); }
    DueIdsSpec(w.jobs, w.clock);
    DueOnce(w.jobs, w.clock);
    ClaimsOfSpec(w.jobs, w.clock);
    forall k | 0 <= k < |w.jobs| ensures w'.jobs[k] ==
        if w.jobs[k].enabled && w.jobs[k].nextRun.Some? && w.jobs[k].nextRun.value <= w.clock
        then w.jobs[k].(nextRun := None) else w.jobs[k] {
      assert w.jobs[k] in w.jobs;
      OnlyThatJob(w.jobs, w.clock, k);
    }
  }

  lemma LastAction(tick: Tick, actions: seq<Action>, a: Action)
    ensures WorldAfter(tick, actions + [a]) == Next(tick, WorldAfter(tick, actions), a)
  {
    hide Next;
    assert (actions + [a])[..|actions|] == actions;
  }

  lemma OnlyThatJob(jobs: seq<Job>, now: int, k: nat)
    requires DistinctIds(jobs) && k < |jobs|
    ensures jobs[k].id in DueIds(jobs, now) <==>
      jobs[k].enabled && jobs[k].nextRun.Some? && jobs[k].nextRun.value <= now
  {
    DueIdsSpec(jobs, now);
    if jobs[k].id in DueIds(jobs, now) {
      var job :| job in jobs && job.id == jobs[k].id && job.enabled && job.nextRun.Some? && job.nextRun.value <= now;
      var i :| 0 <= i < |jobs| && jobs[i] == job;
    }
  }

  /** An enabled job with a next run is claimed by a check after a wait exactly when the wait reaches that time. */
  lemma ClaimedExactly(tick: Tick, actions: seq<Action>, job: Job, ms: nat, saved: bool)
    requires Forward(tick) && IsRun(tick, actions) && WorldAfter(tick, actions).running
    requires job in WorldAfter(tick, actions).jobs && job.enabled && job.nextRun.Some?
    ensures var w, w' := WorldAfter(tick, actions), WorldAfter(tick, actions + [Wait(ms), Check(saved)]);
      w'.pending[job.id] == w.pending[job.id] + if job.nextRun.value <= w.clock + ms then 1 else 0
  {
    hide Forward, WorldAfter;
    var waited := actions + [Wait(ms)];
    assert waited[..|actions|] == actions;
    LastAction(tick, actions, Wait(ms));
    CheckClaimsAllDue(tick, waited, saved);
    assert waited + [Check(saved)] == actions + [Wait(ms), Check(saved)];
  }

  /** When a schedule comes next after `now`; the cron library answers for its own expressions. */
  ghost predicate ComesNext(tick: Tick, schedule: Schedule, now: int, next: Option<int>) {
    && (forall t :: schedule == At(Some(t)) && now < t ==> next == Some(t))
    && (forall t :: schedule == At(Some(t)) && t <= now ==> next == None)
    && (forall period :: schedule == Every(Some(period)) && 0 < period ==> next == Some(now + period))
    && (forall period :: schedule == Every(Some(period)) && period <= 0 ==> next == None)
    && (schedule == At(None) || schedule == Every(None) || schedule == CronExpr("") || schedule == Unknown ==> next == None)
    && (forall expr :: schedule == CronExpr(expr) && expr != "" ==> next == tick(expr, now))
  }

  /** What is noted about the execution of a job in whatever else happens to it. */
  predicate Noted(job: Job, was: Job, started: int, error: Option<string>, now: int) {
    && job.id == was.id && job.schedule == was.schedule && job.deleteAfterRun == was.deleteAfterRun
    && job.lastRun == Some(started) && job.lastError == error && job.updated == now
  }

  /**
   At every point of a run, a finished execution removes an `at` job that is deleted after its run, disables any other `at`
   job, gives every other job its next run from now, and leaves all other jobs alone.
   */
  lemma FinishReschedules(tick: Tick, actions: seq<Action>, id: string, started: int, error: Option<string>, saved: bool)
    requires Forward(tick) && IsRun(tick, actions)
    ensures var w, w' := WorldAfter(tick, actions), WorldAfter(tick, actions + [Finish(id, started, error, saved)]);
      && (forall job: Job :: job.id != id ==> (job in w'.jobs <==> job in w.jobs))
      && (forall job :: job in w'.jobs && job.id == id ==>
            exists was :: was in w.jobs && Noted(job, was, started, error, w.clock) && !(was.schedule.At? && was.deleteAfterRun))
      && (forall was :: was in w.jobs && was.id == id && !(was.schedule.At? && was.deleteAfterRun) ==>
            exists job :: job in w'.jobs && Noted(job, was, started, error, w.clock) &&
              if was.schedule.At? then !job.enabled && job.nextRun == None
              else job.enabled == was.enabled && ComesNext(tick, was.schedule, w.clock, job.nextRun))
      && w'.clock == w.clock && w'.running == w.running
      && w'.pending == w.pending - multiset{id}
  {
    hide IsRun, Forward, WorldAfter, Invariant;
    RunKeeps(tick, actions);
    var w := WorldAfter(tick, actions);
    LastAction(tick, actions, Finish(id, started, error, saved));
    DistinctFromInvariant(tick, w);
    FinishedSpec(tick, w.jobs, id, started, error, w.clock);
  }

  lemma NextRunComesNext(tick: Tick, schedule: Schedule, now: int)
    ensures ComesNext(tick, schedule, now, NextRun(tick, schedule, now))
  {
  }

  lemma FinishedSpec(tick: Tick, jobs: seq<Job>, id: string, started: int, error: Option<string>, now: int)
    requires DistinctIds(jobs)
    ensures var jobs' := Finished(tick, jobs, id, started, error, now);
      && (forall job: Job :: job.id != id ==> (job in jobs' <==> job in jobs))
      && (forall job :: job in jobs' && job.id == id ==>
            exists was :: was in jobs && Noted(job, was, started, error, now) && !(was.schedule.At? && was.deleteAfterRun))
      && (forall was :: was in jobs && was.id == id && !(was.schedule.At? && was.deleteAfterRun) ==>
            exists job :: job in jobs' && Noted(job, was, started, error, now) &&
              if was.schedule.At? then !job.enabled && job.nextRun == None
              else job.enabled == was.enabled && ComesNext(tick, was.schedule, now, job.nextRun))
  {
    hide ComesNext, NextRun;
    var jobs' := Finished(tick, jobs, id, started, error, now);
    var i := Find(jobs, id);
    if i < |jobs| && !(jobs[i].schedule.At? && jobs[i].deleteAfterRun) {
      NextRunComesNext(tick, jobs[i].schedule, now);
      assert jobs'[i] in jobs' && jobs[i] in jobs && Noted(jobs'[i], jobs[i], started, error, now);
      assert forall k :: 0 <= k < |jobs| && k != i ==> jobs'[k] == jobs[k] && jobs[k].id != id;
    } else if i < |jobs| {
      assert forall k :: 0 <= k < |jobs| && k != i ==> jobs[k].id != id;
    }
  }

  ghost predicate IsNew(tick: Tick, job: Job, id: string, schedule: Schedule, now: int) {
    && job.id == id && job.schedule == schedule && job.enabled && job.lastRun == None && job.updated == now
    && job.deleteAfterRun == schedule.At? && ComesNext(tick, schedule, now, job.nextRun)
  }

  /** Adding, switching and starting compute the next run from the clock; switching off clears it; removing only removes. */
  lemma StepSchedules(tick: Tick, w: World, a: Action)
    requires Invariant(tick, w)
    ensures var w' := Next(tick, w, a);
      && (a.Start? && w'.running && !w.running ==> forall job :: job in w'.jobs && job.enabled ==>
            ComesNext(tick, job.schedule, w.clock, job.nextRun))
      && (a.Switch? ==> forall job :: job in w'.jobs && job.id == a.id ==>
            job.enabled == a.enabled &&
            if a.enabled then ComesNext(tick, job.schedule, w.clock, job.nextRun) else job.nextRun == None)
      && (a.Switch? || a.Remove? ==> forall job: Job :: job.id != a.id ==> (job in w'.jobs <==> job in w.jobs))
      && (a.Remove? ==> forall job: Job :: job in w'.jobs ==> job.id != a.id)
      && (a.Add? ==> |w'.jobs| == |w.jobs| + 1 && w.jobs <= w'.jobs)
      && (a.Add? ==> IsNew(tick, w'.jobs[|w.jobs|], a.id, a.schedule, w.clock))
  {
    hide Invariant, ComesNext, NextRun;
    var w' := Next(tick, w, a);
    match a
    case Start(_, _) =>
      forall job | job in w'.jobs && job.enabled && w'.running && !w.running
        ensures ComesNext(tick, job.schedule, w.clock, job.nextRun)
      {
        NextRunComesNext(tick, job.schedule, w.clock);
      }
    case Switch(id, enabled, _) =>
      DistinctFromInvariant(tick, w);
      SwitchedSpec(tick, w.jobs, id, enabled, w.clock);
    case Add(id, schedule, _) =>
      NextRunComesNext(tick, schedule, w.clock);
      assert w'.jobs == w.jobs + [NewJob(tick, id, schedule, w.clock)];
    case _ =>
  }

  lemma SwitchedSpec(tick: Tick, jobs: seq<Job>, id: string, enabled: bool, now: int)
    requires DistinctIds(jobs)
    ensures var jobs' := Switched(tick, jobs, id, enabled, now);
      && (forall job :: job in jobs' && job.id == id ==>
            job.enabled == enabled && if enabled then ComesNext(tick, job.schedule, now, job.nextRun) else job.nextRun == None)
      && (forall job: Job :: job.id != id ==> (job in jobs' <==> job in jobs))
  {
    hide ComesNext, NextRun;
    var jobs' := Switched(tick, jobs, id, enabled, now);
    var i := Find(jobs, id);
    if i < |jobs| {
      NextRunComesNext(tick, jobs[i].schedule, now);
      assert forall k :: 0 <= k < |jobs| && k != i ==> jobs'[k] == jobs[k] && jobs[k].id != id;
      assert jobs'[i].id == id;
    }
  }

  /** An `every` job whose execution has finished is claimed again by the check that comes a period later, and by none before. */
  lemma EveryJobComesBack(
    tick: Tick, actions: seq<Action>, id: string, started: int, error: Option<string>, job: Job, ms: nat, saved: bool, saved': bool)
    requires Forward(tick) && IsRun(tick, actions) && WorldAfter(tick, actions).running
    requires id in WorldAfter(tick, actions).pending
    requires job in WorldAfter(tick, actions).jobs && job.id == id && job.enabled
    requires job.schedule.Every? && job.schedule.every.Some? && job.schedule.every.value > 0
    ensures var w := WorldAfter(tick, actions);
      var w' := WorldAfter(tick, actions + [Finish(id, started, error, saved), Wait(ms), Check(saved')]);
      w'.pending[id] == w.pending[id] - 1 + if job.schedule.every.value <= ms then 1 else 0
  {
    hide *;
    var finished := actions + [Finish(id, started, error, saved)];
    RunGrows(tick, actions, Finish(id, started, error, saved));
    var next := EveryRescheduled(tick, actions, id, started, error, job, saved);
    ClaimedExactly(tick, finished, next, ms, saved');
    assert finished + [Wait(ms), Check(saved')] == actions + [Finish(id, started, error, saved), Wait(ms), Check(saved')];
  }

  lemma RunGrows(tick: Tick, actions: seq<Action>, a: Action)
    requires IsRun(tick, actions) && (a.Finish? ==> a.id in WorldAfter(tick, actions).pending) && !a.Add?
    ensures IsRun(tick, actions + [a])
  {
    hide WorldAfter;
    assert (actions + [a])[..|actions|] == actions;
  }

  lemma EveryRescheduled(tick: Tick, actions: seq<Action>, id: string, started: int, error: Option<string>, job: Job, saved: bool)
    returns (next: Job)
    requires Forward(tick) && IsRun(tick, actions)
    requires job in WorldAfter(tick, actions).jobs && job.id == id
    requires job.schedule.Every? && job.schedule.every.Some? && job.schedule.every.value > 0
    ensures var w, w' := WorldAfter(tick, actions), WorldAfter(tick, actions + [Finish(id, started, error, saved)]);
      && next in w'.jobs && next.id == id && next.enabled == job.enabled
      && next.nextRun == Some(w.clock + job.schedule.every.value)
      && w'.clock == w.clock && w'.running == w.running && w'.pending == w.pending - multiset{id}
  {
    hide Forward, WorldAfter, IsRun;
    FinishReschedules(tick, actions, id, started, error, saved);
    var w := WorldAfter(tick, actions);
    next :| next in WorldAfter(tick, actions + [Finish(id, started, error, saved)]).jobs
      && Noted(next, job, started, error, w.clock)
      && next.enabled == job.enabled && ComesNext(tick, job.schedule, w.clock, next.nextRun);
  }

  /** In every run an `at` job is claimed at most once, at its time or later. */
  lemma AtJobsRunOnce(tick: Tick, actions: seq<Action>, i: nat, j: nat)
    requires Forward(tick) && IsRun(tick, actions)
    requires var w := WorldAfter(tick, actions);
      && i < |w.claims| && j < |w.claims| && w.claims[i].id == w.claims[j].id
      && w.claims[i].id in w.born && w.born[w.claims[i].id].At?
    ensures i == j && WorldAfter(tick, actions).born[WorldAfter(tick, actions).claims[i].id].at.Some?
    ensures WorldAfter(tick, actions).claims[i].at >= WorldAfter(tick, actions).born[WorldAfter(tick, actions).claims[i].id].at.value
  {
    hide WorldAfter, IsRun, Forward, ClaimsSpaced;
    RunKeeps(tick, actions);
    var w := WorldAfter(tick, actions);
    assert w.claims[i] in w.claims;
    if i < j {
      ClaimsApart(tick, w, i, j);
    } else if j < i {
      ClaimsApart(tick, w, j, i);
    }
  }

  /** In every run two claims of an `every` job are at least its period apart, and due times strictly increase. */
  lemma EveryJobsKeepTheirPeriod(tick: Tick, actions: seq<Action>, i: nat, j: nat)
    requires Forward(tick) && IsRun(tick, actions)
    requires var w := WorldAfter(tick, actions); i < j < |w.claims| && w.claims[i].id == w.claims[j].id
    ensures var w := WorldAfter(tick, actions);
      && w.claims[i].id in w.born && w.claims[i].due < w.claims[j].due && w.claims[i].at < w.claims[j].at
      && (w.born[w.claims[i].id].Every? && w.born[w.claims[i].id].every.Some? ==>
            w.claims[j].at - w.claims[i].at >= w.born[w.claims[i].id].every.value)
  {
    hide WorldAfter, IsRun, Forward;
    RunKeeps(tick, actions);
    var w := WorldAfter(tick, actions);
    assert w.claims[i] in w.claims && w.claims[j] in w.claims;
    assert Spaced(w.born[w.claims[i].id], w.claims[i], w.claims[j].due);
  }

  /** In every run, while the service runs, no enabled recurring job is left without a next run or a pending execution. */
  lemma NoJobIsStranded(tick: Tick, actions: seq<Action>, job: Job)
    requires Forward(tick) && IsRun(tick, actions)
    requires WorldAfter(tick, actions).running && job in WorldAfter(tick, actions).jobs
    requires job.enabled && Recurring(tick, job.schedule)
    ensures job.nextRun.Some? || job.id in WorldAfter(tick, actions).pending
  {
    RunKeeps(tick, actions);
  }
}
