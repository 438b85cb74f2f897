/**
 The cron service: due jobs are claimed under the lock, run outside it, and rescheduled under the lock again.
 Times are milliseconds; the cron-expression library is a function from an expression and a time to the next tick.
 */
module Cron {
  import opened Basics

  datatype Schedule = At(at: Option<int>) | Every(every: Option<int>) | CronExpr(expr: string) | Unknown

  datatype Job = Job(
    id: string,
    enabled: bool,
    schedule: Schedule,
    nextRun: Option<int>,
    lastRun: Option<int>,
    lastError: Option<string>,
    updated: int,
    deleteAfterRun: bool)

  type Tick = (string, int) -> Option<int>

  // ----- scheduling

  /** The next time a schedule is due after `now`. */
  function NextRun(tick: Tick, schedule: Schedule, now: int): Option<int> {
    match schedule
    case At(at) => if at.Some? && at.value > now then at else None
    case Every(every) => if every.None? || every.value <= 0 then None else Some(now + every.value)
    case CronExpr(expr) => if expr == "" then None else tick(expr, now)
    case Unknown => None
  }

  predicate IsDue(job: Job, now: int) { job.enabled && job.nextRun.Some? && job.nextRun.value <= now }

  // ----- the job list

  function DueIds(jobs: seq<Job>, now: int): seq<string> {
    if jobs == [] then []
    else DueIds(jobs[..|jobs| - 1], now) + if IsDue(jobs[|jobs| - 1], now) then [jobs[|jobs| - 1].id] else []
  }

  /** Exactly the ids of enabled jobs whose next run has come. */
  lemma {:induction false} DueIdsSpec(jobs: seq<Job>, now: int)
    ensures forall id :: id in DueIds(jobs, now) <==>
      exists job :: job in jobs && job.id == id && job.enabled && job.nextRun.Some? && job.nextRun.value <= now
    decreases |jobs|
  {
    if jobs == [] {
    } else {
      DueIdsSpec(jobs[..|jobs| - 1], now);
      assert jobs == jobs[..|jobs| - 1] + [jobs[|jobs| - 1]];
    }
  }

  /** The due jobs lose their next run. */
  function Claimed(jobs: seq<Job>, ids: set<string>): (r: seq<Job>)
    ensures |r| == |jobs|
    ensures forall i :: 0 <= i < |jobs| ==> r[i] == if jobs[i].id in ids then jobs[i].(nextRun := None) else jobs[i]
  {
    if jobs == [] then []
    else
      var job := jobs[|jobs| - 1];
      Claimed(jobs[..|jobs| - 1], ids) + [if job.id in ids then job.(nextRun := None) else job]
  }

  /** The index of the first job with this id, or the number of jobs. */
  function Find(jobs: seq<Job>, id: string): (i: nat)
    ensures i <= |jobs| && (i < |jobs| ==> jobs[i].id == id) && forall k :: 0 <= k < i ==> jobs[k].id != id
  {
    if jobs == [] then 0
    else if Find(jobs[..|jobs| - 1], id) < |jobs| - 1 then Find(jobs[..|jobs| - 1], id)
    else if jobs[|jobs| - 1].id == id then |jobs| - 1
    else |jobs|
  }

  function Without(jobs: seq<Job>, id: string): (r: seq<Job>)
    ensures forall job :: job in r <==> job in jobs && job.id != id
    ensures |r| <= |jobs|
  {
    if jobs == [] then []
    else Without(jobs[..|jobs| - 1], id) + if jobs[|jobs| - 1].id == id then [] else [jobs[|jobs| - 1]]
  }

  function Rescheduled(tick: Tick, jobs: seq<Job>, now: int): (r: seq<Job>)
    ensures |r| == |jobs|
    ensures forall i :: 0 <= i < |jobs| ==>
      r[i] == if jobs[i].enabled then jobs[i].(nextRun := NextRun(tick, jobs[i].schedule, now)) else jobs[i]
  {
    if jobs == [] then []
    else
      var job := jobs[|jobs| - 1];
      Rescheduled(tick, jobs[..|jobs| - 1], now)
      + [if job.enabled then job.(nextRun := NextRun(tick, job.schedule, now)) else job]
  }

  /** The job list after the run of `id` that started at `started` has ended. */
  function Finished(tick: Tick, jobs: seq<Job>, id: string, started: int, error: Option<string>, now: int): seq<Job> {
    var i := Find(jobs, id);
    if i == |jobs| then jobs
    else
      var job := jobs[i].(lastRun := Some(started), updated := now, lastError := error);
      if job.schedule.At? then
        if job.deleteAfterRun then Without(jobs, id)
        else jobs[i := job.(enabled := false, nextRun := None)]
      else jobs[i := job.(nextRun := NextRun(tick, job.schedule, now))]
  }

  function Switched(tick: Tick, jobs: seq<Job>, id: string, enabled: bool, now: int): seq<Job> {
    var i := Find(jobs, id);
    if i == |jobs| then jobs
    else
      jobs[i := jobs[i].(enabled := enabled, updated := now,
                         nextRun := if enabled then NextRun(tick, jobs[i].schedule, now) else None)]
  }

  function NewJob(tick: Tick, id: string, schedule: Schedule, now: int): Job {
    Job(id, true, schedule, NextRun(tick, schedule, now), None, None, now, schedule.At?)
  }

  // ----- the service as it runs

  /** `disk` is the store file. Writing it may fail (`saved` is false); the failure is only logged. */
  class CronService {
    const tick: Tick
    var jobs: seq<Job>
    var disk: seq<Job>
    var running: bool

    /** A store file that cannot be read leaves the new service without jobs. */
    constructor (tick: Tick, disk: seq<Job>, loaded: bool)
      ensures this.tick == tick && jobs == (if loaded then disk else []) && this.disk == disk && !running
    {
      this.tick, this.disk, jobs, running := tick, disk, if loaded then disk else [], false;
    }

    method SaveStore(saved: bool)
      modifies this`disk
      ensures disk == if saved then jobs else old(disk)
    {
      if saved {
        disk := jobs;
      }
    }

    method RecomputeNextRuns(now: int)
      modifies this`jobs
      ensures jobs == Rescheduled(tick, old(jobs), now)
    {
      for i := 0 to |jobs|
        invariant |jobs| == |old(jobs)|
        invariant jobs[..i] == Rescheduled(tick, old(jobs)[..i], now) && jobs[i..] == old(jobs)[i..]
      {
        assert old(jobs)[..i + 1][..i] == old(jobs)[..i];
        var job := jobs[i];
        assert job == jobs[i..][0] == old(jobs)[i];
        if job.enabled {
          job := job.(nextRun := NextRun(tick, job.schedule, now));
        }
        jobs := jobs[i := job];
      }
      assert jobs[..|jobs|] == jobs && old(jobs)[..|jobs|] == old(jobs);
    }

    method Start(now: int, loaded: bool, saved: bool) returns (ok: bool)
      modifies this
      ensures old(running) ==> ok && running && jobs == old(jobs) && disk == old(disk)
      ensures !old(running) ==> ok == running == (loaded && saved)
      ensures !old(running) ==> jobs == if loaded then Rescheduled(tick, old(disk), now) else []
      ensures !old(running) ==> disk == if loaded && saved then jobs else old(disk)
    {
      if running {
        return true;
      }
      if !loaded {
        jobs := [];
        return false;
      }
      jobs := disk;
      RecomputeNextRuns(now);
      SaveStore(saved);
      if !saved {
        return false;
      }
      running := true;
      return true;
    }

    method Stop()
      modifies this`running
      ensures !running
    {
      running := false;
    }

    /** The part of a check that runs under the lock: which jobs are due, and that they are claimed. */
    method ClaimDueJobs(now: int, saved: bool) returns (dueJobIDs: seq<string>)
      modifies this
      ensures running == old(running)
      ensures !running ==> dueJobIDs == [] && jobs == old(jobs) && disk == old(disk)
      ensures running ==>
        && dueJobIDs == DueIds(old(jobs), now)
        && jobs == Claimed(old(jobs), set id | id in dueJobIDs)
        && disk == if saved then jobs else old(disk)
      ensures running ==> forall id :: id in dueJobIDs <==>
        exists job :: job in old(jobs) && job.id == id && job.enabled && job.nextRun.Some? && job.nextRun.value <= now
    {
      dueJobIDs := [];
      DueIdsSpec(jobs, now);
      if !running {
        return;
      }
      for i := 0 to |jobs|
        invariant dueJobIDs == DueIds(jobs[..i], now)
      {
        assert jobs[..i + 1][..i] == jobs[..i];
        var job := jobs[i];
        if job.enabled && job.nextRun.Some? && job.nextRun.value <= now {
          dueJobIDs := dueJobIDs + [job.id];
        }
      }
      assert jobs[..|jobs|] == jobs;
      var dueMap := set id | id in dueJobIDs;
      ResetNextRuns(dueMap);
      SaveStore(saved);
    }

    method ResetNextRuns(dueMap: set<string>)
      modifies this`jobs
      ensures jobs == Claimed(old(jobs), dueMap)
    {
      for i := 0 to |jobs|
        invariant |jobs| == |old(jobs)|
        invariant jobs[..i] == Claimed(old(jobs)[..i], dueMap) && jobs[i..] == old(jobs)[i..]
      {
        assert old(jobs)[..i + 1][..i] == old(jobs)[..i];
        assert jobs[i] == jobs[i..][0] == old(jobs)[i];
        var job := jobs[i];
        if job.id in dueMap {
          job := job.(nextRun := None);
        }
        jobs := jobs[i := job];
      }
      assert jobs[..|jobs|] == jobs && old(jobs)[..|jobs|] == old(jobs);
    }

    method FindJob(jobID: string) returns (i: nat)
      ensures i == Find(jobs, jobID)
    {
      i := 0;
      while i < |jobs| && jobs[i].id != jobID
        invariant i <= |jobs| && forall k :: 0 <= k < i ==> jobs[k].id != jobID
      {
        i := i + 1;
      }
    }

    /** The part of an execution that runs under the lock after the job's handler has returned. */
    method FinishJob(jobID: string, startTime: int, error: Option<string>, now: int, saved: bool)
      modifies this`jobs, this`disk
      ensures jobs == Finished(tick, old(jobs), jobID, startTime, error, now)
      ensures disk == if saved && Find(old(jobs), jobID) < |old(jobs)| then jobs else old(disk)
    {
      var i := FindJob(jobID);
      if i == |jobs| {
        return;
      }
      jobs := jobs[i := jobs[i].(lastRun := Some(startTime), updated := now, lastError := error)];
      if jobs[i].schedule.At? {
        if jobs[i].deleteAfterRun {
          ghost var before := old(jobs);
          WithoutUpdated(before, jobID, i, jobs[i]);
          var removed := RemoveJob(jobID, saved);
        } else {
          jobs := jobs[i := jobs[i].(enabled := false, nextRun := None)];
        }
      } else {
        jobs := jobs[i := jobs[i].(nextRun := NextRun(tick, jobs[i].schedule, now))];
      }
      SaveStore(saved);
    }

    /** A job whose save failed is reported as an error but stays in the list. */
    method AddJob(id: string, schedule: Schedule, now: int, saved: bool) returns (added: Option<Job>)
      modifies this`jobs, this`disk
      ensures added == if saved then Some(NewJob(tick, id, schedule, now)) else None
      ensures jobs == old(jobs) + [NewJob(tick, id, schedule, now)]
      ensures disk == if saved then jobs else old(disk)
    {
      var deleteAfterRun := schedule.At?;
      var job := Job(id, true, schedule, NextRun(tick, schedule, now), None, None, now, deleteAfterRun);
      jobs := jobs + [job];
      SaveStore(saved);
      added := if saved then Some(job) else None;
    }

    method RemoveJob(jobID: string, saved: bool) returns (removed: bool)
      modifies this`jobs, this`disk
      ensures jobs == Without(old(jobs), jobID) && removed == (|jobs| < |old(jobs)|)
      ensures disk == if removed && saved then jobs else old(disk)
    {
      var before := |jobs|;
      var kept: seq<Job> := [];
      for i := 0 to |jobs|
        invariant jobs == old(jobs) && disk == old(disk) && kept == Without(jobs[..i], jobID)
      {
        assert jobs[..i + 1][..i] == jobs[..i];
        if jobs[i].id != jobID {
          kept := kept + [jobs[i]];
        }
      }
      assert jobs[..|jobs|] == jobs;
      jobs := kept;
      removed := |jobs| < before;
      if removed {
        SaveStore(saved);
      }
    }

    method EnableJob(jobID: string, enabled: bool, now: int, saved: bool) returns (changed: Option<Job>)
      modifies this`jobs, this`disk
      ensures changed == if Find(old(jobs), jobID) < |jobs| then Some(jobs[Find(old(jobs), jobID)]) else None
      ensures jobs == Switched(tick, old(jobs), jobID, enabled, now)
      ensures disk == if saved && Find(old(jobs), jobID) < |old(jobs)| then jobs else old(disk)
    {
      var i := FindJob(jobID);
      if i == |jobs| {
        return None;
      }
      var job := jobs[i].(enabled := enabled, updated := now);
      if enabled {
        job := job.(nextRun := NextRun(tick, job.schedule, now));
      } else {
        job := job.(nextRun := None);
      }
      jobs := jobs[i := job];
      SaveStore(saved);
      changed := Some(job);
    }
  }

  lemma WithoutAppend(jobs: seq<Job>, job: Job, id: string)
    ensures Without(jobs + [job], id) == Without(jobs, id) + if job.id == id then [] else [job]
  {
    assert (jobs + [job])[..|jobs|] == jobs;
  }

  /** Removing a job by id does not depend on what was written into it. */
  lemma {:induction false} WithoutUpdated(jobs: seq<Job>, id: string, i: nat, job: Job)
    requires i < |jobs| && jobs[i].id == id && job.id == id
    ensures Without(jobs[i := job], id) == Without(jobs, id)
    decreases |jobs|
  {
    hide Without;
    var n := |jobs| - 1;
    var most, last := jobs[..n], jobs[n];
    assert jobs == most + [last];
    WithoutAppend(most, last, id);
    if i < n {
      assert jobs[i := job] == most[i := job] + [last];
      WithoutAppend(most[i := job], last, id);
      WithoutUpdated(most, id, i, job);
    } else {
      assert jobs[i := job] == most + [job];
      WithoutAppend(most, job, id);
    }
  }
}
