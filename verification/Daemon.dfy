/** The daemon's guards as code: the job table under its lock, the count of launches in flight and the mirror of the
    running games. Each call is a step of the system in module Admission. */
module Daemon {
  import opened Wrappers
  import opened Admission

  datatype DepJob = DepJob(prefix: string, depId: string, install: bool)

  datatype Refusal = ProgramRuns | GameRuns | TooManyJobs | JobRuns | LaunchRuns

  class Manager {
    var depJobs: map<string, DepJob>
    var launchesInFlight: nat
    var programs: set<nat>
    var anyGameRunning: bool
    var publishedSeq: nat
    ghost var now: State

    ghost predicate Valid()
      reads this
    {
      && depJobs.Keys == now.jobs && launchesInFlight == |now.flights| && programs == now.programs
      && anyGameRunning == now.mirror && publishedSeq == now.publishedSeq && now.look.Idle?
    }

    /** What startup leaves: the games kept in the registry, published or, when reconciling failed, not. */
    constructor (kept: set<nat>, adopted: set<nat>, published: bool)
      ensures Valid() && Initial(now) && now.live == kept && programs == adopted
      ensures anyGameRunning <==> published && kept != {}
    {
      depJobs, launchesInFlight, programs, publishedSeq := map[], 0, adopted, 0;
      anyGameRunning := published && kept != {};
      now := State({}, map[], kept, kept, adopted, 0, 0, map[], map[], published && kept != {}, Idle);
    }

    /** Takes the guard of a launch, unless a job runs. */
    method BeginLaunch(ghost flight: nat) returns (refusal: Option<Refusal>)
      requires Valid() && flight !in now.flights
      modifies this
      ensures Valid()
      ensures refusal == if old(depJobs) == map[] then None else Some(JobRuns)
      ensures if refusal.None? then IsStep(old(now), Begin(flight), now) else now == old(now)
    {
      if |depJobs| != 0 {
        assert depJobs != map[];
        return Some(JobRuns);
      }
      assert now.jobs == {};
      assert now.flights[flight := Starting].Keys == now.flights.Keys + {flight};
      launchesInFlight := launchesInFlight + 1;
      now := Apply(now, Begin(flight));
      refusal := None;
    }

    /** The first part of running a program: its guard too, unless a launch has one. */
    method BeginProgram(ghost flight: nat) returns (refusal: Option<Refusal>)
      requires Valid() && flight !in now.flights
      modifies this
      ensures Valid()
      ensures refusal ==
        if old(depJobs) != map[] then Some(JobRuns) else if old(launchesInFlight) > 0 then Some(LaunchRuns) else None
      ensures if refusal.None? then IsStep(old(now), Begin(flight), now) else now == old(now)
    {
      if |depJobs| != 0 {
        assert depJobs != map[];
        return Some(JobRuns);
      }
      if launchesInFlight > 0 {
        return Some(LaunchRuns);
      }
      refusal := BeginLaunch(flight);
    }

    /** Drops a guard. */
    method EndLaunch(ghost flight: nat)
      requires Valid() && Enabled(now, End(flight))
      modifies this
      ensures Valid() && IsStep(old(now), End(flight), now)
    {
      assert now.flights.Keys == (now.flights - {flight}).Keys + {flight};
      launchesInFlight := launchesInFlight - 1;
      now := Apply(now, End(flight));
    }

    /** Check and insert under the table's lock: what a job's admission refuses, in its order, and when it takes one. */
    method AdmitJob(jobId: string, job: DepJob) returns (refusal: Option<Refusal>)
      requires Valid() && jobId !in depJobs
      modifies this
      ensures Valid()
      ensures refusal ==
        if old(programs) != {} then Some(ProgramRuns)
        else if old(anyGameRunning) || old(launchesInFlight) > 0 then Some(GameRuns)
        else if |old(depJobs)| >= MAX_DEP_JOBS then Some(TooManyJobs) else None
      ensures if refusal.None? then IsStep(old(now), Admit(jobId), now) && depJobs == old(depJobs)[jobId := job]
              else now == old(now) && depJobs == old(depJobs)
    {
      if programs != {} {
        return Some(ProgramRuns);
      }
      if anyGameRunning || launchesInFlight > 0 {
        return Some(GameRuns);
      }
      assert |depJobs| == |depJobs.Keys|;
      if |depJobs| >= MAX_DEP_JOBS {
        return Some(TooManyJobs);
      }
      assert now.flights == map[];
      depJobs := depJobs[jobId := job];
      now := Apply(now, Admit(jobId));
      refusal := None;
    }

    /** A job's guard takes its entry out of the table, however the job ended. */
    method FinishJob(jobId: string)
      requires Valid() && jobId in depJobs
      modifies this
      ensures Valid() && IsStep(old(now), Finish(jobId), now) && depJobs == old(depJobs) - {jobId}
    {
      depJobs := depJobs - {jobId};
      now := Apply(now, Finish(jobId));
    }

    /** Publishes what a pass read, unless a newer set was published. */
    method PublishSessionsSeq(active: set<nat>, seqNo: nat)
      requires Valid() && seqNo in now.passes && now.passes[seqNo] == active
      modifies this
      ensures Valid() && IsStep(old(now), Publish(seqNo), now)
      ensures publishedSeq == if seqNo <= old(publishedSeq) then old(publishedSeq) else seqNo
      ensures anyGameRunning == if seqNo <= old(publishedSeq) then old(anyGameRunning) else active != {}
    {
      now := Apply(now, Publish(seqNo));
      if publishedSeq >= seqNo {
        return;
      }
      publishedSeq := seqNo;
      anyGameRunning := active != {};
    }

    /** What the monitor does at its third error in a row. */
    method PublishNothing()
      requires Valid()
      modifies this
      ensures Valid() && IsStep(old(now), Clear, now) && !anyGameRunning
    {
      anyGameRunning := false;
      now := Apply(now, Clear);
    }
  }
}
