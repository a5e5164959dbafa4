/** A job thread (src/job.cpp:75-181) and one turn of the polling loop (src/master.cpp:182-228). */
module Master {
  import opened Tables
  import opened Literals
  import opened Database
  import opened Graph
  import opened TemplateCopy
  import opened CopyOrder
  import opened DomainModel
  import Engine
  import Clock

  /** The planning after both writes of a job thread. */
  function ThreadWrites(p: Planning, j: string, status: int, start: int, stop: int): Planning {
    ResultWritten(StateWritten(p, j, Running), j, Engine.Verdict(status), start, stop)
  }

  /** The planning the job was read from is there, and its name can stand in a statement. */
  predicate Writable(schemas: map<string, Schema>, t: TJob) {
    Usable(schemas, t.domain) && Literal(t.name).Some?
  }

  class Job {
    const domain: Domain
    const job: TJob
    var startTime: int
    var stopTime: int
    var returnCode: int

    constructor (d: Domain, t: TJob)
      requires t.name != "" && t.node != "" && t.cmdLine != "" && t.domain != ""
      ensures domain == d && job == t
    {
      domain, job := d, t;
      startTime, stopTime, returnCode := 0, 0, 0;
    }

    /** The writes go to the planning the job was read from, whatever planning the domain is on
        by then. Without a status the command could not be started, which counts as code 1. */
    method Run(status: Option<int>, startedAt: int, stoppedAt: int) returns (r: Outcome)
      modifies this, domain.database
      ensures job.state == Running || job.node == "" ==>
                r == Returned(false) && domain.database.schemas == old(domain.database.schemas)
      ensures job.state != Running && job.node != "" && !Writable(old(domain.database.schemas), job) ==>
                r == Thrown(ExProcessing) && domain.database.schemas == old(domain.database.schemas)
      ensures job.state != Running && job.node != "" && Writable(old(domain.database.schemas), job) ==>
                var code := if status.None? then 1 else status.value;
                && r == Returned(Engine.Success(code))
                && startTime == startedAt && stopTime == stoppedAt && returnCode == Wrap16(code)
                && domain.database.schemas == old(domain.database.schemas)[job.domain :=
                     HasTables(ThreadWrites(old(domain.database.schemas)[job.domain].plan, job.name, code,
                                            startedAt, stoppedAt))]
      ensures job.state != Running && job.node != "" && Writable(old(domain.database.schemas), job) ==>
                var code := if status.None? then 1 else status.value;
                && r == Returned(code % 0x1_0000 == 0)
                && Usable(domain.database.schemas, job.domain)
                && var before, rows := old(domain.database.schemas)[job.domain].plan.jobs,
                                       domain.database.schemas[job.domain].plan.jobs;
                   var found := Literal(job.name).value;
                   found in before ==>
                     found in rows && rows[found] == before[found].(
                       state := if code % 0x1_0000 == 0 then Succeeded else Failed,
                       startTime := Some(startedAt), stopTime := Some(stoppedAt))
    {
      ghost var code := if status.None? then 1 else status.value;
      Engine.VerdictOf(code);
      if job.state == Running {
        return Returned(false);
      }
      r := domain.UpdateJobState(job.domain, job.node, job.name, Running);
      if r != Returned(true) {
        return;
      }
      startTime := startedAt;
      returnCode := match status case Some(s) => Wrap16(s) case None => 1;
      stopTime := stoppedAt;
      var final := if returnCode == 0 then Succeeded else Failed;
      r := domain.UpdateJobResult(job.domain, job.node, job.name, final, startTime, stopTime);
      if r == Returned(true) {
        r := Returned(returnCode == 0);
      } else {
        r := Returned(false);
      }
    }
  }

  /** Run makes exactly the writes of a thread's three steps in the interleaved model. */
  lemma RunIsThreeSteps(s: Engine.State, i: nat, status: int, start: int, stop: int)
    requires i in s.threads && s.threads[i].phase == Engine.Spawned
    ensures var launched := Engine.Next(Engine.Next(s, Engine.Claim(i)), Engine.Launch(i, start));
            var e := Engine.Next(launched, Engine.Finish(i, stop, status));
            && e.plan == ThreadWrites(s.plan, s.threads[i].job, status, start, stop)
            && e.threads == s.threads[i := Engine.Thread(s.threads[i].job, Engine.Done)]
  {
  }

  /** The node a fetch is restricted to. */
  function FetchFrom(passive: bool, me: string): Option<string> {
    if passive then None else Some(me)
  }

  /** The rows of the fetch that the master turns into threads. */
  function Chosen(jobs: seq<TJob>, me: string): seq<TJob> {
    if jobs == [] then []
    else Chosen(jobs[..|jobs| - 1], me)
         + var t := jobs[|jobs| - 1]; if t.state == Waiting && t.node == me then [t] else []
  }

  lemma OneMoreJob(jobs: seq<TJob>, t: TJob)
    requires DistinctJobs(jobs) && forall u | u in jobs :: u.name != t.name
    ensures DistinctJobs(jobs + [t])
  {
  }

  lemma LastIsNew(jobs: seq<TJob>, u: TJob)
    requires jobs != [] && DistinctJobs(jobs) && u in jobs[..|jobs| - 1]
    ensures u.name != jobs[|jobs| - 1].name
  {
    var k :| 0 <= k < |jobs| - 1 && jobs[k] == u;
  }

  /** Exactly the waiting local jobs among those fetched, each once. */
  lemma {:induction false} ChosenMeaning(jobs: seq<TJob>, me: string)
    requires DistinctJobs(jobs)
    ensures forall t :: t in Chosen(jobs, me) <==> t in jobs && t.state == Waiting && t.node == me
    ensures DistinctJobs(Chosen(jobs, me))
  {
    if jobs != [] {
      var front, t := jobs[..|jobs| - 1], jobs[|jobs| - 1];
      var c := Chosen(front, me);
      assert jobs == front + [t] && c + [] == c;
      assert DistinctJobs(front);
      ChosenMeaning(front, me);
      forall u | u in c ensures u.name != t.name {
        LastIsNew(jobs, u);
      }
      OneMoreJob(c, t);
    }
  }

  /** The loop over the fetched jobs. */
  method StartThreads(jobs: seq<TJob>, me: string) returns (started: seq<TJob>)
    ensures started == Chosen(jobs, me)
  {
    started := [];
    var i := 0;
    while i < |jobs|
      invariant 0 <= i <= |jobs|
      invariant started == Chosen(jobs[..i], me)
    {
      var t := jobs[i];
      assert jobs[..i + 1][..i] == jobs[..i];
      if t.state == Waiting && t.node == me {
        started := started + [t];
      }
      i := i + 1;
    }
    assert jobs[..i] == jobs;
  }

  /** One iteration; now, second and third are its clock readings. It ends the program (alive is
      false) on any exception but ex_job, which instead skips the switch. */
  method Iterate(domain: Domain, me: string, passive: bool, now: int, second: int, third: int,
                 minute: int, skeleton: Skeleton)
    returns (started: seq<TJob>, alive: bool, ghost switched: Option<Outcome>)
    requires domain.Valid() && domain.initialStart <= now <= second <= third
    modifies domain, domain.database
    ensures domain.Valid() && domain.Template() == old(domain.Template())
    // when the iteration tries to switch, and what that does
    ensures var planning := PlanningName(domain.name, old(domain.planningStart));
            switched.Some? <==>
              && (old(domain.planningStart) <= now ==>
                    FetchGoes(old(domain.database.schemas), planning, minute, if passive then None else Some(me)))
              && Clock.NextStart(second, domain.initialStart, domain.duration) - now <= 60
    ensures domain.planningStart == if switched == Some(Returned(true))
              then Clock.NextStart(third, domain.initialStart, domain.duration) else old(domain.planningStart)
    ensures switched.None? ==> domain.database.schemas == old(domain.database.schemas)
    ensures switched.Some? ==> exists order ::
              Prepared(old(domain.database.schemas), old(domain.Template()),
                       PlanningName(domain.name, Clock.NextStart(third, domain.initialStart, domain.duration)),
                       skeleton, domain.duration, order, Write(domain.database.schemas, switched.value))
    ensures alive <==>
              && (old(domain.planningStart) <= now ==>
                    PlanningName(domain.name, old(domain.planningStart)) in old(domain.database.schemas))
              && !(switched.Some? && switched.value.Thrown? && switched.value.exception != ExJob)
    // what it starts
    ensures started != [] ==>
              && old(domain.planningStart) <= now && domain.planningStart == old(domain.planningStart)
              && Usable(old(domain.database.schemas), PlanningName(domain.name, old(domain.planningStart)))
    ensures var planning := PlanningName(domain.name, old(domain.planningStart));
            Usable(old(domain.database.schemas), planning) ==>
              var p := old(domain.database.schemas)[planning].plan;
              && (forall t | t in started ::
                    t.name in Dispatchable(p, minute, me) && t == ReadyTJob(p, planning, t.name))
              && (forall t | t in started :: FromRow(t, planning, p.jobs[t.name]) && t.state == Waiting && t.node == me)
              && DistinctJobs(started)
              && ((passive || Survives(me)) && alive
                  && old(domain.planningStart) <= now && domain.planningStart <= now
                  && FetchGoes(old(domain.database.schemas), planning, minute, if passive then None else Some(me))
                  ==> Lists(JobNames(started), Dispatchable(p, minute, me)))
  {
    started, alive, switched := [], true, None;
    var jobs := [];
    var caught := false;
    ghost var planning := PlanningName(domain.name, domain.planningStart);
    ghost var before := domain.database.schemas;
    if domain.planningStart <= now {
      var r;
      jobs, r := domain.GetReadyJobs(minute, FetchFrom(passive, me));
      if r == Thrown(ExJob) {
        caught := true;
      } else if r.Thrown? {
        alive := false;
        return;
      }
    }
    if !caught {
      var next := domain.GetNextPlanningStartTime(second);
      if next - now <= 60 {
        var r, order := domain.SwitchPlanning(third, skeleton);
        switched := Some(r);
        Clock.NextStartExact(third, domain.initialStart, domain.duration);
        if r.Thrown? && r.exception != ExJob {
          alive := false;
          return;
        }
      }
    }
    if domain.planningStart <= now {
      started := StartThreads(jobs, me);
      if Usable(before, planning) {
        ChosenStarts(before[planning].plan, planning, jobs, minute, passive, me);
      }
    }
  }

  /** In both running modes the master starts waiting local rows of the view, and all of them when
      the fetch was complete; a fetch for this node alone asks for the name the server reads. */
  lemma ChosenStarts(p: Planning, planning: string, jobs: seq<TJob>, minute: int, passive: bool, me: string)
    requires ReadsReady(p, planning, minute, FetchFrom(passive, me), jobs)
    ensures var started := Chosen(jobs, me);
            && (forall t | t in started :: t.name in Dispatchable(p, minute, me) && t == ReadyTJob(p, planning, t.name))
            && (forall t | t in started :: FromRow(t, planning, p.jobs[t.name]) && t.state == Waiting && t.node == me)
            && DistinctJobs(started)
            && (Lists(JobNames(jobs), ReadyRows(p, minute, FetchFrom(passive, me))) && (passive || Survives(me))
                ==> Lists(JobNames(started), Dispatchable(p, minute, me)))
  {
    var started := Chosen(jobs, me);
    var names := JobNames(started);
    ChosenMeaning(jobs, me);
    forall t | t in started
      ensures t.name in Dispatchable(p, minute, me) && t == ReadyTJob(p, planning, t.name)
      ensures FromRow(t, planning, p.jobs[t.name])
    {
      assert t in jobs;
      ReadyFields(p, planning, t.name);
    }
    if Lists(JobNames(jobs), ReadyRows(p, minute, FetchFrom(passive, me))) && (passive || Survives(me)) {
      forall j ensures j in names <==> j in Dispatchable(p, minute, me) {
        NamesOf(started, j);
        NamesOf(jobs, j);
      }
    }
  }

  lemma NamesOf(jobs: seq<TJob>, j: string)
    ensures j in JobNames(jobs) <==> exists t :: t in jobs && t.name == j
  {
    var names := JobNames(jobs);
    if j in names {
      var i :| 0 <= i < |jobs| && names[i] == j;
      assert jobs[i] in jobs;
    }
    if t :| t in jobs && t.name == j {
      var i :| 0 <= i < |jobs| && jobs[i] == t;
      assert names[i] == j;
    }
  }
}
