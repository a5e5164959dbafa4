/** Which job names a planning needs for each job to be handed over at most once
    (src/domain.cpp:668-672, src/master.cpp:207-220). */
module GoodNames {
  import opened Tables
  import opened Literals
  import opened Engine
  import opened Determinacy

  /** In every run, distinct threads have distinct jobs. */
  ghost predicate OnceEach(s: State, me: string) {
    forall run, i, k | Legal(s, run, me) && Twice(Exec(s, run), i, k) :: i == k
  }

  ghost predicate Twice(s: State, i: nat, k: nat) {
    i in s.threads && k in s.threads && s.threads[i].job == s.threads[k].job
  }

  /** No statement about a job that can be started is unreadable. */
  ghost predicate ReachableReadable(p: Planning, me: string) {
    forall j | Reachable(p, me, j) :: Literal(j).Some?
  }

  /** With readable names, no job is ever handed over twice exactly when the name of every reachable job
      comes back from the server as it was written. */
  lemma HandedOverOnce(s: State, me: string)
    requires Unpolled(s) && ReachableReadable(s.plan, me)
    ensures OnceEach(s, me) <==> ReachableSurvive(s.plan, me)
  {
    if ReachableSurvive(s.plan, me) {
      forall run, i, k | Legal(s, run, me) && Twice(Exec(s, run), i, k) ensures i == k {
        RunInv(s, run, me);
      }
    }
    if OnceEach(s, me) {
      var run := Settle(s, [], me);
      var e := Exec(s, run);
      if j :| Startable(e.plan, j, me) && !Survives(j) {
        SettledReachable(s, run, me, j);
        NotOnce(s, run, me, j);
        assert false;
      }
      QuiescentSurvive(s, run, me);
    }
  }

  // ----- running as far as good names go -----

  /** After a run of commands that all succeeded: the invariant holds, so all threads have good names. */
  ghost predicate Fine(s: State, run: seq<Label>, me: string) {
    && Legal(s, run, me) && Inv(Exec(s, run), me) && Later(s, Exec(s, run))
    && Verdicts(Exec(s, run).plan, s.plan.jobs.Keys)
    && forall i | i in Exec(s, run).threads :: Reachable(s.plan, me, Exec(s, run).threads[i].job)
  }

  /** All threads have ended, and only jobs with bad names are startable. */
  ghost predicate Settled(s: State, me: string) {
    && (forall i | i in s.threads :: s.threads[i].phase == Done)
    && (forall j | Startable(s.plan, j, me) :: !Survives(j))
  }

  lemma {:induction false} Settle(s: State, run: seq<Label>, me: string) returns (full: seq<Label>)
    requires Unpolled(s) && Fine(s, run, me)
    ensures Fine(s, full, me) && Settled(Exec(s, full), me)
    decreases Owed(Exec(s, run))
  {
    var e := Exec(s, run);
    if Settled(e, me) {
      full := run;
    } else {
      var l := GoodStep(e, me, s.plan.jobs.Keys);
      FineStep(s, run, l, me);
      StepOwes(e, l, me);
      full := Settle(s, run + [l], me);
    }
  }

  lemma GoodStep(s: State, me: string, ok: set<string>) returns (l: Label)
    requires !Settled(s, me) && Inv(s, me) && s.plan.jobs.Keys == ok
    ensures Enabled(s, l, me) && Productive(l) && RespectsLabel(s, l, ok) && BatchSurvives(l)
  {
    if i :| i in s.threads && s.threads[i].phase != Done {
      match s.threads[i].phase
      case Spawned => l := Claim(i);
      case Claimed => l := Launch(i, s.clock);
      case Launched(_) => l := Finish(i, s.clock, 0);
    } else {
      var j :| Startable(s.plan, j, me) && Survives(j);
      var i := FreshId(s.threads.Keys);
      var batch: map<nat, string> := map[i := j];
      assert i in batch;
      l := Poll(batch);
    }
  }

  lemma FineStep(s: State, run: seq<Label>, l: Label, me: string)
    requires Fine(s, run, me) && Enabled(Exec(s, run), l, me) && BatchSurvives(l)
    requires RespectsLabel(Exec(s, run), l, s.plan.jobs.Keys)
    ensures Fine(s, run + [l], me) && Exec(s, run + [l]) == Next(Exec(s, run), l)
  {
    var d := Exec(s, run);
    OneMoreStep(s, run, l, me);
    StepKeepsInv(d, l, me);
    StepIsLater(d, l, me);
    LaterTransitive(s, d, Next(d, l));
    StepVerdicts(d, l, me, s.plan.jobs.Keys);
    StepReaches(s, d, l, me);
  }

  lemma StepReaches(s: State, d: State, l: Label, me: string)
    requires SameJobs(s.plan, d.plan) && Inv(d, me) && Enabled(d, l, me)
    requires forall i | i in d.threads :: Reachable(s.plan, me, d.threads[i].job)
    ensures forall i | i in Next(d, l).threads :: Reachable(s.plan, me, Next(d, l).threads[i].job)
  {
    var e := Next(d, l);
    forall i | i in e.threads ensures Reachable(s.plan, me, e.threads[i].job) {
      if i !in d.threads {
        StartedReachable(s, d, me, e.threads[i].job);
      } else {
        assert e.threads[i].job == d.threads[i].job;
      }
    }
  }

  lemma StartedReachable(s: State, d: State, me: string, j: string)
    requires SameJobs(s.plan, d.plan) && Inv(d, me) && Startable(d.plan, j, me)
    requires forall i | i in d.threads :: Reachable(s.plan, me, d.threads[i].job)
    ensures Reachable(s.plan, me, j)
  {
    ReachableSame(s.plan, d.plan, me);
    forall i | i in d.plan.jobs && d.plan.jobs[i].state == Succeeded ensures Reachable(d.plan, me, i) {
      assert HasThread(d, i);
    }
    StartableReachable(d.plan, me, j);
  }

  lemma SettledReachable(s: State, run: seq<Label>, me: string, j: string)
    requires Fine(s, run, me) && Startable(Exec(s, run).plan, j, me)
    ensures Reachable(s.plan, me, j)
  {
    StartedReachable(s, Exec(s, run), me, j);
  }

  /** With nothing left to start, all reachable jobs have threads, and so good names. */
  lemma QuiescentSurvive(s: State, run: seq<Label>, me: string)
    requires Unpolled(s) && Fine(s, run, me) && Quiescent(Exec(s, run), me)
    ensures ReachableSurvive(s.plan, me)
  {
    var e := Exec(s, run);
    QuiescentClosed(s, e, me, s.plan.jobs.Keys);
    forall j | Reachable(s.plan, me, j) ensures Survives(j) {
      StartedMeansThread(e, j);
    }
  }

  // ----- the second thread of a job with a bad name -----

  /** The planning once the thread of such a job has made both its writes. */
  function Misled(p: Planning, j: string, at: int): Planning {
    ResultWritten(StateWritten(p, j, Running), j, Succeeded, at, at)
  }

  /** The writes miss the job's own row, and leave it startable. */
  lemma StillThere(p: Planning, j: string, me: string, at: int)
    requires Startable(p, j, me) && Literal(j).Some? && !Survives(j)
    ensures Startable(Misled(p, j, at), j, me)
  {
    var q, found := Misled(p, j, at), Stored(j);
    assert found != j && q.links == p.links && q.jobs.Keys == p.jobs.Keys && q.jobs[j] == p.jobs[j];
    if HasSucceededPredecessor(p, j) {
      var i :| (i, j) in p.links && i in p.jobs && p.jobs[i].state == Succeeded;
      assert q.jobs[i].state == Succeeded;
      assert (i, j) in q.links;
    } else {
      assert HasPredecessor(q, j) ==> HasPredecessor(p, j);
    }
  }

  /** A state but for its planning and the new thread of j. */
  function During(d: State, p: Planning, i: nat, j: string, phase: Phase): State {
    State(p, d.threads[i := Thread(j, phase)], d.clock)
  }

  lemma HandOver(d: State, me: string, i: nat, j: string)
    requires NoPending(d) && Startable(d.plan, j, me) && i !in d.threads
    ensures var batch: map<nat, string> := map[i := j];
            Enabled(d, Poll(batch), me) && Next(d, Poll(batch)) == During(d, d.plan, i, j, Spawned)
  {
    var batch: map<nat, string> := map[i := j];
    assert batch[i] == j;
    assert Started(batch) == map[i := Thread(j, Spawned)];
  }

  lemma ClaimIt(d: State, me: string, i: nat, j: string)
    ensures var before := During(d, d.plan, i, j, Spawned);
            && Enabled(before, Claim(i), me)
            && Next(before, Claim(i)) == During(d, StateWritten(d.plan, j, Running), i, j, Claimed)
  {
  }

  lemma LaunchIt(d: State, p: Planning, me: string, i: nat, j: string)
    ensures var before := During(d, p, i, j, Claimed);
            && Enabled(before, Launch(i, d.clock), me)
            && Next(before, Launch(i, d.clock)) == During(d, p, i, j, Launched(d.clock))
  {
  }

  lemma FinishIt(d: State, p: Planning, me: string, i: nat, j: string)
    ensures var before := During(d, p, i, j, Launched(d.clock));
            && Enabled(before, Finish(i, d.clock, 0), me)
            && Next(before, Finish(i, d.clock, 0)) ==
               During(d, ResultWritten(p, j, Succeeded, d.clock, d.clock), i, j, Done)
  {
    assert Verdict(0) == Succeeded;
  }

  /** The four steps of a new thread that succeeds at once. */
  lemma WholeThread(s: State, run: seq<Label>, me: string, i: nat, j: string) returns (more: seq<Label>)
    requires Legal(s, run, me) && NoPending(Exec(s, run)) && Startable(Exec(s, run).plan, j, me)
    requires i !in Exec(s, run).threads
    ensures Legal(s, more, me)
    ensures var d := Exec(s, run); Exec(s, more) == During(d, Misled(d.plan, j, d.clock), i, j, Done)
  {
    var d := Exec(s, run);
    var batch: map<nat, string> := map[i := j];
    HandOver(d, me, i, j);
    OneMoreStep(s, run, Poll(batch), me);
    more := run + [Poll(batch)];
    ClaimIt(d, me, i, j);
    OneMoreStep(s, more, Claim(i), me);
    more := more + [Claim(i)];
    LaunchIt(d, StateWritten(d.plan, j, Running), me, i, j);
    OneMoreStep(s, more, Launch(i, d.clock), me);
    more := more + [Launch(i, d.clock)];
    FinishIt(d, StateWritten(d.plan, j, Running), me, i, j);
    OneMoreStep(s, more, Finish(i, d.clock, 0), me);
    more := more + [Finish(i, d.clock, 0)];
  }

  /** Beside a thread that has ended, another one for the same job. */
  lemma BothThreads(d: State, p: Planning, i: nat, k: nat, j: string)
    requires NoPending(d) && k !in During(d, p, i, j, Done).threads
    ensures var e := During(d, p, i, j, Done);
            NoPending(e) && i != k && Twice(During(e, p, k, j, Spawned), i, k)
  {
    assert i in During(d, p, i, j, Done).threads;
  }

  lemma SecondThread(s: State, run: seq<Label>, me: string, j: string) returns (more: seq<Label>, i: nat, k: nat)
    requires Legal(s, run, me) && NoPending(Exec(s, run)) && Startable(Exec(s, run).plan, j, me)
    requires Literal(j).Some? && !Survives(j)
    ensures Legal(s, more, me) && Twice(Exec(s, more), i, k) && i != k
  {
    var d := Exec(s, run);
    var p := Misled(d.plan, j, d.clock);
    i := FreshId(d.threads.Keys);
    var first := WholeThread(s, run, me, i, j);
    var e := During(d, p, i, j, Done);
    StillThere(d.plan, j, me, d.clock);
    k := FreshId(e.threads.Keys);
    BothThreads(d, p, i, k, j);
    HandOver(e, me, k, j);
    var batch: map<nat, string> := map[k := j];
    OneMoreStep(s, first, Poll(batch), me);
    more := first + [Poll(batch)];
  }

  lemma NotOnce(s: State, run: seq<Label>, me: string, j: string)
    requires Legal(s, run, me) && NoPending(Exec(s, run)) && Startable(Exec(s, run).plan, j, me)
    requires Literal(j).Some? && !Survives(j)
    ensures !OnceEach(s, me)
  {
    var more, i, k := SecondThread(s, run, me, j);
    assert Twice(Exec(s, more), i, k);
  }
}
