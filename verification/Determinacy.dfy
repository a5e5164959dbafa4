/** Every interleaving of polls and job threads ends, and ends the same way
    (src/master.cpp:207-220, src/job.cpp:116-167, etc/mysql/skeleton.sql:182-227). */
module Determinacy {
  import opened Tables
  import opened TemplateCopy
  import opened Engine

  /** The jobs handed over so far. */
  function StartedJobs(s: State): set<string> {
    set i | i in s.threads :: s.threads[i].job
  }

  lemma StartedMeansThread(s: State, j: string)
    ensures j in StartedJobs(s) <==> HasThread(s, j)
  {
  }

  /** All threads have ended and a poll finds nothing to start. */
  ghost predicate Quiescent(s: State, me: string) {
    && (forall i | i in s.threads :: s.threads[i].phase == Done)
    && (forall j :: !Startable(s.plan, j, me))
  }

  /** Without time constraints, nothing to start is what the master sees as an empty view. */
  lemma EmptyPoll(p: Planning, minute: int, me: string)
    requires p.constraints == map[]
    ensures Dispatchable(p, minute, me) == {} <==> forall j :: !Startable(p, j, me)
  {
    forall j ensures j in Dispatchable(p, minute, me) <==> Startable(p, j, me) {
      ViewExactness(p, minute, me, j);
      NoConstraintsOpensGate(p, minute);
    }
    if Dispatchable(p, minute, me) != {} {
      var j :| j in Dispatchable(p, minute, me);
      assert Startable(p, j, me);
    }
  }

  // ----- fixed outcomes -----

  /** The commands of exactly the jobs in ok succeed. */
  predicate Respects(s: State, run: seq<Label>, ok: set<string>) {
    run == [] ||
    (var front := run[..|run| - 1];
     Respects(s, front, ok) && RespectsLabel(Exec(s, front), run[|run| - 1], ok))
  }

  predicate RespectsLabel(s: State, l: Label, ok: set<string>) {
    l.Finish? && l.id in s.threads ==> (Success(l.status) <==> s.threads[l.id].job in ok)
  }

  ghost predicate Verdicts(p: Planning, ok: set<string>) {
    forall j | j in p.jobs ::
      && (p.jobs[j].state == Succeeded ==> j in ok)
      && (p.jobs[j].state == Failed ==> j !in ok)
  }

  lemma StepVerdicts(s: State, l: Label, me: string, ok: set<string>)
    requires Inv(s, me) && Enabled(s, l, me) && RespectsLabel(s, l, ok) && Verdicts(s.plan, ok)
    ensures Verdicts(Next(s, l).plan, ok)
  {
    if !l.Poll? && !l.Tick? {
      ThreadStep(s, l, me);
    }
  }

  lemma {:induction false} RunVerdicts(s: State, run: seq<Label>, me: string, ok: set<string>)
    requires Init(s, me) && Legal(s, run, me) && Respects(s, run, ok)
    ensures Verdicts(Exec(s, run).plan, ok)
  {
    if run != [] {
      var front, l := run[..|run| - 1], run[|run| - 1];
      RunVerdicts(s, front, me, ok);
      RunInv(s, front, me);
      StepVerdicts(Exec(s, front), l, me, ok);
    }
  }

  /** Every job that has succeeded is in ok. */
  ghost predicate SucceededWithin(p: Planning, ok: set<string>) {
    forall j | j in p.jobs && p.jobs[j].state == Succeeded :: j in ok
  }

  /** Nothing outside a closed set is ever started, whatever fails. */
  lemma {:induction false} StartedWithinClosed(s: State, run: seq<Label>, me: string, ok: set<string>, t: set<string>)
    requires Init(s, me) && Legal(s, run, me) && SucceededWithin(Exec(s, run).plan, ok) && Closed(s.plan, me, ok, t)
    ensures StartedJobs(Exec(s, run)) <= t
  {
    if run != [] {
      var front, l := run[..|run| - 1], run[|run| - 1];
      var d, e := Exec(s, front), Exec(s, run);
      RunInv(s, front, me);
      StepIsLater(d, l, me);
      SucceededBefore(d, e, ok);
      StartedWithinClosed(s, front, me, ok, t);
      forall j | j in StartedJobs(e) ensures j in t {
        StartedMeansThread(e, j);
        NewThread(d, l, me, j);
        if HasThread(d, j) {
          StartedMeansThread(d, j);
        } else {
          StartableWithinClosed(s.plan, d, me, ok, t, j);
        }
      }
    }
  }

  lemma SucceededBefore(d: State, e: State, ok: set<string>)
    requires Later(d, e) && SucceededWithin(e.plan, ok)
    ensures SucceededWithin(d.plan, ok)
  {
  }

  lemma StartableWithinClosed(p: Planning, d: State, me: string, ok: set<string>, t: set<string>, j: string)
    requires SameJobs(p, d.plan) && Inv(d, me) && SucceededWithin(d.plan, ok)
    requires Closed(p, me, ok, t) && StartedJobs(d) <= t && Startable(d.plan, j, me)
    ensures j in t
  {
  }

  /** At quiescence the started jobs form a closed set. */
  lemma QuiescentClosed(s: State, e: State, me: string, ok: set<string>)
    requires SameJobs(s.plan, e.plan) && Consistent(s.plan) && Inv(e, me) && Verdicts(e.plan, ok) && Quiescent(e, me)
    ensures Closed(s.plan, me, ok, StartedJobs(e))
  {
    var p, t := s.plan, StartedJobs(e);
    forall j | j in p.jobs && p.jobs[j].node == me && !HasPredecessor(p, j) ensures j in t {
      StartedMeansThread(e, j);
      assert !HasPredecessor(e.plan, j);
      assert !Startable(e.plan, j, me);
    }
    forall l | l in p.links && l.0 in t && l.0 in ok && l.1 in p.jobs && p.jobs[l.1].node == me ensures l.1 in t {
      StartedMeansThread(e, l.0);
      StartedMeansThread(e, l.1);
      assert l == (l.0, l.1) && e.plan.jobs[l.0].state == Succeeded;
      assert HasSucceededPredecessor(e.plan, l.1);
      assert !Startable(e.plan, l.1, me);
    }
  }

  /** Whatever the interleaving, a quiescent state has started exactly the least closed set, and
      every job's state is fixed by that set and the commands' outcomes. */
  lemma QuiescentState(s: State, run: seq<Label>, me: string, ok: set<string>)
    requires Init(s, me) && Legal(s, run, me) && Respects(s, run, ok) && Quiescent(Exec(s, run), me)
    ensures var e := Exec(s, run);
            && Closed(s.plan, me, ok, StartedJobs(e))
            && (forall t :: Closed(s.plan, me, ok, t) ==> StartedJobs(e) <= t)
            && e.plan.jobs.Keys == s.plan.jobs.Keys
            && forall j | j in s.plan.jobs :: e.plan.jobs[j].state ==
                 if j !in StartedJobs(e) then Waiting else if j in ok then Succeeded else Failed
  {
    var e := Exec(s, run);
    RunInv(s, run, me);
    RunVerdicts(s, run, me, ok);
    QuiescentClosed(s, e, me, ok);
    forall t | Closed(s.plan, me, ok, t) ensures StartedJobs(e) <= t {
      StartedWithinClosed(s, run, me, ok, t);
    }
    forall j | j in s.plan.jobs ensures e.plan.jobs[j].state ==
        if j !in StartedJobs(e) then Waiting else if j in ok then Succeeded else Failed {
      StartedMeansThread(e, j);
    }
  }

  /** Determinacy: two interleavings that both reach quiescence agree on every job's state. */
  lemma Determinate(s: State, run1: seq<Label>, run2: seq<Label>, me: string, ok: set<string>)
    requires Init(s, me)
    requires Legal(s, run1, me) && Respects(s, run1, ok) && Quiescent(Exec(s, run1), me)
    requires Legal(s, run2, me) && Respects(s, run2, ok) && Quiescent(Exec(s, run2), me)
    ensures var p, q := Exec(s, run1).plan, Exec(s, run2).plan;
            && p.jobs.Keys == q.jobs.Keys == s.plan.jobs.Keys
            && forall j | j in p.jobs :: p.jobs[j].state == q.jobs[j].state
  {
    QuiescentState(s, run1, me, ok);
    QuiescentState(s, run2, me, ok);
    assert StartedJobs(Exec(s, run1)) == StartedJobs(Exec(s, run2));
  }

  // ----- termination -----

  predicate Productive(l: Label) {
    !l.Tick? && (l.Poll? ==> l.batch != map[])
  }

  function ProductiveSteps(run: seq<Label>): nat {
    if run == [] then 0
    else ProductiveSteps(run[..|run| - 1]) + if Productive(run[|run| - 1]) then 1 else 0
  }

  function DispatchingPolls(run: seq<Label>): nat {
    if run == [] then 0
    else DispatchingPolls(run[..|run| - 1]) + if run[|run| - 1].Poll? && Productive(run[|run| - 1]) then 1 else 0
  }

  /** The positions of the steps that do something, and of the polls that hand over something. */
  function Steps(run: seq<Label>): set<nat> {
    set n: nat | n < |run| && (run[n].Claim? || run[n].Launch? || run[n].Finish?
                               || (run[n].Poll? && run[n].batch != map[]))
  }

  function Polls(run: seq<Label>): set<nat> {
    set n: nat | n < |run| && run[n].Poll? && run[n].batch != map[]
  }

  lemma OneMoreStepCounted(front: seq<Label>, l: Label)
    ensures |Steps(front + [l])| == |Steps(front)| + (if Productive(l) then 1 else 0)
  {
    var a, b := Steps(front), Steps(front + [l]);
    forall n: nat ensures n in b <==> n in a || (n == |front| && Productive(l)) {
      if n < |front| { assert (front + [l])[n] == front[n]; }
    }
    OneMoreElement(a, b, |front|, Productive(l));
  }

  lemma OneMorePollCounted(front: seq<Label>, l: Label)
    ensures |Polls(front + [l])| == |Polls(front)| + (if l.Poll? && Productive(l) then 1 else 0)
  {
    var a, b := Polls(front), Polls(front + [l]);
    forall n: nat ensures n in b <==> n in a || (n == |front| && l.Poll? && Productive(l)) {
      if n < |front| { assert (front + [l])[n] == front[n]; }
    }
    OneMoreElement(a, b, |front|, l.Poll? && Productive(l));
  }

  lemma OneMoreElement(a: set<nat>, b: set<nat>, last: nat, more: bool)
    requires last !in a && forall n: nat :: n in b <==> n in a || (n == last && more)
    ensures |b| == |a| + (if more then 1 else 0)
  {
    assert b == a + (if more then {last} else {});
  }

  lemma {:induction false} StepsCounted(run: seq<Label>)
    ensures ProductiveSteps(run) == |Steps(run)| && DispatchingPolls(run) == |Polls(run)|
  {
    if run == [] {
      assert Steps(run) == {} && Polls(run) == {};
    } else {
      var front, l := run[..|run| - 1], run[|run| - 1];
      StepsCounted(front);
      OneMoreStepCounted(front, l);
      OneMorePollCounted(front, l);
      assert run == front + [l];
    }
  }

  function AtRank(s: State, rank: nat): set<nat> {
    set i | i in s.threads && PhaseRank(s.threads[i].phase) == rank
  }

  function Unstarted(s: State): set<string> {
    s.plan.jobs.Keys - StartedJobs(s)
  }

  /** Steps still owed: four for a job not handed over, down to none for a finished thread. */
  function Owed(s: State): nat {
    4 * |Unstarted(s)| + 3 * |AtRank(s, 0)| + 2 * |AtRank(s, 1)| + |AtRank(s, 2)|
  }

  lemma {:induction false} InjectiveSize(batch: map<nat, string>)
    requires Injective(batch)
    ensures |batch.Values| == |batch|
    decreases |batch|
  {
    if batch == map[] {
      assert batch.Values == {};
    } else {
      var i :| i in batch;
      var rest := batch - {i};
      assert batch.Keys == rest.Keys + {i};
      InjectiveSize(rest);
      assert batch[i] !in rest.Values;
      forall j ensures j in batch.Values <==> j in rest.Values + {batch[i]} {
        if j in batch.Values {
          var k :| k in batch && batch[k] == j;
          assert k == i || k in rest;
        }
      }
      assert batch.Values == rest.Values + {batch[i]};
    }
  }

  lemma PollStarts(s: State, batch: map<nat, string>)
    requires batch.Keys !! s.threads.Keys
    ensures StartedJobs(Next(s, Poll(batch))) == StartedJobs(s) + batch.Values
  {
  }

  lemma PollRanks(s: State, batch: map<nat, string>, rank: nat)
    requires batch.Keys !! s.threads.Keys
    ensures rank == 0 ==> AtRank(Next(s, Poll(batch)), rank) == AtRank(s, rank) + batch.Keys
    ensures rank != 0 ==> AtRank(Next(s, Poll(batch)), rank) == AtRank(s, rank)
  {
  }

  lemma DisjointSize<T>(whole: set<T>, a: set<T>, b: set<T>)
    requires whole == a + b && a !! b
    ensures |whole| == |a| + |b|
  {
  }

  lemma RemoveSize<T>(all: set<T>, gone: set<T>, more: set<T>)
    requires more <= all - gone
    ensures |all - (gone + more)| == |all - gone| - |more|
  {
    DisjointSize(all - gone, all - (gone + more), more);
  }

  lemma PollFresh(s: State, batch: map<nat, string>, me: string)
    requires Inv(s, me) && PollAllowed(s, batch, me) && NoPending(s)
    ensures batch.Values <= Unstarted(s)
  {
  }

  lemma PollOwes(s: State, batch: map<nat, string>, me: string)
    requires Inv(s, me) && PollAllowed(s, batch, me) && NoPending(s)
    ensures var s' := Next(s, Poll(batch));
            |Unstarted(s')| == |Unstarted(s)| - |batch| && Owed(s') == Owed(s) - |batch|
  {
    PollFresh(s, batch, me);
    InjectiveSize(batch);
    PollStarts(s, batch);
    RemoveSize(s.plan.jobs.Keys, StartedJobs(s), batch.Values);
    PollRankSizes(s, batch);
  }

  lemma PollRankSizes(s: State, batch: map<nat, string>)
    requires batch.Keys !! s.threads.Keys
    ensures var s' := Next(s, Poll(batch));
            && |AtRank(s', 0)| == |AtRank(s, 0)| + |batch|
            && |AtRank(s', 1)| == |AtRank(s, 1)| && |AtRank(s', 2)| == |AtRank(s, 2)|
  {
    var s' := Next(s, Poll(batch));
    PollRanks(s, batch, 0);
    PollRanks(s, batch, 1);
    PollRanks(s, batch, 2);
    var old0, new0 := AtRank(s, 0), AtRank(s', 0);
    assert old0 !! batch.Keys;
    DisjointSize(new0, old0, batch.Keys);
    assert |batch.Keys| == |batch|;
  }

  /** Same threads for the same jobs: same started jobs. */
  lemma SameStarted(s: State, s': State)
    requires s.threads.Keys == s'.threads.Keys
    requires forall i | i in s.threads :: s'.threads[i].job == s.threads[i].job
    ensures StartedJobs(s') == StartedJobs(s)
  {
  }

  lemma ThreadOwes(s: State, l: Label, me: string)
    requires Inv(s, me) && Enabled(s, l, me) && !l.Poll? && !l.Tick?
    ensures Unstarted(Next(s, l)) == Unstarted(s) && Owed(Next(s, l)) == Owed(s) - 1
  {
    var s' := Next(s, l);
    var i := l.id;
    ThreadStep(s, l, me);
    SameStarted(s, s');
    var r := PhaseRank(s.threads[i].phase);
    assert r < 3 && PhaseRank(s'.threads[i].phase) == r + 1;
    assert s'.threads == s.threads[i := s'.threads[i]];
    RankMoves(s, s', i, r);
  }

  /** A thread that moves up one rank takes one step off the account. */
  lemma RankMoves(s: State, s': State, i: nat, r: nat)
    requires i in s.threads && i in s'.threads && s'.threads == s.threads[i := s'.threads[i]]
    requires PhaseRank(s.threads[i].phase) == r && PhaseRank(s'.threads[i].phase) == r + 1
    ensures 3 * |AtRank(s, 0)| + 2 * |AtRank(s, 1)| + |AtRank(s, 2)| - 1
         == 3 * |AtRank(s', 0)| + 2 * |AtRank(s', 1)| + |AtRank(s', 2)|
  {
    RankSize(s, s', i, r, 0);
    RankSize(s, s', i, r, 1);
    RankSize(s, s', i, r, 2);
  }

  lemma RankSize(s: State, s': State, i: nat, r: nat, q: nat)
    requires i in s.threads && i in s'.threads && s'.threads == s.threads[i := s'.threads[i]]
    requires PhaseRank(s.threads[i].phase) == r && PhaseRank(s'.threads[i].phase) == r + 1
    ensures |AtRank(s', q)| == |AtRank(s, q)| + if q == r then -1 else if q == r + 1 then 1 else 0
  {
    RankSets(s, s', i, r, q);
    var before, after := AtRank(s, q), AtRank(s', q);
    if q == r {
      DisjointSize(before, after, {i});
    } else if q == r + 1 {
      DisjointSize(after, before, {i});
    }
  }

  lemma RankSets(s: State, s': State, i: nat, r: nat, q: nat)
    requires i in s.threads && i in s'.threads && s'.threads == s.threads[i := s'.threads[i]]
    requires PhaseRank(s.threads[i].phase) == r && PhaseRank(s'.threads[i].phase) == r + 1
    ensures q == r ==> AtRank(s, q) == AtRank(s', q) + {i} && i !in AtRank(s', q)
    ensures q == r + 1 ==> AtRank(s', q) == AtRank(s, q) + {i} && i !in AtRank(s, q)
    ensures q != r && q != r + 1 ==> AtRank(s', q) == AtRank(s, q)
  {
  }

  lemma TickOwes(s: State, at: int)
    ensures Unstarted(Next(s, Tick(at))) == Unstarted(s) && Owed(Next(s, Tick(at))) == Owed(s)
  {
    var s' := Next(s, Tick(at));
    SameStarted(s, s');
    forall q: nat ensures AtRank(s', q) == AtRank(s, q) {}
  }

  lemma InitOwes(s: State)
    requires s.threads == map[]
    ensures Unstarted(s) == s.plan.jobs.Keys && Owed(s) == 4 * |s.plan.jobs|
  {
  }

  /** Four steps a job is all a run can do, and no more polls than there are jobs start anything. */
  lemma Terminates(s: State, run: seq<Label>, me: string)
    requires Init(s, me) && Legal(s, run, me)
    ensures |set n: nat | n < |run| && (run[n].Claim? || run[n].Launch? || run[n].Finish?
                                        || (run[n].Poll? && run[n].batch != map[]))| <= 4 * |s.plan.jobs|
    ensures |set n: nat | n < |run| && run[n].Poll? && run[n].batch != map[]| <= |s.plan.jobs|
  {
    StepsCounted(run);
    StepsOwed(s, run, me);
  }

  lemma {:induction false} StepsOwed(s: State, run: seq<Label>, me: string)
    requires Init(s, me) && Legal(s, run, me)
    ensures ProductiveSteps(run) + Owed(Exec(s, run)) <= 4 * |s.plan.jobs|
    ensures DispatchingPolls(run) + |Unstarted(Exec(s, run))| <= |s.plan.jobs|
  {
    if run == [] {
      InitOwes(s);
    } else {
      var front, l := run[..|run| - 1], run[|run| - 1];
      StepsOwed(s, front, me);
      RunInv(s, front, me);
      StepOwes(Exec(s, front), l, me);
    }
  }

  lemma StepOwes(s: State, l: Label, me: string)
    requires Inv(s, me) && Enabled(s, l, me)
    ensures Owed(Next(s, l)) + (if Productive(l) then 1 else 0) <= Owed(s)
    ensures |Unstarted(Next(s, l))| + (if l.Poll? && Productive(l) then 1 else 0) <= |Unstarted(s)|
  {
    match l
    case Poll(batch) => PollOwes(s, batch, me);
    case Tick(at) => TickOwes(s, at);
    case _ => ThreadOwes(s, l, me);
  }

  /** The pair (waiting, running): a claim moves one job across, a completion takes one off the
      second, and no other step touches either. */
  lemma WaitingRunning(s: State, l: Label, me: string)
    requires Inv(s, me) && Enabled(s, l, me)
    ensures var p, q := s.plan, Next(s, l).plan;
            && |InState(q, Waiting)| == |InState(p, Waiting)| - (if l.Claim? then 1 else 0)
            && |InState(q, Running)| == |InState(p, Running)| + (if l.Claim? then 1 else if l.Finish? then -1 else 0)
  {
    var p, q := s.plan, Next(s, l).plan;
    if l.Poll? || l.Tick? {
      assert q == p;
    } else {
      ThreadStep(s, l, me);
      var t := s.threads[l.id];
      var row := RowAfter(p.jobs[t.job], t.phase, l);
      assert q.jobs == p.jobs[t.job := row];
      RowMoves(p, q, t.job, row, Waiting);
      RowMoves(p, q, t.job, row, Running);
    }
  }

  /** One row's change moves at most that job into or out of a state. */
  lemma RowMoves(p: Planning, q: Planning, j: string, row: JobRow, st: JobState)
    requires j in p.jobs && q.jobs == p.jobs[j := row]
    ensures |InState(q, st)| == |InState(p, st)|
              + (if row.state == st then 1 else 0) - (if p.jobs[j].state == st then 1 else 0)
  {
    var a, b := InState(p, st), InState(q, st);
    assert b - {j} == a - {j};
    assert j in a <==> p.jobs[j].state == st;
    assert j in b <==> row.state == st;
    assert |a - {j}| == |a| - if j in a then 1 else 0;
    assert |b - {j}| == |b| - if j in b then 1 else 0;
  }

  // ----- progress -----

  lemma {:induction false} FreshId(ids: set<nat>) returns (i: nat)
    ensures forall k | k in ids :: k < i
    decreases ids
  {
    if ids == {} {
      i := 0;
    } else {
      var k :| k in ids;
      i := FreshId(ids - {k});
      i := if k < i then i else k + 1;
      assert forall n | n in ids :: n == k || n in ids - {k};
    }
  }

  /** A state that is not quiescent always has a productive step, whatever the outcomes. */
  lemma Progress(s: State, me: string, ok: set<string>) returns (l: Label)
    requires !Quiescent(s, me)
    ensures Enabled(s, l, me) && Productive(l) && RespectsLabel(s, l, ok) && Next(s, l).clock == s.clock
  {
    if i :| i in s.threads && s.threads[i].phase != Done {
      match s.threads[i].phase
      case Spawned => l := Claim(i);
      case Claimed => l := Launch(i, s.clock);
      case Launched(_) => l := Finish(i, s.clock, if s.threads[i].job in ok then 0 else 1);
    } else {
      var j :| Startable(s.plan, j, me);
      var i := FreshId(s.threads.Keys);
      var batch: map<nat, string> := map[i := j];
      assert i in batch;
      l := Poll(batch);
    }
  }

  lemma Extend(s: State, run: seq<Label>, l: Label, me: string, ok: set<string>)
    requires Legal(s, run, me) && Respects(s, run, ok)
    requires Enabled(Exec(s, run), l, me) && RespectsLabel(Exec(s, run), l, ok)
    ensures Legal(s, run + [l], me) && Respects(s, run + [l], ok) && Exec(s, run + [l]) == Next(Exec(s, run), l)
  {
    OneMoreStep(s, run, l, me);
  }

  /** Every run can be continued to quiescence, even without any time passing; by Terminates,
      continuing at all costs gets there. */
  lemma {:induction false} ReachesQuiescence(s: State, run: seq<Label>, me: string, ok: set<string>)
    returns (full: seq<Label>)
    requires Init(s, me) && Legal(s, run, me) && Respects(s, run, ok)
    ensures run <= full && Legal(s, full, me) && Respects(s, full, ok) && Quiescent(Exec(s, full), me)
    ensures Exec(s, full).clock == Exec(s, run).clock
    decreases Owed(Exec(s, run))
  {
    var e := Exec(s, run);
    if Quiescent(e, me) {
      full := run;
    } else {
      var l := Progress(e, me, ok);
      RunInv(s, run, me);
      StepOwes(e, l, me);
      Extend(s, run, l, me, ok);
      full := ReachesQuiescence(s, run + [l], me, ok);
    }
  }
}
