/** One planning under the interleaving of the master's polls and the job threads
    (src/master.cpp:207-220, src/job.cpp:116-181). */
module Engine {
  import opened Tables
  import opened Literals
  import opened TemplateCopy

  /** A job thread: handed over by a poll, then RUNNING is written, then the command line is
      started, then the final state is written. */
  datatype Phase = Spawned | Claimed | Launched(start: int) | Done

  datatype Thread = Thread(job: string, phase: Phase)

  datatype State = State(plan: Planning, threads: map<nat, Thread>, clock: int)

  datatype Label =
    | Poll(batch: map<nat, string>)
    | Claim(id: nat)
    | Launch(id: nat, at: int)
    | Finish(id: nat, at: int, status: int)
    | Tick(at: int)

  /** Exit status as run() tests it: an i16 field compared with zero. */
  predicate Success(status: int) {
    Wrap16(status) == 0
  }

  function Verdict(status: int): JobState {
    if Success(status) then Succeeded else Failed
  }

  lemma WrappedZero(x: int)
    ensures Wrap16(x) == 0 <==> x % 0x1_0000 == 0
  {
    var w := Wrap16(x);
    WrapsAround(x);
    var a, b, r := (w - x) / 0x1_0000, x / 0x1_0000, x % 0x1_0000;
    assert w - x == 0x1_0000 * a && x == 0x1_0000 * b + r;
    var k := a + b;
    assert w == 0x1_0000 * k + r && 0 <= r < 0x1_0000;
  }

  /** Only a status that leaves nothing in the 16 bits counts as success: 256, which a command that exits
      with 1 gives, and -1, which a failed pclose gives, do not. */
  lemma VerdictOf(status: int)
    ensures Verdict(status) == if status % 0x1_0000 == 0 then Succeeded else Failed
    ensures Verdict(0) == Succeeded && Verdict(256) == Failed && Verdict(1) == Failed && Verdict(-1) == Failed
  {
    WrappedZero(status);
    WrappedZero(256);
    WrappedZero(1);
    WrappedZero(-1);
  }

  predicate Injective(batch: map<nat, string>) {
    forall i, k | i in batch && k in batch && i != k :: batch[i] != batch[k]
  }

  predicate NoPending(s: State) {
    forall i | i in s.threads :: s.threads[i].phase != Spawned
  }

  /** A poll hands over startable jobs, each once. It may hand over fewer than all of them: the time gate may be
      closed, the fetch may stop early, or the iteration may switch plannings. */
  ghost predicate PollAllowed(s: State, batch: map<nat, string>, me: string) {
    && batch.Keys !! s.threads.Keys
    && Injective(batch)
    && forall i | i in batch :: Startable(s.plan, batch[i], me)
  }

  /** Which steps are possible; a poll waits for the RUNNING writes of the threads before it. */
  ghost predicate Enabled(s: State, l: Label, me: string) {
    match l
    case Poll(batch) => PollAllowed(s, batch, me) && NoPending(s)
    case Claim(i) => i in s.threads && s.threads[i].phase == Spawned
    case Launch(i, at) => i in s.threads && s.threads[i].phase == Claimed && s.clock <= at
    case Finish(i, at, _) => i in s.threads && s.threads[i].phase.Launched? && s.clock <= at
    case Tick(at) => s.clock <= at
  }

  function Started(batch: map<nat, string>): map<nat, Thread> {
    map i | i in batch :: Thread(batch[i], Spawned)
  }

  function Next(s: State, l: Label): State {
    match l
    case Poll(batch) => s.(threads := s.threads + Started(batch))
    case Claim(i) =>
      if i !in s.threads then s else
      s.(plan := StateWritten(s.plan, s.threads[i].job, Running),
         threads := s.threads[i := s.threads[i].(phase := Claimed)])
    case Launch(i, at) =>
      if i !in s.threads then s else
      s.(threads := s.threads[i := s.threads[i].(phase := Launched(at))], clock := at)
    case Finish(i, at, status) =>
      if i !in s.threads || !s.threads[i].phase.Launched? then s else
      s.(plan := ResultWritten(s.plan, s.threads[i].job, Verdict(status), s.threads[i].phase.start, at),
         threads := s.threads[i := s.threads[i].(phase := Done)], clock := at)
    case Tick(at) => s.(clock := at)
  }

  function Exec(s: State, run: seq<Label>): State {
    if run == [] then s else Next(Exec(s, run[..|run| - 1]), run[|run| - 1])
  }

  ghost predicate Legal(s: State, run: seq<Label>, me: string) {
    run == [] || (Legal(s, run[..|run| - 1], me) && Enabled(Exec(s, run[..|run| - 1]), run[|run| - 1], me))
  }

  /** A planning before its first poll: consistent, all waiting, nothing recorded, no threads. */
  ghost predicate Unpolled(s: State) {
    && Consistent(s.plan)
    && s.threads == map[]
    && forall j | j in s.plan.jobs :: Untouched(s.plan.jobs[j])
  }

  /** Besides, the names of the jobs that can be started are good literals. */
  ghost predicate Init(s: State, me: string) {
    Unpolled(s) && ReachableSurvive(s.plan, me)
  }

  predicate Untouched(row: JobRow) {
    row.state == Waiting && row.startTime == None && row.stopTime == None
  }

  // ----- the jobs that can be started -----

  /** Contains the local jobs without predecessors, and with a job that succeeds its local successors. */
  ghost predicate Closed(p: Planning, me: string, ok: set<string>, t: set<string>) {
    && (forall j | j in p.jobs && p.jobs[j].node == me && !HasPredecessor(p, j) :: j in t)
    && (forall l | l in p.links && l.0 in t && l.0 in ok && l.1 in p.jobs && p.jobs[l.1].node == me :: l.1 in t)
  }

  /** j is in every set of jobs that holds the local jobs without predecessors, and with a job its
      local successors: in the least such set. */
  ghost predicate Reachable(p: Planning, me: string, j: string) {
    forall t :: Closed(p, me, p.jobs.Keys, t) ==> j in t
  }

  ghost predicate ReachableSurvive(p: Planning, me: string) {
    forall j | Reachable(p, me, j) :: Survives(j)
  }

  lemma AllSurviveReachable(p: Planning, me: string)
    requires JobsSurvive(p)
    ensures ReachableSurvive(p, me)
  {
    assert Closed(p, me, p.jobs.Keys, p.jobs.Keys);
  }

  lemma ReachableSame(p: Planning, q: Planning, me: string)
    requires SameJobs(p, q)
    ensures forall j :: Reachable(p, me, j) <==> Reachable(q, me, j)
  {
    forall t ensures Closed(p, me, p.jobs.Keys, t) <==> Closed(q, me, q.jobs.Keys, t) {
      forall j ensures HasPredecessor(p, j) <==> HasPredecessor(q, j) {}
    }
  }

  /** What can be started next is reachable, if what has succeeded is. */
  lemma StartableReachable(p: Planning, me: string, j: string)
    requires Startable(p, j, me)
    requires forall i | i in p.jobs && p.jobs[i].state == Succeeded :: Reachable(p, me, i)
    ensures Reachable(p, me, j)
  {
    if HasPredecessor(p, j) {
      var i :| (i, j) in p.links && i in p.jobs && p.jobs[i].state == Succeeded;
      assert Reachable(p, me, i);
      assert (i, j).1 == j;
    }
  }

  // ----- the invariant -----

  /** What a job's row says while its thread is in a phase. */
  ghost predicate RowMatches(row: JobRow, phase: Phase, clock: int) {
    match phase
    case Spawned => Untouched(row)
    case Claimed => row.state == Running && row.startTime == None && row.stopTime == None
    case Launched(t) => row.state == Running && row.startTime == None && row.stopTime == None && t <= clock
    case Done =>
      && (row.state == Succeeded || row.state == Failed)
      && row.startTime.Some? && row.stopTime.Some?
      && row.startTime.value <= row.stopTime.value <= clock
  }

  ghost predicate HasThread(s: State, j: string) {
    exists i :: i in s.threads && s.threads[i].job == j
  }

  ghost predicate SameJobs(p: Planning, q: Planning) {
    && p.jobs.Keys == q.jobs.Keys && p.links == q.links && p.nodes == q.nodes && p.constraints == q.constraints
    && forall j | j in p.jobs :: p.jobs[j].node == q.jobs[j].node && p.jobs[j].cmdLine == q.jobs[j].cmdLine
  }

  ghost predicate Inv(s: State, me: string) {
    && (forall i | i in s.threads ::
          && s.threads[i].job in s.plan.jobs && Survives(s.threads[i].job)
          && s.plan.jobs[s.threads[i].job].node == me
          && RowMatches(s.plan.jobs[s.threads[i].job], s.threads[i].phase, s.clock))
    && (forall i, k | i in s.threads && k in s.threads && s.threads[i].job == s.threads[k].job :: i == k)
    && (forall j | j in s.plan.jobs && !HasThread(s, j) :: Untouched(s.plan.jobs[j]))
  }

  /** Only reachable jobs have threads. */
  ghost predicate Reached(s: State, me: string) {
    ReachableSurvive(s.plan, me) && forall i | i in s.threads :: Reachable(s.plan, me, s.threads[i].job)
  }

  predicate BatchSurvives(l: Label) {
    l.Poll? ==> forall i | i in l.batch :: Survives(l.batch[i])
  }

  /** A startable job has a thread only while that thread has not yet written RUNNING: without
      the claim assumption a poll would hand over exactly those jobs a second time. */
  lemma DoubleDispatch(s: State, me: string, j: string)
    requires Inv(s, me) && Startable(s.plan, j, me)
    ensures HasThread(s, j) <==> exists i :: i in s.threads && s.threads[i] == Thread(j, Spawned)
  {
  }

  lemma PollKeepsThreads(s: State, batch: map<nat, string>, j: string)
    requires batch.Keys !! s.threads.Keys
    ensures HasThread(s, j) ==> HasThread(Next(s, Poll(batch)), j)
  {
    if i :| i in s.threads && s.threads[i].job == j {
      assert Next(s, Poll(batch)).threads[i].job == j;
    }
  }

  lemma PollKeepsInv(s: State, batch: map<nat, string>, me: string)
    requires Inv(s, me) && PollAllowed(s, batch, me) && NoPending(s) && BatchSurvives(Poll(batch))
    ensures Inv(Next(s, Poll(batch)), me)
  {
    var s' := Next(s, Poll(batch));
    forall i | i in batch ensures !HasThread(s, batch[i]) && Untouched(s.plan.jobs[batch[i]]) {
      DoubleDispatch(s, me, batch[i]);
    }
    forall j | j in s'.plan.jobs && !HasThread(s', j) ensures Untouched(s'.plan.jobs[j]) {
      PollKeepsThreads(s, batch, j);
    }
    PollKeepsUnique(s, batch, me);
  }

  lemma PollKeepsUnique(s: State, batch: map<nat, string>, me: string)
    requires Inv(s, me) && batch.Keys !! s.threads.Keys && Injective(batch)
    requires forall i | i in batch :: !HasThread(s, batch[i])
    ensures var s' := Next(s, Poll(batch));
            forall i, k | i in s'.threads && k in s'.threads && s'.threads[i].job == s'.threads[k].job :: i == k
  {
    var s' := Next(s, Poll(batch));
    forall i, k | i in s'.threads && k in s'.threads && s'.threads[i].job == s'.threads[k].job ensures i == k {
      if i in batch && k !in batch {
        assert HasThread(s, batch[i]);
      }
      if k in batch && i !in batch {
        assert HasThread(s, batch[k]);
      }
    }
  }

  /** Thread i moves to a phase and its job's row moves with it; nothing else changes. */
  function Advance(s: State, i: nat, phase: Phase, row: JobRow, clock: int): State
    requires i in s.threads
  {
    State(s.plan.(jobs := s.plan.jobs[s.threads[i].job := row]),
          s.threads[i := Thread(s.threads[i].job, phase)], clock)
  }

  lemma AdvanceKeepsInv(s: State, i: nat, phase: Phase, row: JobRow, clock: int, me: string)
    requires Inv(s, me) && i in s.threads && s.clock <= clock
    requires row.node == me && RowMatches(row, phase, clock)
    ensures Inv(Advance(s, i, phase, row, clock), me)
  {
    var s' := Advance(s, i, phase, row, clock);
    var job := s.threads[i].job;
    forall k | k in s'.threads
      ensures s'.threads[k].job in s'.plan.jobs && s'.plan.jobs[s'.threads[k].job].node == me
      ensures RowMatches(s'.plan.jobs[s'.threads[k].job], s'.threads[k].phase, s'.clock)
    {
      if k != i {
        assert s'.threads[k] == s.threads[k] && s.threads[k].job != job;
      }
    }
    forall j | HasThread(s, j) ensures HasThread(s', j) {
      AdvanceKeepsThreads(s, i, phase, row, clock, j);
    }
    assert HasThread(s, job);
  }

  lemma AdvanceKeepsThreads(s: State, i: nat, phase: Phase, row: JobRow, clock: int, j: string)
    requires i in s.threads && HasThread(s, j)
    ensures HasThread(Advance(s, i, phase, row, clock), j)
  {
    var k :| k in s.threads && s.threads[k].job == j;
    assert Advance(s, i, phase, row, clock).threads[k].job == j;
  }

  /** The row a thread's step leaves for its job. */
  function RowAfter(row: JobRow, ph: Phase, l: Label): JobRow {
    match l
    case Claim(_) => row.(state := Running)
    case Finish(_, at, status) =>
      if ph.Launched? then row.(state := Verdict(status), startTime := Some(ph.start), stopTime := Some(at)) else row
    case _ => row
  }

  function PhaseAfter(ph: Phase, l: Label): Phase {
    match l
    case Claim(_) => Claimed
    case Launch(_, at) => Launched(at)
    case Finish(_, _, _) => Done
    case _ => ph
  }

  function ClockAfter(s: State, l: Label): int {
    if l.Launch? || l.Finish? || l.Tick? then l.at else s.clock
  }

  lemma ThreadStep(s: State, l: Label, me: string)
    requires Inv(s, me) && Enabled(s, l, me) && !l.Poll? && !l.Tick?
    ensures var t := s.threads[l.id]; var row := s.plan.jobs[t.job];
            var clock := ClockAfter(s, l);
            && Next(s, l) == Advance(s, l.id, PhaseAfter(t.phase, l), RowAfter(row, t.phase, l), clock)
            && RowMatches(RowAfter(row, t.phase, l), PhaseAfter(t.phase, l), clock)
            && RowAfter(row, t.phase, l).node == me && s.clock <= clock
            && RowLater(row, RowAfter(row, t.phase, l))
            && RowAfter(row, t.phase, l).cmdLine == row.cmdLine
            && PhaseRank(t.phase) < PhaseRank(PhaseAfter(t.phase, l))
  {
  }

  lemma StepKeepsInv(s: State, l: Label, me: string)
    requires Inv(s, me) && Enabled(s, l, me) && BatchSurvives(l)
    ensures Inv(Next(s, l), me)
  {
    match l
    case Poll(batch) => PollKeepsInv(s, batch, me);
    case Tick(at) =>
      forall j | j in s.plan.jobs && !HasThread(Next(s, l), j) ensures !HasThread(s, j) {
        if k :| k in s.threads && s.threads[k].job == j {
          assert Next(s, l).threads[k].job == j;
        }
      }
    case _ =>
      ThreadStep(s, l, me);
      var t := s.threads[l.id];
      AdvanceKeepsInv(s, l.id, PhaseAfter(t.phase, l), RowAfter(s.plan.jobs[t.job], t.phase, l),
                      ClockAfter(s, l), me);
  }

  function StateRank(st: JobState): nat {
    match st case Waiting => 0 case Running => 1 case Succeeded => 2 case Failed => 2
  }

  function PhaseRank(ph: Phase): nat {
    match ph case Spawned => 0 case Claimed => 1 case Launched(_) => 2 case Done => 3
  }

  /** Everything a later state of a run keeps of an earlier one. */
  ghost predicate Later(s: State, s': State) {
    && SameJobs(s.plan, s'.plan)
    && s.clock <= s'.clock
    && (forall i | i in s.threads ::
          i in s'.threads && s'.threads[i].job == s.threads[i].job
          && PhaseRank(s.threads[i].phase) <= PhaseRank(s'.threads[i].phase))
    && (forall j | j in s.plan.jobs :: RowLater(s.plan.jobs[j], s'.plan.jobs[j]))
  }

  /** States only move waiting, running, final; a final row never changes again. */
  ghost predicate RowLater(r: JobRow, r': JobRow) {
    && StateRank(r.state) <= StateRank(r'.state)
    && (r.state == Succeeded || r.state == Failed ==> r' == r)
  }

  lemma LaterTransitive(a: State, b: State, c: State)
    requires Later(a, b) && Later(b, c)
    ensures Later(a, c)
  {
  }

  lemma StepIsLater(s: State, l: Label, me: string)
    requires Inv(s, me) && Enabled(s, l, me)
    ensures Later(s, Next(s, l))
  {
    if !l.Poll? && !l.Tick? {
      ThreadStep(s, l, me);
    }
  }

  /** A poll hands over reachable jobs only. */
  lemma PollReaches(s: State, l: Label, me: string)
    requires Inv(s, me) && Reached(s, me) && Enabled(s, l, me) && l.Poll?
    ensures BatchSurvives(l) && forall i | i in l.batch :: Reachable(s.plan, me, l.batch[i])
  {
    forall j | j in s.plan.jobs && s.plan.jobs[j].state == Succeeded ensures Reachable(s.plan, me, j) {
      assert HasThread(s, j);
    }
    forall i | i in l.batch ensures Reachable(s.plan, me, l.batch[i]) && Survives(l.batch[i]) {
      StartableReachable(s.plan, me, l.batch[i]);
    }
  }

  lemma StepKeepsReached(s: State, l: Label, me: string)
    requires Inv(s, me) && Reached(s, me) && Enabled(s, l, me)
    ensures BatchSurvives(l) && Reached(Next(s, l), me)
  {
    var s' := Next(s, l);
    StepIsLater(s, l, me);
    ReachableSame(s.plan, s'.plan, me);
    if l.Poll? {
      PollReaches(s, l, me);
    } else {
      forall i | i in s'.threads ensures Reachable(s.plan, me, s'.threads[i].job) {
        assert i in s.threads && s'.threads[i].job == s.threads[i].job;
      }
    }
  }

  lemma {:induction false} RunInv(s: State, run: seq<Label>, me: string)
    requires Init(s, me) && Legal(s, run, me)
    ensures Inv(Exec(s, run), me) && Reached(Exec(s, run), me)
    ensures Later(s, Exec(s, run))
  {
    if run != [] {
      var front, l := run[..|run| - 1], run[|run| - 1];
      RunInv(s, front, me);
      StepKeepsReached(Exec(s, front), l, me);
      StepKeepsInv(Exec(s, front), l, me);
      StepIsLater(Exec(s, front), l, me);
      LaterTransitive(s, Exec(s, front), Exec(s, run));
    }
  }

  lemma LegalPrefix(s: State, run: seq<Label>, me: string, n: nat)
    requires Legal(s, run, me) && n <= |run|
    ensures Legal(s, run[..n], me)
    decreases |run|
  {
    if n == |run| {
      assert run[..n] == run;
    } else {
      LegalPrefix(s, run[..|run| - 1], me, n);
      assert run[..|run| - 1][..n] == run[..n];
    }
  }

  /** The step of a run at position n. */
  lemma StepAt(s: State, run: seq<Label>, me: string, n: nat)
    requires Legal(s, run, me) && n < |run|
    ensures Legal(s, run[..n], me) && Enabled(Exec(s, run[..n]), run[n], me)
    ensures Exec(s, run[..n + 1]) == Next(Exec(s, run[..n]), run[n])
  {
    LegalPrefix(s, run, me, n + 1);
    LegalPrefix(s, run, me, n);
    var more := run[..n + 1];
    assert more[..|more| - 1] == run[..n] && more[|more| - 1] == run[n];
  }

  /** The state after n steps. */
  ghost function At(s: State, run: seq<Label>, n: nat): State
    requires n <= |run|
  {
    Exec(s, run[..n])
  }

  lemma NextIsLater(s: State, run: seq<Label>, me: string, n: nat)
    requires Init(s, me) && Legal(s, run, me) && n < |run|
    ensures Later(At(s, run, n), At(s, run, n + 1))
  {
    StepAt(s, run, me, n);
    RunInv(s, run[..n], me);
    StepIsLater(Exec(s, run[..n]), run[n], me);
  }

  /** If each state is later than the one before, all are later than those before them. */
  lemma {:induction false} LaterThroughout(states: seq<State>, a: nat, b: nat)
    requires a <= b < |states|
    requires forall n: nat | n + 1 < |states| :: Later(states[n], states[n + 1])
    ensures Later(states[a], states[b])
    decreases b
  {
    if a < b {
      LaterThroughout(states, a, b - 1);
      LaterTransitive(states[a], states[b - 1], states[b - 1 + 1]);
    }
  }

  /** Between any two points of a run, the later one keeps what the earlier one has. */
  lemma RunIsLater(s: State, run: seq<Label>, me: string, a: nat, b: nat)
    requires Init(s, me) && Legal(s, run, me) && a <= b <= |run|
    ensures Later(Exec(s, run[..a]), Exec(s, run[..b]))
  {
    var states := seq(|run| + 1, n requires 0 <= n <= |run| => At(s, run, n));
    forall n: nat | n + 1 < |states| ensures Later(states[n], states[n + 1]) {
      NextIsLater(s, run, me, n);
    }
    LaterThroughout(states, a, b);
  }

  // ----- at most once -----

  /** The job whose command line the step at position a starts. */
  function LaunchedJob(s: State, run: seq<Label>, a: nat): Option<string>
    requires a < |run|
  {
    var before := Exec(s, run[..a]);
    if run[a].Launch? && run[a].id in before.threads then Some(before.threads[run[a].id].job) else None
  }

  /** Once launched, a thread stays launched or done, for the same job. */
  lemma LaunchStays(s: State, run: seq<Label>, me: string, a: nat, b: nat)
    requires Init(s, me) && Legal(s, run, me) && a < b <= |run| && run[a].Launch?
    ensures var d, e, i := Exec(s, run[..a]), Exec(s, run[..b]), run[a].id;
            && i in d.threads && i in e.threads && e.threads[i].job == d.threads[i].job
            && PhaseRank(e.threads[i].phase) >= 2
  {
    LaunchIsLegal(s, run, me, a);
    RunIsLater(s, run, me, a + 1, b);
  }

  lemma OneThreadPerJob(s: State, me: string, i: nat, k: nat)
    requires Inv(s, me) && i in s.threads && k in s.threads && i != k
    ensures s.threads[i].job != s.threads[k].job
  {
  }

  /** No two steps of a run start the command line of the same job. */
  lemma AtMostOnce(s: State, run: seq<Label>, me: string, a: nat, b: nat)
    requires Init(s, me) && Legal(s, run, me) && a < b < |run|
    requires run[a].Launch? && run[b].Launch?
    ensures LaunchedJob(s, run, a).Some? && LaunchedJob(s, run, b).Some?
    ensures LaunchedJob(s, run, a) != LaunchedJob(s, run, b)
  {
    LaunchStays(s, run, me, a, b);
    LaunchIsLegal(s, run, me, b);
    LegalPrefix(s, run, me, b);
    RunInv(s, run[..b], me);
    OneThreadPerJob(Exec(s, run[..b]), me, run[a].id, run[b].id);
  }

  lemma LaunchIsLegal(s: State, run: seq<Label>, me: string, a: nat)
    requires Init(s, me) && Legal(s, run, me) && a < |run| && run[a].Launch?
    ensures var d, e, i := Exec(s, run[..a]), Exec(s, run[..a + 1]), run[a].id;
            && i in d.threads && d.threads[i].phase == Claimed
            && i in e.threads && e.threads[i] == Thread(d.threads[i].job, Launched(run[a].at))
  {
    StepAt(s, run, me, a);
  }

  /** Drop the claim assumption and one job can be handed over twice. */
  lemma ClaimAssumptionNeeded()
    ensures exists s: State, batch: map<nat, string>, again: map<nat, string>, me: string ::
              && Init(s, me) && PollAllowed(s, batch, me)
              && PollAllowed(Next(s, Poll(batch)), again, me)
              && 0 in batch && 1 in again && batch[0] == again[1]
  {
    var p := Planning(map["n" := 1], map["j" := JobRow("c", "n", 1, Waiting, None, None)], {}, map[]);
    var s := State(p, map[], 0);
    var batch: map<nat, string>, again: map<nat, string> := map[0 := "j"], map[1 := "j"];
    PlainSurvives("j");
    AllSurviveReachable(p, "n");
    assert Startable(p, "j", "n");
    assert Init(s, "n") && PollAllowed(s, batch, "n");
    assert PollAllowed(Next(s, Poll(batch)), again, "n");
    assert 0 in batch && 1 in again && batch[0] == again[1];
  }

  lemma OneMoreStep(s: State, run: seq<Label>, l: Label, me: string)
    requires Legal(s, run, me) && Enabled(Exec(s, run), l, me)
    ensures Legal(s, run + [l], me) && Exec(s, run + [l]) == Next(Exec(s, run), l)
  {
    assert (run + [l])[..|run|] == run;
  }

  /** A job whose name is no good literal is handed over again after its thread has claimed it. */
  lemma LiteralNeeded()
    ensures exists s: State, batch: map<nat, string>, again: map<nat, string>, me: string ::
              && Consistent(s.plan) && s.threads == map[] && PollAllowed(s, batch, me)
              && 0 in batch && 1 in again && batch[0] == again[1]
              && NoPending(Next(Next(s, Poll(batch)), Claim(0)))
              && PollAllowed(Next(Next(s, Poll(batch)), Claim(0)), again, me)
  {
    var j := "\\.";
    assert j[2..] == "" && "." + "" == ".";
    var p := Planning(map["n" := 1], map[j := JobRow("c", "n", 1, Waiting, None, None)], {}, map[]);
    var s := State(p, map[], 0);
    var batch: map<nat, string>, again: map<nat, string> := map[0 := j], map[1 := j];
    assert Startable(p, j, "n");
    assert PollAllowed(s, batch, "n");
    assert Stored(j) == "." && StateWritten(p, j, Running) == p;
    var s1, s2 := State(p, map[0 := Thread(j, Spawned)], 0), State(p, map[0 := Thread(j, Claimed)], 0);
    assert Next(s, Poll(batch)) == s1 && Next(s1, Claim(0)) == s2;
    assert PollAllowed(s2, again, "n") && NoPending(s2);
  }

  // ----- monitoring -----

  function InState(p: Planning, st: JobState): set<string> {
    set j | j in p.jobs && p.jobs[j].state == st
  }

  lemma SubsetSize<T>(a: set<T>, b: set<T>)
    requires a <= b
    ensures |a| <= |b|
  {
    assert b == a + (b - a);
    assert |a + (b - a)| == |a| + |b - a|;
  }

  lemma CountsSum(p: Planning)
    ensures |InState(p, Waiting)| + |InState(p, Running)| + |InState(p, Succeeded)| + |InState(p, Failed)| == |p.jobs|
  {
    var a, b, c, d := InState(p, Waiting), InState(p, Running), InState(p, Succeeded), InState(p, Failed);
    assert |a + b| == |a| + |b|;
    assert |c + d| == |c| + |d|;
    assert |(a + b) + (c + d)| == |a + b| + |c + d|;
    assert (a + b) + (c + d) == p.jobs.Keys;
  }

  /** Along a run the four counts always add up to the number of jobs, the waiting count never
      rises and neither final count ever falls. */
  lemma Monitoring(s: State, run: seq<Label>, me: string, a: nat, b: nat)
    requires Init(s, me) && Legal(s, run, me) && a <= b <= |run|
    ensures var p, q := Exec(s, run[..a]).plan, Exec(s, run[..b]).plan;
            && |InState(q, Waiting)| <= |InState(p, Waiting)|
            && |InState(q, Failed)| >= |InState(p, Failed)|
            && |InState(q, Succeeded)| >= |InState(p, Succeeded)|
            && |InState(q, Waiting)| + |InState(q, Running)| + |InState(q, Succeeded)| + |InState(q, Failed)|
               == |s.plan.jobs|
  {
    var p, q := Exec(s, run[..a]).plan, Exec(s, run[..b]).plan;
    RunIsLater(s, run, me, a, b);
    RunIsLater(s, run, me, 0, b);
    assert run[..0] == [];
    SubsetSize(InState(q, Waiting), InState(p, Waiting));
    SubsetSize(InState(p, Failed), InState(q, Failed));
    SubsetSize(InState(p, Succeeded), InState(q, Succeeded));
    CountsSum(q);
    assert |q.jobs| == |q.jobs.Keys| == |s.plan.jobs.Keys|;
  }

  // ----- causal chains -----

  /** A simple path of links from a job without predecessors to j on which every job before j
      has succeeded. */
  ghost predicate Chain(p: Planning, path: seq<string>, j: string) {
    && |path| > 0 && path[|path| - 1] == j
    && !HasPredecessor(p, path[0])
    && (forall i | 0 <= i < |path| :: path[i] in p.jobs)
    && (forall i | 0 <= i < |path| - 1 :: (path[i], path[i + 1]) in p.links && p.jobs[path[i]].state == Succeeded)
    && (forall i, k | 0 <= i < k < |path| :: path[i] != path[k])
  }

  ghost predicate HasChain(p: Planning, j: string) {
    exists path :: Chain(p, path, j)
  }

  lemma ChainStays(s: State, s': State, j: string)
    requires Later(s, s') && HasChain(s.plan, j)
    ensures HasChain(s'.plan, j)
  {
    var path :| Chain(s.plan, path, j);
    assert HasPredecessor(s'.plan, path[0]) <==> HasPredecessor(s.plan, path[0]);
    assert Chain(s'.plan, path, j);
  }

  lemma ChainStart(p: Planning, j: string, me: string)
    requires Startable(p, j, me)
    requires forall i | i in p.jobs && p.jobs[i].state != Waiting :: HasChain(p, i)
    ensures HasChain(p, j)
  {
    if !HasPredecessor(p, j) {
      assert Chain(p, [j], j);
    } else {
      var i :| (i, j) in p.links && i in p.jobs && p.jobs[i].state == Succeeded;
      var path :| Chain(p, path, i);
      var longer := path + [j];
      forall k | 0 <= k < |longer| - 1
        ensures (longer[k], longer[k + 1]) in p.links && p.jobs[longer[k]].state == Succeeded
      {
        if k < |path| - 1 { assert longer[k + 1] == path[k + 1]; }
      }
      assert Chain(p, longer, j);
    }
  }

  /** Every job with a thread, and every job that is not waiting, has a chain. */
  ghost predicate Caused(s: State) {
    && (forall j :: HasThread(s, j) ==> HasChain(s.plan, j))
    && (forall j | j in s.plan.jobs && s.plan.jobs[j].state != Waiting :: HasChain(s.plan, j))
  }

  lemma StepKeepsCaused(s: State, l: Label, me: string)
    requires Inv(s, me) && Caused(s) && Enabled(s, l, me) && Inv(Next(s, l), me)
    ensures Caused(Next(s, l))
  {
    var s' := Next(s, l);
    StepIsLater(s, l, me);
    forall j | HasThread(s', j) ensures HasChain(s'.plan, j) {
      NewThread(s, l, me, j);
      if !HasThread(s, j) {
        ChainStart(s.plan, j, me);
      }
      ChainStays(s, s', j);
    }
  }

  /** Under any time gate, in every reachable state, each job that is not waiting has a chain. */
  lemma {:induction false} CausalChain(s: State, run: seq<Label>, me: string)
    requires Init(s, me) && Legal(s, run, me)
    ensures Caused(Exec(s, run))
  {
    if run == [] {
      assert forall j :: !HasThread(s, j);
    } else {
      var front := run[..|run| - 1];
      CausalChain(s, front, me);
      RunInv(s, front, me);
      RunInv(s, run, me);
      StepKeepsCaused(Exec(s, front), run[|run| - 1], me);
    }
  }

  lemma NewThread(s: State, l: Label, me: string, j: string)
    requires Enabled(s, l, me) && HasThread(Next(s, l), j)
    ensures HasThread(s, j) || Startable(s.plan, j, me)
  {
  }

  /** Jobs that can only be reached from one another never start: in a set of jobs each of
      which has a predecessor, all of them inside the set, every job stays waiting. */
  lemma CyclesNeverStart(s: State, run: seq<Label>, me: string, c: set<string>, j: string)
    requires Init(s, me) && Legal(s, run, me)
    requires forall k | k in c :: HasPredecessor(s.plan, k)
    requires forall l | l in s.plan.links && l.1 in c :: l.0 in c
    requires j in c && j in s.plan.jobs
    ensures var e := Exec(s, run); j in e.plan.jobs && e.plan.jobs[j].state == Waiting && !HasThread(e, j)
  {
    var e := Exec(s, run);
    RunInv(s, run, me);
    CausalChain(s, run, me);
    forall path ensures !Chain(e.plan, path, j) {
      NoChainInside(s.plan, e.plan, path, c, j);
    }
  }

  lemma NoChainInside(p: Planning, q: Planning, path: seq<string>, c: set<string>, j: string)
    requires p.links == q.links && j in c
    requires forall k | k in c :: HasPredecessor(p, k)
    requires forall l | l in p.links && l.1 in c :: l.0 in c
    ensures !Chain(q, path, j)
  {
    if Chain(q, path, j) {
      var i := |path| - 1;
      while i > 0
        invariant 0 <= i < |path| && path[i] in c
      {
        assert (path[i - 1], path[i - 1 + 1]) in p.links;
        i := i - 1;
      }
      assert false;
    }
  }
}
