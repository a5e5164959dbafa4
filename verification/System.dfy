/** The whole master: plannings succeeding one another while threads of several plannings still
    run (src/master.cpp:182-228, src/job.cpp:171-181, src/domain.cpp:216-228). Each planning,
    looked at alone, behaves like the engine of module Engine. */
module System {
  import opened Tables
  import opened Literals
  import opened Database
  import opened TemplateCopy
  import opened CopyOrder
  import opened DomainModel
  import Master
  import E = Engine
  import D = Determinacy
  import A = AllPredecessors
  import Clock

  /** The domain's name, this node, the first start, the duration, and the template. */
  datatype Env = Env(name: string, me: string, initial: int, duration: int, template: Planning)

  /** A thread and the planning its job was read from. */
  datatype SThread = SThread(planning: string, thread: E.Thread)

  /** The plannings by name, the planning start in place, the last reading of the loop. */
  datatype Sys = Sys(plannings: map<string, Planning>, start: int, last: int, threads: map<nat, SThread>, clock: int)

  datatype Label =
    | Iterate(now: int, batch: map<nat, string>)
    | Claim(id: nat)
    | Launch(id: nat, at: int)
    | Finish(id: nat, at: int, status: int)

  /** The template's names survive as literals, and the domain's name can stand unquoted. */
  ghost predicate ValidEnv(c: Env) {
    && c.duration >= 60 && Consistent(c.template) && NamesSurvive(c.template)
    && forall i | 0 <= i < |c.name| :: IdentifierChar(c.name[i])
  }

  function Current(c: Env, s: Sys): string {
    PlanningName(c.name, s.start)
  }

  /** One planning and the threads whose jobs were read from it. */
  function Proj(s: Sys, n: string): E.State
    requires n in s.plannings
  {
    E.State(s.plannings[n], ThreadsOf(s.threads, n), s.clock)
  }

  function ThreadsOf(threads: map<nat, SThread>, n: string): map<nat, E.Thread> {
    map i | i in threads && threads[i].planning == n :: threads[i].thread
  }

  /** The threads an iteration adds. */
  function Spawn(batch: map<nat, string>, n: string): map<nat, SThread> {
    map i | i in batch :: SThread(n, E.Thread(batch[i], E.Spawned))
  }

  lemma SpawnedThreads(threads: map<nat, SThread>, batch: map<nat, string>, m: string, n: string)
    requires batch.Keys !! threads.Keys
    ensures ThreadsOf(threads + Spawn(batch, m), n)
         == if m == n then ThreadsOf(threads, n) + E.Started(batch) else ThreadsOf(threads, n)
  {
  }

  lemma UpdatedThreads(threads: map<nat, SThread>, i: nat, t: E.Thread, n: string)
    requires i in threads
    ensures var m := threads[i].planning;
            ThreadsOf(threads[i := SThread(m, t)], n)
            == if m == n then ThreadsOf(threads, n)[i := t] else ThreadsOf(threads, n)
  {
  }

  /** The engine's step of the thread a label names. */
  function ThreadLabel(l: Label): E.Label
    requires !l.Iterate?
  {
    match l
    case Claim(i) => E.Claim(i)
    case Launch(i, at) => E.Launch(i, at)
    case Finish(i, at, st) => E.Finish(i, at, st)
  }

  function LabelClock(s: Sys, l: Label): int {
    match l
    case Iterate(now, _) => now
    case Claim(_) => s.clock
    case Launch(_, at) => at
    case Finish(_, at, _) => at
  }

  /** Iterations read the clock at most 60 s apart; one in the dispatch window may hand over startable
      jobs of the planning in place, once the threads before have written RUNNING. */
  ghost predicate Enabled(c: Env, s: Sys, l: Label)
    requires ValidEnv(c)
  {
    match l
    case Iterate(now, batch) =>
      && s.last <= now <= s.last + 60 && s.clock <= now
      && batch.Keys !! s.threads.Keys
      && (if Clock.Dispatches(s.start, now, c.initial, c.duration)
          then Current(c, s) in s.plannings
               && E.PollAllowed(Proj(s, Current(c, s)), batch, c.me)
               && forall i | i in s.threads :: s.threads[i].thread.phase != E.Spawned
          else batch == map[])
    case _ =>
      && l.id in s.threads
      && s.threads[l.id].planning in s.plannings
      && E.Enabled(Proj(s, s.threads[l.id].planning), ThreadLabel(l), c.me)
  }

  /** A switch creates the named planning as a full copy of the template unless it is there. */
  ghost function Prepare(c: Env, plannings: map<string, Planning>, n: string): map<string, Planning> {
    if n in plannings then plannings else plannings[n := Image(c.template)]
  }

  ghost function Next(c: Env, s: Sys, l: Label): Sys
    requires ValidEnv(c)
  {
    match l
    case Iterate(now, batch) =>
      var start := Clock.Tick(s.start, now, c.initial, c.duration);
      Sys(if Clock.NextStart(now, c.initial, c.duration) - now <= 60
          then Prepare(c, s.plannings, PlanningName(c.name, start)) else s.plannings,
          start, now,
          s.threads + Spawn(batch, Current(c, s)),
          now)
    case _ =>
      if l.id !in s.threads || s.threads[l.id].planning !in s.plannings then s else
      var n := s.threads[l.id].planning;
      var e := E.Next(Proj(s, n), ThreadLabel(l));
      if l.id !in e.threads then s else
      s.(plannings := s.plannings[n := e.plan],
         threads := s.threads[l.id := SThread(n, e.threads[l.id])],
         clock := LabelClock(s, l))
  }

  ghost function Exec(c: Env, s: Sys, run: seq<Label>): Sys
    requires ValidEnv(c)
  {
    if run == [] then s else Next(c, Exec(c, s, run[..|run| - 1]), run[|run| - 1])
  }

  ghost predicate Legal(c: Env, s: Sys, run: seq<Label>)
    requires ValidEnv(c)
  {
    run == [] || (Legal(c, s, run[..|run| - 1]) && Enabled(c, Exec(c, s, run[..|run| - 1]), run[|run| - 1]))
  }

  /** A master that has just started: the next planning is prepared. Whatever earlier days and other
      domains have left on the server is there too. */
  ghost predicate Init(c: Env, s: Sys)
    requires ValidEnv(c)
  {
    && c.initial <= s.last == s.clock
    && s.start == Clock.NextStart(s.last, c.initial, c.duration)
    && Current(c, s) in s.plannings
    && s.threads == map[]
  }

  /** A planning nobody has worked on, in which the names of the jobs that can be started survive. */
  ghost predicate Pristine(p: Planning, me: string) {
    Consistent(p) && E.ReachableSurvive(p, me) && forall j | j in p.jobs :: E.Untouched(p.jobs[j])
  }

  /** The planning is new: found untouched when the master started, or created since. */
  ghost predicate Ours(c: Env, s: Sys, n: string) {
    n in s.plannings ==> Pristine(s.plannings[n], c.me)
  }

  // ----- each planning is an engine -----

  /** What planning n sees of a step. */
  function Seen(c: Env, s: Sys, l: Label, n: string): seq<E.Label>
    requires c.duration > 0
  {
    match l
    case Iterate(now, batch) =>
      [E.Tick(now)]
      + if Clock.Dispatches(s.start, now, c.initial, c.duration) && n == Current(c, s) then [E.Poll(batch)] else []
    case _ =>
      if l.id in s.threads && s.threads[l.id].planning == n then [ThreadLabel(l)] else [E.Tick(LabelClock(s, l))]
  }

  lemma LegalOne(s: E.State, l: E.Label, me: string)
    requires E.Enabled(s, l, me)
    ensures E.Legal(s, [l], me) && E.Exec(s, [l]) == E.Next(s, l)
  {
  }

  lemma LegalTwo(s: E.State, l: E.Label, m: E.Label, me: string)
    requires E.Enabled(s, l, me) && E.Enabled(E.Next(s, l), m, me)
    ensures E.Legal(s, [l, m], me) && E.Exec(s, [l, m]) == E.Next(E.Next(s, l), m)
  {
    LegalOne(s, l, me);
    assert [l, m][..1] == [l];
  }

  /** Refinement: a step of the system is, for every planning there, one or two legal engine steps. */
  lemma IterateRefines(c: Env, s: Sys, now: int, batch: map<nat, string>, n: string)
    requires ValidEnv(c) && n in s.plannings && Enabled(c, s, Iterate(now, batch))
    ensures n in Next(c, s, Iterate(now, batch)).plannings
    ensures E.Legal(Proj(s, n), Seen(c, s, Iterate(now, batch), n), c.me)
    ensures E.Exec(Proj(s, n), Seen(c, s, Iterate(now, batch), n)) == Proj(Next(c, s, Iterate(now, batch)), n)
  {
    var e, s' := Proj(s, n), Next(c, s, Iterate(now, batch));
    assert n in s'.plannings && s'.plannings[n] == s.plannings[n];
    if Clock.Dispatches(s.start, now, c.initial, c.duration) && n == Current(c, s) {
      DispatchSeen(c, s, now, batch);
    } else {
      LegalOne(e, E.Tick(now), c.me);
      SpawnedThreads(s.threads, batch, Current(c, s), n);
      if !Clock.Dispatches(s.start, now, c.initial, c.duration) {
        assert s.threads + Spawn(batch, Current(c, s)) == s.threads;
      }
    }
  }

  lemma DispatchSeen(c: Env, s: Sys, now: int, batch: map<nat, string>)
    requires ValidEnv(c) && Current(c, s) in s.plannings && Enabled(c, s, Iterate(now, batch))
    requires Clock.Dispatches(s.start, now, c.initial, c.duration)
    ensures var n := Current(c, s);
            && n in Next(c, s, Iterate(now, batch)).plannings
            && E.Legal(Proj(s, n), [E.Tick(now), E.Poll(batch)], c.me)
            && E.Exec(Proj(s, n), [E.Tick(now), E.Poll(batch)]) == Proj(Next(c, s, Iterate(now, batch)), n)
  {
    var n := Current(c, s);
    var e, s' := Proj(s, n), Next(c, s, Iterate(now, batch));
    var e' := E.Next(e, E.Tick(now));
    assert E.PollAllowed(e', batch, c.me) by {
      assert E.PollAllowed(e, batch, c.me);
      assert e'.threads.Keys == e.threads.Keys;
    }
    assert E.NoPending(e');
    LegalTwo(e, E.Tick(now), E.Poll(batch), c.me);
    SpawnedThreads(s.threads, batch, n, n);
  }

  lemma ThreadRefines(c: Env, s: Sys, l: Label, n: string)
    requires ValidEnv(c) && n in s.plannings && !l.Iterate? && Enabled(c, s, l)
    ensures n in Next(c, s, l).plannings
    ensures E.Legal(Proj(s, n), Seen(c, s, l, n), c.me)
    ensures E.Exec(Proj(s, n), Seen(c, s, l, n)) == Proj(Next(c, s, l), n)
  {
    var m := s.threads[l.id].planning;
    var e, s' := Proj(s, n), Next(c, s, l);
    var k := E.Next(Proj(s, m), ThreadLabel(l));
    assert k.threads.Keys == Proj(s, m).threads.Keys && k.clock == LabelClock(s, l);
    assert k.threads == Proj(s, m).threads[l.id := k.threads[l.id]];
    UpdatedThreads(s.threads, l.id, k.threads[l.id], n);
    if n == m {
      LegalOne(e, ThreadLabel(l), c.me);
    } else {
      LegalOne(e, E.Tick(LabelClock(s, l)), c.me);
    }
  }

  lemma StepRefines(c: Env, s: Sys, l: Label, n: string)
    requires ValidEnv(c) && n in s.plannings && Enabled(c, s, l)
    ensures n in Next(c, s, l).plannings
    ensures E.Legal(Proj(s, n), Seen(c, s, l, n), c.me)
    ensures E.Exec(Proj(s, n), Seen(c, s, l, n)) == Proj(Next(c, s, l), n)
  {
    if l.Iterate? {
      IterateRefines(c, s, l.now, l.batch, n);
    } else {
      ThreadRefines(c, s, l, n);
    }
  }

  lemma {:induction false} LegalConcat(s: E.State, a: seq<E.Label>, b: seq<E.Label>, me: string)
    requires E.Legal(s, a, me) && E.Legal(E.Exec(s, a), b, me)
    ensures E.Legal(s, a + b, me) && E.Exec(s, a + b) == E.Exec(E.Exec(s, a), b)
    decreases b
  {
    if b == [] {
      assert a + b == a;
    } else {
      LegalConcat(s, a, b[..|b| - 1], me);
      assert (a + b)[..|a + b| - 1] == a + b[..|b| - 1];
    }
  }

  /** The run planning n sees. */
  ghost function SeenRun(c: Env, s: Sys, run: seq<Label>, n: string): seq<E.Label>
    requires ValidEnv(c)
  {
    if run == [] then []
    else SeenRun(c, s, run[..|run| - 1], n) + Seen(c, Exec(c, s, run[..|run| - 1]), run[|run| - 1], n)
  }

  /** Whatever other plannings do, and through every switch, a planning's jobs, links and threads
      go through a legal run of the engine. */
  lemma {:induction false} RunRefines(c: Env, s: Sys, run: seq<Label>, n: string)
    requires ValidEnv(c) && n in s.plannings && Legal(c, s, run)
    ensures n in Exec(c, s, run).plannings
    ensures E.Legal(Proj(s, n), SeenRun(c, s, run, n), c.me)
    ensures E.Exec(Proj(s, n), SeenRun(c, s, run, n)) == Proj(Exec(c, s, run), n)
  {
    if run != [] {
      var front := run[..|run| - 1];
      RunRefines(c, s, front, n);
      StepRefines(c, Exec(c, s, front), run[|run| - 1], n);
      LegalConcat(Proj(s, n), SeenRun(c, s, front, n), Seen(c, Exec(c, s, front), run[|run| - 1], n), c.me);
    }
  }

  // ----- invariants of the whole system -----

  ghost predicate InStep(c: Env, s: Sys)
    requires ValidEnv(c)
  {
    && Clock.InStep(s.start, s.last, c.initial, c.duration)
    && s.last <= s.clock
    && Current(c, s) in s.plannings
    && (forall i | i in s.threads :: s.threads[i].planning in s.plannings)
  }

  /** Every planning that is new since the state first has the invariants of the engine. */
  ghost predicate Inv(c: Env, first: Sys, s: Sys)
    requires ValidEnv(c)
  {
    && InStep(c, s) && first.plannings.Keys <= s.plannings.Keys
    && forall n | n in s.plannings && Ours(c, first, n) :: Sound(Proj(s, n), c.me)
  }

  ghost predicate Sound(e: E.State, me: string) {
    E.Inv(e, me) && E.Reached(e, me) && E.Caused(e)
  }

  lemma SoundStep(e: E.State, l: E.Label, me: string)
    requires Sound(e, me) && E.Enabled(e, l, me)
    ensures Sound(E.Next(e, l), me)
  {
    E.StepKeepsReached(e, l, me);
    E.StepKeepsInv(e, l, me);
    E.StepKeepsCaused(e, l, me);
  }

  lemma {:induction false} EngineKeeps(e: E.State, run: seq<E.Label>, me: string)
    requires Sound(e, me) && E.Legal(e, run, me)
    ensures Sound(E.Exec(e, run), me)
  {
    if run != [] {
      EngineKeeps(e, run[..|run| - 1], me);
      SoundStep(E.Exec(e, run[..|run| - 1]), run[|run| - 1], me);
    }
  }

  lemma FreshPlanning(s: Sys, n: string, me: string)
    requires n in s.plannings && Pristine(s.plannings[n], me) && forall i | i in s.threads :: s.threads[i].planning != n
    ensures E.Init(Proj(s, n), me) && Sound(Proj(s, n), me)
  {
  }

  /** A planning a switch creates is a full copy of the template on which nothing has happened yet. */
  lemma CreatedFresh(c: Env, s: Sys, l: Label, n: string)
    requires ValidEnv(c) && InStep(c, s) && Enabled(c, s, l)
    requires n !in s.plannings && n in Next(c, s, l).plannings
    ensures Next(c, s, l).plannings[n] == Image(c.template) && E.Init(Proj(Next(c, s, l), n), c.me)
    ensures Sound(Proj(Next(c, s, l), n), c.me)
  {
    var s' := Next(c, s, l);
    ImagePristine(c.template, c.me);
    forall i | i in s'.threads ensures s'.threads[i].planning != n {
      NewThreadsCurrent(c, s, l, i);
    }
    FreshPlanning(s', n, c.me);
  }

  /** Threads belong to plannings that were there before the step. */
  lemma NewThreadsCurrent(c: Env, s: Sys, l: Label, i: nat)
    requires ValidEnv(c) && InStep(c, s) && Enabled(c, s, l) && i in Next(c, s, l).threads
    ensures Next(c, s, l).threads[i].planning in s.plannings
  {
  }

  lemma ImagePristine(p: Planning, me: string)
    requires Consistent(p) && NamesSurvive(p)
    ensures Pristine(Image(p), me)
  {
    ImageFaithful(p);
    E.AllSurviveReachable(Image(p), me);
  }

  lemma InitInv(c: Env, s: Sys)
    requires ValidEnv(c) && Init(c, s)
    ensures Inv(c, s, s)
  {
    Clock.NextStartExact(s.last, c.initial, c.duration);
    forall n | n in s.plannings && Ours(c, s, n) ensures Sound(Proj(s, n), c.me) {
      FreshPlanning(s, n, c.me);
    }
  }

  lemma StepKeepsPlannings(c: Env, first: Sys, s: Sys, l: Label, n: string)
    requires ValidEnv(c) && Inv(c, first, s) && Enabled(c, s, l)
    requires n in Next(c, s, l).plannings && Ours(c, first, n)
    ensures Sound(Proj(Next(c, s, l), n), c.me)
  {
    if n in s.plannings {
      StepRefines(c, s, l, n);
      EngineKeeps(Proj(s, n), Seen(c, s, l, n), c.me);
    } else {
      CreatedFresh(c, s, l, n);
    }
  }

  lemma StepKeepsInv(c: Env, first: Sys, s: Sys, l: Label)
    requires ValidEnv(c) && Inv(c, first, s) && Enabled(c, s, l)
    ensures Inv(c, first, Next(c, s, l))
  {
    var s' := Next(c, s, l);
    StepKeepsClock(c, s, l);
    forall n | n in s'.plannings && Ours(c, first, n) ensures Sound(Proj(s', n), c.me) {
      StepKeepsPlannings(c, first, s, l, n);
    }
  }

  lemma StepKeepsClock(c: Env, s: Sys, l: Label)
    requires ValidEnv(c) && InStep(c, s) && Enabled(c, s, l)
    ensures InStep(c, Next(c, s, l)) && s.plannings.Keys <= Next(c, s, l).plannings.Keys
  {
    var s' := Next(c, s, l);
    if l.Iterate? {
      Clock.TickKeepsInStep(s.start, s.last, l.now, c.initial, c.duration);
    } else {
      assert s'.plannings.Keys == s.plannings.Keys;
      assert s'.start == s.start && s'.last == s.last && s.clock <= s'.clock;
    }
    forall i | i in s'.threads ensures s'.threads[i].planning in s'.plannings {
      NewThreadsCurrent(c, s, l, i);
    }
  }

  /** Roll-over and safety over whole runs: the planning start stays in step with the clock, the
      planning it names exists, and every new planning satisfies the engine's invariants. */
  lemma {:induction false} RunInv(c: Env, s: Sys, run: seq<Label>)
    requires ValidEnv(c) && Init(c, s) && Legal(c, s, run)
    ensures Inv(c, s, Exec(c, s, run))
  {
    if run == [] {
      InitInv(c, s);
    } else {
      var front := run[..|run| - 1];
      RunInv(c, s, front);
      StepKeepsInv(c, s, Exec(c, s, front), run[|run| - 1]);
    }
  }

  /** No job of a new planning is ever handed to two threads, across all switches. */
  lemma OneThreadPerJob(c: Env, s: Sys, run: seq<Label>, i: nat, k: nat)
    requires ValidEnv(c) && Init(c, s) && Legal(c, s, run)
    requires var e := Exec(c, s, run); i in e.threads && k in e.threads && i != k && Ours(c, s, e.threads[i].planning)
    ensures var e := Exec(c, s, run);
            e.threads[i].planning != e.threads[k].planning || e.threads[i].thread.job != e.threads[k].thread.job
  {
    var e := Exec(c, s, run);
    RunInv(c, s, run);
    var n := e.threads[i].planning;
    if e.threads[k].planning == n {
      var p := Proj(e, n);
      assert p.threads[i] == e.threads[i].thread && p.threads[k] == e.threads[k].thread;
    }
  }

  /** In every run, an iteration that starts anything starts jobs of the planning of its own
      period, more than 60 s before that period's end, and does not switch. */
  lemma WindowOverRuns(c: Env, s: Sys, run: seq<Label>, now: int, batch: map<nat, string>)
    requires ValidEnv(c) && Init(c, s) && Legal(c, s, run)
    requires Enabled(c, Exec(c, s, run), Iterate(now, batch)) && batch != map[]
    ensures var e := Exec(c, s, run);
            && Clock.Boundary(e.start, c.initial, c.duration)
            && e.start <= now < e.start + c.duration - 60
            && Next(c, e, Iterate(now, batch)).start == e.start
            && forall i | i in batch ::
                 Next(c, e, Iterate(now, batch)).threads[i].planning == PlanningName(c.name, e.start)
  {
    var e := Exec(c, s, run);
    RunInv(c, s, run);
    Clock.DispatchWindow(e.start, e.last, now, c.initial, c.duration);
    Clock.InStepMeaning(e.start, e.last, c.initial, c.duration);
  }

  /** Steps that do not concern a planning leave its rows alone: a switch to an existing planning
      changes nothing, and a thread writes only into the planning its job was read from. */
  lemma Isolation(c: Env, s: Sys, l: Label, n: string)
    requires ValidEnv(c) && n in s.plannings && Enabled(c, s, l)
    ensures n in Next(c, s, l).plannings
    ensures Next(c, s, l).plannings[n] != s.plannings[n] ==> !l.Iterate? && s.threads[l.id].planning == n
  {
  }

  /** The commands of planning n's jobs succeed exactly for those in ok. */
  ghost predicate Respects(c: Env, s: Sys, run: seq<Label>, n: string, ok: set<string>)
    requires ValidEnv(c)
  {
    run == [] ||
    (var front, l := run[..|run| - 1], run[|run| - 1];
     var d := Exec(c, s, front);
     && Respects(c, s, front, n, ok)
     && (l.Finish? && l.id in d.threads && d.threads[l.id].planning == n
         ==> (E.Success(l.status) <==> d.threads[l.id].thread.job in ok)))
  }

  lemma {:induction false} RespectsConcat(s: E.State, a: seq<E.Label>, b: seq<E.Label>, ok: set<string>)
    requires D.Respects(s, a, ok) && D.Respects(E.Exec(s, a), b, ok)
    ensures D.Respects(s, a + b, ok) && E.Exec(s, a + b) == E.Exec(E.Exec(s, a), b)
    decreases b
  {
    if b == [] {
      assert a + b == a;
    } else {
      var front, l := b[..|b| - 1], b[|b| - 1];
      RespectsConcat(s, a, front, ok);
      assert (a + b)[..|a + b| - 1] == a + front && (a + b)[|a + b| - 1] == l;
    }
  }

  lemma SeenRespects(c: Env, s: Sys, l: Label, n: string, ok: set<string>)
    requires ValidEnv(c) && n in s.plannings
    requires l.Finish? && l.id in s.threads && s.threads[l.id].planning == n
             ==> (E.Success(l.status) <==> s.threads[l.id].thread.job in ok)
    ensures D.Respects(Proj(s, n), Seen(c, s, l, n), ok)
  {
    var e, q := Proj(s, n), Seen(c, s, l, n);
    assert D.RespectsLabel(e, q[0], ok);
    assert q[..0] == [];
    assert q == if |q| == 1 then [q[0]] else [q[0], q[1]];
    RespectsOne(e, q[0], ok);
    if |q| == 2 {
      assert [q[0], q[1]][..1] == [q[0]];
      assert D.RespectsLabel(E.Exec(e, [q[0]]), q[1], ok);
    }
  }

  lemma RespectsOne(s: E.State, l: E.Label, ok: set<string>)
    requires D.RespectsLabel(s, l, ok)
    ensures D.Respects(s, [l], ok)
  {
    var run := [l];
    assert run[..|run| - 1] == [] && run[|run| - 1] == l;
    assert D.Respects(s, [], ok) && E.Exec(s, []) == s;
  }

  lemma {:induction false} RunRespects(c: Env, s: Sys, run: seq<Label>, n: string, ok: set<string>)
    requires ValidEnv(c) && n in s.plannings && Legal(c, s, run) && Respects(c, s, run, n, ok)
    ensures D.Respects(Proj(s, n), SeenRun(c, s, run, n), ok)
  {
    if run != [] {
      var front := run[..|run| - 1];
      RunRespects(c, s, front, n, ok);
      RunRefines(c, s, front, n);
      SeenRespects(c, Exec(c, s, front), run[|run| - 1], n, ok);
      RespectsConcat(Proj(s, n), SeenRun(c, s, front, n), Seen(c, Exec(c, s, front), run[|run| - 1], n), ok);
    }
  }

  // ----- determinacy inside the whole system -----

  /** The planning as it is before anything happens to it: as found, or as a switch creates it. */
  ghost function Fresh(c: Env, s: Sys, n: string): Planning {
    if n in s.plannings then s.plannings[n] else Image(c.template)
  }

  /** What a planning has gone through by the end of a run from the start of the master is a legal
      engine run on the fresh planning, whenever the planning was created. */
  lemma {:induction false} PlanningRun(c: Env, s: Sys, run: seq<Label>, n: string, ok: set<string>)
    returns (e: E.State, seen: seq<E.Label>)
    requires ValidEnv(c) && Init(c, s) && Legal(c, s, run)
    requires n in Exec(c, s, run).plannings && Ours(c, s, n)
    ensures E.Init(e, c.me) && e.plan == Fresh(c, s, n)
    ensures E.Legal(e, seen, c.me) && E.Exec(e, seen) == Proj(Exec(c, s, run), n)
    ensures Respects(c, s, run, n, ok) ==> D.Respects(e, seen, ok)
  {
    if run == [] {
      FreshPlanning(s, n, c.me);
      e, seen := Proj(s, n), [];
    } else {
      var front, l := run[..|run| - 1], run[|run| - 1];
      var d := Exec(c, s, front);
      if n in d.plannings {
        var q;
        e, q := PlanningRun(c, s, front, n, ok);
        StepRefines(c, d, l, n);
        seen := q + Seen(c, d, l, n);
        LegalConcat(e, q, Seen(c, d, l, n), c.me);
        if Respects(c, s, run, n, ok) {
          SeenRespects(c, d, l, n, ok);
          RespectsConcat(e, q, Seen(c, d, l, n), ok);
        }
      } else {
        RunInv(c, s, front);
        CreatedFresh(c, d, l, n);
        NotBefore(c, s, front, n);
        e, seen := Proj(Exec(c, s, run), n), [];
      }
    }
  }

  /** No planning ever goes away. */
  lemma {:induction false} NotBefore(c: Env, s: Sys, run: seq<Label>, n: string)
    requires ValidEnv(c) && Legal(c, s, run) && n !in Exec(c, s, run).plannings
    ensures n !in s.plannings
  {
    if n in s.plannings {
      RunRefines(c, s, run, n);
    }
  }

  /** However a run from the start of the master goes on, a planning it leaves quiescent has started
      exactly the least closed set of the fresh planning, and that set fixes every job's state. */
  lemma PlanningOutcome(c: Env, s: Sys, run: seq<Label>, n: string, ok: set<string>)
    requires ValidEnv(c) && Init(c, s) && Legal(c, s, run) && Respects(c, s, run, n, ok)
    requires Ours(c, s, n) && n in Exec(c, s, run).plannings && D.Quiescent(Proj(Exec(c, s, run), n), c.me)
    ensures var e, p := Proj(Exec(c, s, run), n), Fresh(c, s, n);
            && E.Closed(p, c.me, ok, D.StartedJobs(e))
            && (forall t :: E.Closed(p, c.me, ok, t) ==> D.StartedJobs(e) <= t)
            && e.plan.jobs.Keys == p.jobs.Keys
            && forall j | j in p.jobs :: e.plan.jobs[j].state ==
                 if j !in D.StartedJobs(e) then Waiting else if j in ok then Succeeded else Failed
  {
    var e, seen := PlanningRun(c, s, run, n, ok);
    D.QuiescentState(e, seen, c.me, ok);
  }

  /** Two runs from the start of the master that each leave a planning quiescent, whether they found it
      or created it, and at whatever times, agree on the state of every one of its jobs. */
  lemma PlanningDeterminate(c: Env, s: Sys, run1: seq<Label>, run2: seq<Label>, n: string, ok: set<string>)
    requires ValidEnv(c) && Init(c, s) && Ours(c, s, n)
    requires Legal(c, s, run1) && Respects(c, s, run1, n, ok) && n in Exec(c, s, run1).plannings
    requires Legal(c, s, run2) && Respects(c, s, run2, n, ok) && n in Exec(c, s, run2).plannings
    requires D.Quiescent(Proj(Exec(c, s, run1), n), c.me) && D.Quiescent(Proj(Exec(c, s, run2), n), c.me)
    ensures var p, q := Exec(c, s, run1).plannings[n], Exec(c, s, run2).plannings[n];
            && p.jobs.Keys == q.jobs.Keys == Fresh(c, s, n).jobs.Keys
            && forall j | j in p.jobs :: p.jobs[j].state == q.jobs[j].state
  {
    PlanningOutcome(c, s, run1, n, ok);
    PlanningOutcome(c, s, run2, n, ok);
    assert D.StartedJobs(Proj(Exec(c, s, run1), n)) == D.StartedJobs(Proj(Exec(c, s, run2), n));
  }

  /** In every run, an iteration that finds the gate open starts no job of a new planning outside its own
      time constraints, if at every reading of the planning's window at which the gate is open the jobs
      that can be started meet theirs. */
  lemma TimesKept(c: Env, s: Sys, run: seq<Label>, now: int, batch: map<nat, string>, i: nat, minuteAt: int -> int)
    requires ValidEnv(c) && Init(c, s) && Legal(c, s, run) && Enabled(c, Exec(c, s, run), Iterate(now, batch))
    requires i in batch && Ours(c, s, Current(c, Exec(c, s, run)))
    requires GateOpen(Fresh(c, s, Current(c, Exec(c, s, run))), minuteAt(now))
    requires var e := Exec(c, s, run); var p := Fresh(c, s, Current(c, e));
             forall t, j | e.start <= t < e.start + c.duration - 60 && GateOpen(p, minuteAt(t))
                           && E.Reachable(p, c.me, j) :: OwnTimeMet(p, j, minuteAt(t))
    ensures OwnTimeMet(Fresh(c, s, Current(c, Exec(c, s, run))), batch[i], minuteAt(now))
  {
    var e := Exec(c, s, run);
    WindowOverRuns(c, s, run, now, batch);
    var first, seen := PlanningRun(c, s, run, Current(c, e), {});
    A.HandedOverReachable(first, seen, c.me, batch, i);
  }

  // ----- what is run -----

  /** Through every run the jobs of a planning created since the start keep the template's nodes and the
      command lines the server reads for the template's. */
  lemma TemplateCommands(c: Env, s: Sys, run: seq<Label>, n: string, j: string)
    requires ValidEnv(c) && Init(c, s) && Legal(c, s, run)
    requires n in Exec(c, s, run).plannings && n !in s.plannings
    ensures var rows := Exec(c, s, run).plannings[n].jobs;
            && (j in rows <==> j in c.template.jobs)
            && (j in rows && Literal(c.template.jobs[j].cmdLine).Some? ==>
                  && Some(rows[j].cmdLine) == Literal(c.template.jobs[j].cmdLine)
                  && rows[j].node == c.template.jobs[j].node)
  {
    var e, seen := PlanningRun(c, s, run, n, {});
    E.RunInv(e, seen, c.me);
  }

  /** A job started of such a planning runs the command line the server reads for the template's job of its
      name, and the template's own text when that survives. */
  lemma StartedCommand(c: Env, s: Sys, run: seq<Label>, t: TJob)
    requires ValidEnv(c) && Init(c, s) && Legal(c, s, run)
    requires var e := Exec(c, s, run); var n := Current(c, e);
             n in e.plannings && n !in s.plannings && t.name in e.plannings[n].jobs
             && FromRow(t, n, e.plannings[n].jobs[t.name])
    ensures t.name in c.template.jobs
    ensures var text := c.template.jobs[t.name].cmdLine;
            (Literal(text).Some? ==> Literal(text) == Some(t.cmdLine)) && (Survives(text) ==> t.cmdLine == text)
  {
    TemplateCommands(c, s, run, Current(c, Exec(c, s, run)), t.name);
  }

  // ----- the loop's own method makes these steps -----

  /** The plannings of a database: every schema with tables but the template. */
  function Plannings(schemas: map<string, Schema>, domain: string): map<string, Planning> {
    map n | n in schemas && n != domain && schemas[n].HasTables? :: schemas[n].plan
  }

  /** The switch that is due has prepared the planning next and returned true. */
  ghost predicate Switched(c: Env, before: map<string, Schema>, next: string, after: map<string, Schema>) {
    && (exists order :: Prepared(before, c.template, next, Loads, c.duration, order, Write(after, Returned(true))))
    && Usable(after, next)
  }

  lemma SwitchLeaves(c: Env, before: map<string, Schema>, next: string, after: map<string, Schema>)
    requires ValidEnv(c) && Survives(next) && Switched(c, before, next, after)
    ensures after == if next in before then before else before[next := HasTables(Image(c.template))]
  {
    var order :| Prepared(before, c.template, next, Loads, c.duration, order, Write(after, Returned(true)));
    PreparedReturns(before, c.template, next, c.duration, order, after);
  }

  lemma OneMorePlanning(schemas: map<string, Schema>, domain: string, next: string, p: Planning)
    requires next != domain
    ensures Plannings(schemas[next := HasTables(p)], domain) == Plannings(schemas, domain)[next := p]
  {
  }

  /** A successful switch prepares exactly the planning the system's step prepares. */
  lemma SwitchIsPrepare(c: Env, before: map<string, Schema>, next: string, after: map<string, Schema>)
    requires ValidEnv(c) && Survives(next) && next != c.name && Switched(c, before, next, after)
    ensures Plannings(after, c.name) == Prepare(c, Plannings(before, c.name), next)
  {
    SwitchLeaves(c, before, next, after);
    OneMorePlanning(before, c.name, next, Image(c.template));
  }

  /** What one iteration of the loop with a single clock reading leaves, if the switch succeeds where
      one is due, is a step of the system. */
  lemma IterateIsStep(c: Env, s: Sys, before: map<string, Schema>, now: int, minute: int, batch: map<nat, string>,
                      after: map<string, Schema>, start: int)
    requires ValidEnv(c) && InStep(c, s) && Plannings(before, c.name) == s.plannings
    requires s.last <= now <= s.last + 60 && s.clock <= now
    requires var next := Clock.NextStart(now, c.initial, c.duration);
             if next - now <= 60 then start == next && Switched(c, before, PlanningName(c.name, next), after)
             else start == s.start && after == before
    requires batch.Keys !! s.threads.Keys && E.Injective(batch)
    requires forall i | i in s.threads :: s.threads[i].thread.phase != E.Spawned
    requires batch != map[] ==> s.start <= now && start <= now
    requires Current(c, s) in s.plannings ==> batch.Values <= Dispatchable(s.plannings[Current(c, s)], minute, c.me)
    ensures Enabled(c, s, Iterate(now, batch))
    ensures Plannings(after, c.name) == Next(c, s, Iterate(now, batch)).plannings
    ensures start == Next(c, s, Iterate(now, batch)).start
  {
    if Clock.NextStart(now, c.initial, c.duration) - now <= 60 {
      PlanningNameSurvives(c.name, start);
      SwitchIsPrepare(c, before, PlanningName(c.name, start), after);
    }
    if Clock.Dispatches(s.start, now, c.initial, c.duration) {
      var e := Proj(s, Current(c, s));
      forall i | i in batch ensures Startable(e.plan, batch[i], c.me) {
        assert batch[i] in batch.Values;
        ViewExactness(e.plan, minute, c.me, batch[i]);
      }
    }
  }

  /** The started jobs under fresh thread numbers. */
  lemma {:induction false} Numbered(jobs: seq<TJob>, taken: set<nat>) returns (batch: map<nat, string>)
    requires DistinctJobs(jobs)
    ensures batch.Keys !! taken && E.Injective(batch)
    ensures forall j :: j in batch.Values <==> exists t :: t in jobs && t.name == j
  {
    batch := map[];
    if jobs != [] {
      var n := |jobs| - 1;
      var rest := Numbered(jobs[..n], taken);
      var i := D.FreshId(taken + rest.Keys);
      assert i !in taken && i !in rest;
      batch := rest[i := jobs[n].name];
      forall k | k in rest ensures rest[k] != jobs[n].name {
        assert rest[k] in rest.Values;
      }
      forall j ensures j in batch.Values <==> exists t :: t in jobs && t.name == j {
        OneMoreValue(rest, i, jobs[n].name, j);
        assert forall t :: t in jobs <==> t in jobs[..n] || t == jobs[n];
      }
    }
  }

  lemma OneMoreValue(rest: map<nat, string>, i: nat, name: string, j: string)
    requires i !in rest
    ensures j in rest[i := name].Values <==> j in rest.Values || j == name
  {
    var batch := rest[i := name];
    assert batch[i] == name;
    if j in rest.Values {
      var k :| k in rest && rest[k] == j;
      assert batch[k] == j;
    }
  }

  /** The database and the domain object are in the state s of the system. */
  ghost predicate Shows(c: Env, s: Sys, d: Domain)
    requires ValidEnv(c)
    reads d, d.database
  {
    && d.Valid() && d.name == c.name && d.initialStart == c.initial && d.duration == c.duration
    && d.Template() == c.template
    && d.planningStart == s.start
    && Plannings(d.database.schemas, c.name) == s.plannings
  }

  /** One iteration of the loop from a state of the system. When no switch is due, or the switch
      succeeds, the domain shows the state after a step of the system that starts the same jobs. */
  method Turn(domain: Domain, passive: bool, now: int, minute: int, ghost c: Env, ghost s: Sys, me: string)
    returns (started: seq<TJob>, alive: bool, ghost switched: Option<Outcome>, ghost batch: map<nat, string>)
    requires ValidEnv(c) && InStep(c, s) && Shows(c, s, domain) && me == c.me
    requires s.last <= now <= s.last + 60 && s.clock <= now
    requires forall i | i in s.threads :: s.threads[i].thread.phase != E.Spawned
    modifies domain, domain.database
    ensures forall j :: j in batch.Values <==> exists t :: t in started && t.name == j
    ensures started != [] ==> Current(c, s) in s.plannings
    ensures forall t | t in started ::
              t.name in s.plannings[Current(c, s)].jobs
              && FromRow(t, Current(c, s), s.plannings[Current(c, s)].jobs[t.name])
    ensures var next := Clock.NextStart(now, c.initial, c.duration);
            (next - now <= 60 ==> switched == Some(Returned(true))
                                  && Usable(domain.database.schemas, PlanningName(c.name, next)))
            ==> Enabled(c, s, Iterate(now, batch)) && Shows(c, Next(c, s, Iterate(now, batch)), domain)
  {
    ghost var before := domain.database.schemas;
    started, alive, switched := Master.Iterate(domain, me, passive, now, now, now, minute, Loads);
    batch := map[];
    ghost var next := Clock.NextStart(now, c.initial, c.duration);
    Clock.NextStartExact(now, c.initial, c.duration);
    if started != [] {
      batch := Numbered(started, s.threads.Keys);
      StartedNames(before, c, s, started, minute, batch);
    }
    if next - now <= 60 ==> switched == Some(Returned(true))
                            && Usable(domain.database.schemas, PlanningName(c.name, next)) {
      IterateIsStep(c, s, before, now, minute, batch, domain.database.schemas, domain.planningStart);
    }
  }

  lemma StartedNames(schemas: map<string, Schema>, c: Env, s: Sys, started: seq<TJob>, minute: int,
                     batch: map<nat, string>)
    requires Usable(schemas, Current(c, s)) && Plannings(schemas, c.name) == s.plannings
    requires forall t | t in started :: t.name in Dispatchable(schemas[Current(c, s)].plan, minute, c.me)
    requires forall j :: j in batch.Values <==> exists t :: t in started && t.name == j
    ensures Current(c, s) in s.plannings
    ensures batch.Values <= Dispatchable(s.plannings[Current(c, s)], minute, c.me)
  {
  }
}
