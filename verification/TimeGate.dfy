/** When the shared time gate honours each job's own time constraints
    (etc/mysql/skeleton.sql:183-209, src/master.cpp:184-220). */
module TimeGate {
  import opened Tables
  import opened Engine
  import opened Determinacy
  import opened AllPredecessors

  /** The readings at which a planning may be polled, and the minute of the day at each of them. */
  datatype Day = Day(from: int, to: int, minuteAt: int -> int)

  /** A poll at this reading finds the gate of the view open. */
  ghost predicate OpenAt(p: Planning, day: Day, t: int) {
    day.from <= t < day.to && GateOpen(p, day.minuteAt(t))
  }

  /** Every poll of the run that hands over anything finds the gate open. */
  ghost predicate Gated(s: State, run: seq<Label>, day: Day) {
    forall n: nat | n < |run| && run[n].Poll? && run[n].batch != map[] :: OpenAt(s.plan, day, Exec(s, run[..n]).clock)
  }

  /** After such a run, batch is handed over through an open gate. */
  ghost predicate HandsOver(s: State, run: seq<Label>, me: string, day: Day, batch: map<nat, string>) {
    && Legal(s, run, me) && Gated(s, run, day)
    && Enabled(Exec(s, run), Poll(batch), me) && OpenAt(s.plan, day, Exec(s, run).clock)
  }

  /** Whatever is handed over in any run meets its own time constraints at that reading. */
  ghost predicate HonoursTimes(s: State, me: string, day: Day) {
    forall run, batch, i | HandsOver(s, run, me, day, batch) && i in batch ::
      OwnTimeMet(s.plan, batch[i], day.minuteAt(Exec(s, run).clock))
  }

  /** The gate is shared: over all runs every job starts only while its own time constraints are met,
      exactly when at every reading still to come that finds the gate open all reachable jobs meet theirs. */
  lemma SharedGate(s: State, me: string, day: Day)
    requires Init(s, me)
    ensures HonoursTimes(s, me, day) <==>
            forall t, j | s.clock <= t && OpenAt(s.plan, day, t) && Reachable(s.plan, me, j) ::
              OwnTimeMet(s.plan, j, day.minuteAt(t))
  {
    if forall t, j | s.clock <= t && OpenAt(s.plan, day, t) && Reachable(s.plan, me, j) ::
         OwnTimeMet(s.plan, j, day.minuteAt(t)) {
      forall run, batch, i | HandsOver(s, run, me, day, batch) && i in batch
        ensures OwnTimeMet(s.plan, batch[i], day.minuteAt(Exec(s, run).clock))
      {
        RunInv(s, run, me);
        HandedOverReachable(s, run, me, batch, i);
      }
    }
    if HonoursTimes(s, me, day) {
      forall t, j | s.clock <= t && OpenAt(s.plan, day, t) && Reachable(s.plan, me, j)
        ensures OwnTimeMet(s.plan, j, day.minuteAt(t))
      {
        var run, batch, i := HandedOverAt(s, me, day, t, j);
        assert HandsOver(s, run, me, day, batch) && i in batch;
      }
    }
  }

  /** Whenever the gate is open, any reachable job may be handed over at that very reading. */
  lemma HandedOverAt(s: State, me: string, day: Day, t: int, j: string)
    returns (run: seq<Label>, batch: map<nat, string>, i: nat)
    requires Init(s, me) && s.clock <= t && OpenAt(s.plan, day, t) && Reachable(s.plan, me, j)
    ensures HandsOver(s, run, me, day, batch) && i in batch && batch[i] == j && Exec(s, run).clock == t
  {
    var full := AllAt(s, me, t, j);
    var n;
    n, i := PollOf(s, full, me, j);
    run, batch := full[..n], full[n].batch;
    LegalPrefix(s, full, me, n + 1);
    assert full[..n + 1][..n] == run;
    AllAtSame(s, full, me, t, n);
    forall m: nat | m < |run| && run[m].Poll? && run[m].batch != map[]
      ensures OpenAt(s.plan, day, Exec(s, run[..m]).clock)
    {
      AllAtSame(s, full, me, t, m);
      assert run[..m] == full[..m];
    }
  }

  /** From reading t on no time passes. */
  ghost predicate StandsStill(s: State, run: seq<Label>, me: string, t: int) {
    run != [] && run[0] == Tick(t) && Legal(s, run, me) && Exec(s, run[..1]).clock == Exec(s, run).clock == t
  }

  /** A run that waits for reading t and then does everything at once. */
  lemma AllAt(s: State, me: string, t: int, j: string) returns (full: seq<Label>)
    requires Init(s, me) && s.clock <= t && Reachable(s.plan, me, j)
    ensures StandsStill(s, full, me, t) && HasThread(Exec(s, full), j)
  {
    var ok := s.plan.jobs.Keys;
    var wait: seq<Label> := [];
    OneMoreStep(s, wait, Tick(t), me);
    wait := wait + [Tick(t)];
    assert wait[..0] == [];
    assert Respects(s, wait, ok);
    full := ReachesQuiescence(s, wait, me, ok);
    QuiescentState(s, full, me, ok);
    StartedMeansThread(Exec(s, full), j);
    assert full[..1] == wait;
  }

  lemma AllAtSame(s: State, full: seq<Label>, me: string, t: int, n: nat)
    requires Init(s, me) && StandsStill(s, full, me, t) && n < |full| && full[n].Poll?
    ensures Exec(s, full[..n]).clock == t
  {
    RunIsLater(s, full, me, 1, n);
    RunIsLater(s, full, me, n, |full|);
    assert full[..|full|] == full;
  }

  /** The poll of a run that handed over j. */
  lemma {:induction false} PollOf(s: State, run: seq<Label>, me: string, j: string) returns (n: nat, i: nat)
    requires s.threads == map[] && Legal(s, run, me) && HasThread(Exec(s, run), j)
    ensures n < |run| && run[n].Poll? && i in run[n].batch && run[n].batch[i] == j
  {
    var front, l := run[..|run| - 1], run[|run| - 1];
    var d := Exec(s, front);
    if HasThread(d, j) {
      n, i := PollOf(s, front, me, j);
    } else {
      n := |run| - 1;
      i :| i in Exec(s, run).threads && Exec(s, run).threads[i].job == j;
      AddedByPoll(d, l, me, i, j);
    }
  }

  lemma AddedByPoll(d: State, l: Label, me: string, i: nat, j: string)
    requires Enabled(d, l, me) && !HasThread(d, j)
    requires i in Next(d, l).threads && Next(d, l).threads[i].job == j
    ensures l.Poll? && i in l.batch && l.batch[i] == j
  {
  }

  // ----- constraints that do no harm beside a job without any -----

  /** A job that may start until 23:59, two jobs that wait for each other, one of them held until 01:00,
      and a job without constraints. */
  function Harmless(): Planning {
    var row := JobRow("c", "n", 1, Waiting, None, None);
    Planning(map["n" := 1], map["late" := row, "a" := row, "b" := row, "free" := row], {("a", "b"), ("b", "a")},
             map[(Before, "late") := 86340, (At, "a") := 3600])
  }

  /** The gate of this planning never closes, and still every start honours the constraints. */
  lemma HarmlessHonours(s: State, day: Day)
    requires s.plan == Harmless() && Init(s, "n") && forall t :: 0 <= day.minuteAt(t) < 1440
    ensures HonoursTimes(s, "n", day)
    ensures forall t | day.from <= t < day.to :: OpenAt(s.plan, day, t)
  {
    var p := s.plan;
    assert Unconstrained(p, "free");
    forall t ensures OwnTimeMet(p, "free", day.minuteAt(t)) && OwnTimeMet(p, "late", day.minuteAt(t)) {
      assert (Before, "late") in p.constraints;
    }
    HarmlessReachable(p);
    SharedGate(s, "n", day);
  }

  lemma HarmlessReachable(p: Planning)
    requires p == Harmless()
    ensures forall j | Reachable(p, "n", j) :: j == "late" || j == "free"
  {
    assert ("a", "b") in p.links && ("b", "a") in p.links;
    assert HasPredecessor(p, "a") && HasPredecessor(p, "b");
    var t := {"late", "free"};
    assert Closed(p, "n", p.jobs.Keys, t);
  }
}
