/** When a planning runs as its links are described, each job after ALL its predecessors
    (etc/mysql/skeleton.sql:212-227, src/model.thrift:175-180, src/master.cpp:207-220). */
module AllPredecessors {
  import opened Tables
  import opened Literals
  import opened Engine
  import opened Determinacy

  ghost predicate AllDone(p: Planning, j: string) {
    forall i | (i, j) in p.links :: i in p.jobs && p.jobs[i].state == Succeeded
  }

  /** In every run, every job a poll hands over has all its predecessors succeeded. */
  ghost predicate WaitsForAll(s: State, me: string) {
    forall run, batch, i | Legal(s, run, me) && Enabled(Exec(s, run), Poll(batch), me) && i in batch ::
      AllDone(Exec(s, run).plan, batch[i])
  }

  ghost predicate OnePredecessor(p: Planning, j: string) {
    forall i, k | (i, j) in p.links && (k, j) in p.links :: i == k
  }

  /** A planner can tell beforehand: a planning runs each job after all its predecessors exactly when
      no reachable job has two of them. */
  lemma WaitsForAllExactly(s: State, me: string)
    requires Init(s, me)
    ensures WaitsForAll(s, me) <==> forall j | Reachable(s.plan, me, j) :: OnePredecessor(s.plan, j)
  {
    if forall j | Reachable(s.plan, me, j) :: OnePredecessor(s.plan, j) {
      forall run, batch, i | Legal(s, run, me) && Enabled(Exec(s, run), Poll(batch), me) && i in batch
        ensures AllDone(Exec(s, run).plan, batch[i])
      {
        HandedOverReachable(s, run, me, batch, i);
        assert OnePredecessor(s.plan, batch[i]);
        RunInv(s, run, me);
        OneIsAll(s.plan, Exec(s, run).plan, batch[i], me);
      }
    }
    if WaitsForAll(s, me) {
      forall j | Reachable(s.plan, me, j) ensures OnePredecessor(s.plan, j) {
        forall i, k | (i, j) in s.plan.links && (k, j) in s.plan.links ensures i == k {
          if i != k {
            var run, batch := TooEarly(s, me, j, i, k);
            assert false;
          }
        }
      }
    }
  }

  lemma HandedOverReachable(s: State, run: seq<Label>, me: string, batch: map<nat, string>, i: nat)
    requires Init(s, me) && Legal(s, run, me) && Enabled(Exec(s, run), Poll(batch), me) && i in batch
    ensures Reachable(s.plan, me, batch[i])
  {
    var more := run + [Poll(batch)];
    OneMoreStep(s, run, Poll(batch), me);
    RunInv(s, more, me);
    var e := Exec(s, more);
    assert e.threads[i].job == batch[i] && batch[i] in StartedJobs(e);
    forall t | Closed(s.plan, me, s.plan.jobs.Keys, t) ensures batch[i] in t {
      StartedWithinClosed(s, more, me, s.plan.jobs.Keys, t);
    }
  }

  lemma OneIsAll(p: Planning, q: Planning, j: string, me: string)
    requires p.links == q.links && OnePredecessor(p, j) && Startable(q, j, me)
    ensures AllDone(q, j)
  {
  }

  // ----- a reachable job with two predecessors is handed over too early in some run -----

  lemma NoneDone(s: State, j: string)
    requires Unpolled(s)
    ensures !HasSucceededPredecessor(s.plan, j)
  {
  }

  /** The first state of a run in which a predecessor of j has succeeded. */
  lemma FirstDone(s: State, run: seq<Label>, j: string) returns (n: nat)
    requires Unpolled(s) && HasSucceededPredecessor(Exec(s, run).plan, j)
    ensures 0 < n <= |run| && HasSucceededPredecessor(Exec(s, run[..n]).plan, j)
    ensures !HasSucceededPredecessor(Exec(s, run[..n - 1]).plan, j)
  {
    NoneDone(s, j);
    assert run[..0] == [] && run[..|run|] == run && run != [];
    n := 1;
    while !HasSucceededPredecessor(Exec(s, run[..n]).plan, j)
      invariant 0 < n <= |run| && !HasSucceededPredecessor(Exec(s, run[..n - 1]).plan, j)
      decreases |run| - n
    {
      n := n + 1;
    }
  }

  /** Along a chain the job before j has succeeded. */
  lemma CauseDone(s: State, j: string)
    requires Caused(s) && HasThread(s, j) && HasPredecessor(s.plan, j)
    ensures HasSucceededPredecessor(s.plan, j)
  {
    var path :| Chain(s.plan, path, j);
    var k := |path| - 2;
    assert k >= 0;
    assert (path[k], path[k + 1]) in s.plan.links;
  }

  /** A step that lets a first predecessor of j succeed neither starts j nor lets another one succeed. */
  lemma OneAtATime(d: State, l: Label, me: string, j: string, i: string, k: string)
    requires Inv(d, me) && Caused(d) && Enabled(d, l, me) && !HasSucceededPredecessor(d.plan, j)
    requires (i, j) in d.plan.links && (k, j) in d.plan.links && i != k && i in d.plan.jobs && k in d.plan.jobs
    ensures var e := Next(d, l);
            !HasThread(e, j) && i in e.plan.jobs && k in e.plan.jobs
            && !(e.plan.jobs[i].state == Succeeded && e.plan.jobs[k].state == Succeeded)
  {
    var e := Next(d, l);
    assert HasPredecessor(d.plan, j);
    if HasThread(e, j) {
      NewThread(d, l, me, j);
      CauseDone(d, j);
    }
    if !l.Poll? && !l.Tick? {
      ThreadStep(d, l, me);
    }
  }

  /** The threads waiting to write RUNNING write it; no other state changes. */
  lemma {:induction false} ClaimAll(s: State, run: seq<Label>, me: string) returns (full: seq<Label>)
    requires Init(s, me) && Legal(s, run, me)
    ensures Legal(s, full, me) && NoPending(Exec(s, full)) && SameProgress(Exec(s, run), Exec(s, full))
    decreases |AtRank(Exec(s, run), 0)|
  {
    var d := Exec(s, run);
    full := run;
    RunInv(s, run, me);
    if i :| i in d.threads && d.threads[i].phase == Spawned {
      var e := Next(d, Claim(i));
      OneMoreStep(s, run, Claim(i), me);
      ThreadStep(d, Claim(i), me);
      RankSize(d, e, i, 0, 0);
      ClaimProgress(d, i, me);
      full := ClaimAll(s, run + [Claim(i)], me);
    }
  }

  /** The same jobs have threads, and the same jobs have succeeded. */
  ghost predicate SameProgress(d: State, e: State) {
    && (forall j :: HasThread(d, j) <==> HasThread(e, j))
    && d.plan.jobs.Keys == e.plan.jobs.Keys
    && forall j | j in d.plan.jobs :: d.plan.jobs[j].state == Succeeded <==> e.plan.jobs[j].state == Succeeded
  }

  lemma ClaimProgress(d: State, i: nat, me: string)
    requires Inv(d, me) && Enabled(d, Claim(i), me)
    ensures SameProgress(d, Next(d, Claim(i)))
  {
    var e := Next(d, Claim(i));
    ThreadStep(d, Claim(i), me);
    SameStarted(d, e);
    forall j ensures HasThread(d, j) <==> HasThread(e, j) {
      StartedMeansThread(d, j);
      StartedMeansThread(e, j);
    }
  }

  /** A reachable job gets a thread in some run. */
  lemma SomeRunStarts(s: State, me: string, j: string) returns (run: seq<Label>)
    requires Init(s, me) && Reachable(s.plan, me, j)
    ensures Legal(s, run, me) && HasThread(Exec(s, run), j)
  {
    var ok := s.plan.jobs.Keys;
    run := ReachesQuiescence(s, [], me, ok);
    QuiescentState(s, run, me, ok);
    StartedMeansThread(Exec(s, run), j);
  }

  lemma TooEarly(s: State, me: string, j: string, i: string, k: string)
    returns (run: seq<Label>, batch: map<nat, string>)
    requires Init(s, me) && Reachable(s.plan, me, j)
    requires (i, j) in s.plan.links && (k, j) in s.plan.links && i != k
    ensures Legal(s, run, me) && Enabled(Exec(s, run), Poll(batch), me)
    ensures exists id :: id in batch && batch[id] == j && !AllDone(Exec(s, run).plan, j)
  {
    var first := UpToFirst(s, me, j, i, k);
    run := ClaimAll(s, first, me);
    RunInv(s, first, me);
    RunInv(s, run, me);
    var d, e := Exec(s, first), Exec(s, run);
    StillStartable(s, d, e, me, j);
    var id := FreshId(e.threads.Keys);
    batch := map[id := j];
    assert id in batch;
  }

  /** j has no thread, one of its predecessors has succeeded, and another has not. */
  ghost predicate HalfDone(d: State, j: string) {
    HasSucceededPredecessor(d.plan, j) && !HasThread(d, j) && !AllDone(d.plan, j)
  }

  lemma UpToFirst(s: State, me: string, j: string, i: string, k: string) returns (first: seq<Label>)
    requires Init(s, me) && Reachable(s.plan, me, j)
    requires (i, j) in s.plan.links && (k, j) in s.plan.links && i != k
    ensures Legal(s, first, me) && HalfDone(Exec(s, first), j) && j in s.plan.jobs && s.plan.jobs[j].node == me
  {
    var all := SomeRunStarts(s, me, j);
    StartedIsCaused(s, all, me, i, j);
    var n := FirstDone(s, all, j);
    first := all[..n];
    LegalPrefix(s, all, me, n);
    assert first[..n - 1] == all[..n - 1];
    FirstIsHalf(s, first, me, j, i, k);
  }

  lemma StartedIsCaused(s: State, run: seq<Label>, me: string, i: string, j: string)
    requires Init(s, me) && Legal(s, run, me) && HasThread(Exec(s, run), j) && (i, j) in s.plan.links
    ensures HasSucceededPredecessor(Exec(s, run).plan, j) && j in s.plan.jobs && s.plan.jobs[j].node == me
  {
    RunInv(s, run, me);
    CausalChain(s, run, me);
    assert (i, j) in Exec(s, run).plan.links;
    CauseDone(Exec(s, run), j);
  }

  lemma FirstIsHalf(s: State, first: seq<Label>, me: string, j: string, i: string, k: string)
    requires Init(s, me) && Legal(s, first, me) && first != []
    requires (i, j) in s.plan.links && (k, j) in s.plan.links && i != k
    requires HasSucceededPredecessor(Exec(s, first).plan, j)
    requires !HasSucceededPredecessor(Exec(s, first[..|first| - 1]).plan, j)
    ensures HalfDone(Exec(s, first), j)
  {
    var front := first[..|first| - 1];
    RunInv(s, front, me);
    CausalChain(s, front, me);
    assert (i, j).0 in s.plan.jobs && (k, j).0 in s.plan.jobs;
    OneAtATime(Exec(s, front), first[|first| - 1], me, j, i, k);
    RunInv(s, first, me);
    assert (i, j) in Exec(s, first).plan.links && (k, j) in Exec(s, first).plan.links;
  }

  lemma StillStartable(s: State, d: State, e: State, me: string, j: string)
    requires Consistent(s.plan) && SameJobs(s.plan, d.plan) && SameJobs(s.plan, e.plan)
    requires SameProgress(d, e) && Inv(e, me)
    requires j in s.plan.jobs && s.plan.jobs[j].node == me
    requires HalfDone(d, j)
    ensures Startable(e.plan, j, me) && !AllDone(e.plan, j)
  {
    assert HasSucceededPredecessor(e.plan, j) by {
      var i :| (i, j) in d.plan.links && i in d.plan.jobs && d.plan.jobs[i].state == Succeeded;
      assert (i, j) in e.plan.links && e.plan.jobs[i].state == Succeeded;
    }
    var k :| (k, j) in d.plan.links && !(k in d.plan.jobs && d.plan.jobs[k].state == Succeeded);
    assert (k, j) in e.plan.links;
  }

  // ----- an example -----

  /** Two jobs without predecessors, and one that follows both. */
  function Diamond(): Planning {
    var row := JobRow("c", "n", 1, Waiting, None, None);
    Planning(map["n" := 1], map["a" := row, "b" := row, "j" := row], {("a", "j"), ("b", "j")}, map[])
  }

  /** Job j is handed over while its predecessor b is still waiting. */
  lemma AnyPredecessorWill()
    ensures exists s: State, run: seq<Label>, batch: map<nat, string> ::
              && s.plan == Diamond() && Init(s, "n") && Legal(s, run, "n") && Enabled(Exec(s, run), Poll(batch), "n")
              && "j" in batch.Values && ("b", "j") in s.plan.links && "b" in InState(Exec(s, run).plan, Waiting)
  {
    var s := State(Diamond(), map[], 0);
    DiamondInit(s);
    var run := DiamondRun(s);
    var e := Exec(s, run);
    var batch: map<nat, string> := map[1 := "j"];
    assert ("a", "j") in e.plan.links && e.plan.jobs["a"].state == Succeeded;
    assert Startable(e.plan, "j", "n");
    assert PollAllowed(e, batch, "n");
    assert batch[1] == "j" && "j" in batch.Values;
  }

  lemma DiamondInit(s: State)
    requires s == State(Diamond(), map[], 0)
    ensures Init(s, "n")
  {
    PlainSurvives("a");
    PlainSurvives("b");
    PlainSurvives("j");
    AllSurviveReachable(s.plan, "n");
  }

  /** Job a has a thread in the given phase and its row in the given state. */
  function DiamondAt(row: JobRow, phase: Phase): State {
    State(Diamond().(jobs := Diamond().jobs["a" := row]), map[0 := Thread("a", phase)], 0)
  }

  lemma DiamondSteps(s: State, batch: map<nat, string>)
    requires s == State(Diamond(), map[], 0) && batch == map[0 := "a"]
    ensures Enabled(s, Poll(batch), "n")
    ensures var row := JobRow("c", "n", 1, Waiting, None, None); var running := row.(state := Running);
            var done := JobRow("c", "n", 1, Succeeded, Some(0), Some(0));
            && Next(s, Poll(batch)) == DiamondAt(row, Spawned)
            && Next(DiamondAt(row, Spawned), Claim(0)) == DiamondAt(running, Claimed)
            && Next(DiamondAt(running, Claimed), Launch(0, 0)) == DiamondAt(running, Launched(0))
            && Next(DiamondAt(running, Launched(0)), Finish(0, 0, 0)) == DiamondAt(done, Done)
  {
    PlainSurvives("a");
    assert Startable(s.plan, "a", "n") && batch[0] == "a";
    assert Verdict(0) == Succeeded;
  }

  /** Job a runs and succeeds. */
  lemma DiamondRun(s: State) returns (run: seq<Label>)
    requires s == State(Diamond(), map[], 0)
    ensures Legal(s, run, "n")
    ensures Exec(s, run) == DiamondAt(JobRow("c", "n", 1, Succeeded, Some(0), Some(0)), Done)
  {
    var batch: map<nat, string> := map[0 := "a"];
    DiamondSteps(s, batch);
    run := [];
    OneMoreStep(s, run, Poll(batch), "n");
    run := run + [Poll(batch)];
    OneMoreStep(s, run, Claim(0), "n");
    run := run + [Claim(0)];
    OneMoreStep(s, run, Launch(0, 0), "n");
    run := run + [Launch(0, 0)];
    OneMoreStep(s, run, Finish(0, 0, 0), "n");
    run := run + [Finish(0, 0, 0)];
  }
}
