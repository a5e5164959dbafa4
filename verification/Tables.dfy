/** The tables and views of one planning schema (etc/mysql/skeleton.sql). */
module Tables {

  datatype Option<+T> = None | Some(value: T) {
    function GetOr(default: T): T {
      if Some? then value else default
    }
  }

  datatype JobState = Waiting | Running | Succeeded | Failed

  datatype ConstraintType = At | Before | After

  datatype JobRow = JobRow(
    cmdLine: string,
    node: string,
    weight: int,
    state: JobState,
    startTime: Option<int>,
    stopTime: Option<int>)

  /** Each table is keyed by its primary key; a link is (job_name_prv, job_name_nxt),
      a time constraint maps (type, job) to seconds since midnight. */
  datatype Planning = Planning(
    nodes: map<string, int>,
    jobs: map<string, JobRow>,
    links: set<(string, string)>,
    constraints: map<(ConstraintType, string), int>)

  /** A schema exists with all the tables and views the skeleton script creates, or without some. */
  datatype Schema = NoTables | HasTables(plan: Planning)

  /** The width of the text columns, VARCHAR(45). */
  const WIDTH: nat := 45

  /** What the skeleton's column types and foreign keys guarantee. */
  ghost predicate Consistent(p: Planning) {
    && (forall n | n in p.nodes :: |n| <= WIDTH)
    && (forall j | j in p.jobs :: |j| <= WIDTH && |p.jobs[j].cmdLine| <= WIDTH && p.jobs[j].node in p.nodes)
    && (forall l | l in p.links :: l.0 in p.jobs && l.1 in p.jobs)
    && (forall k | k in p.constraints :: k.1 in p.jobs)
  }

  // ----- the two UPDATE statements of a job thread -----

  function WithState(p: Planning, j: string, state: JobState): Planning {
    if j in p.jobs then p.(jobs := p.jobs[j := p.jobs[j].(state := state)]) else p
  }

  function WithResult(p: Planning, j: string, state: JobState, start: int, stop: int): Planning {
    if j in p.jobs
    then p.(jobs := p.jobs[j := p.jobs[j].(state := state, startTime := Some(start), stopTime := Some(stop))])
    else p
  }

  /** Only the named row changes, and of it only the columns of the statement. */
  lemma UpdatedRows(p: Planning, j: string, state: JobState, start: int, stop: int, i: string)
    ensures var q, r := WithState(p, j, state), WithResult(p, j, state, start, stop);
            && q.nodes == p.nodes == r.nodes && q.links == p.links == r.links
            && q.constraints == p.constraints == r.constraints && q.jobs.Keys == p.jobs.Keys == r.jobs.Keys
            && (i in p.jobs ==>
                  var JobRow(c, n, w, s, a, b) := p.jobs[i];
                  && q.jobs[i] == JobRow(c, n, w, if i == j then state else s, a, b)
                  && r.jobs[i] == if i == j then JobRow(c, n, w, state, Some(start), Some(stop)) else p.jobs[i])
  {
  }

  // ----- views -----

  /** The jobs that are the target of some link. */
  function LinkTargets(p: Planning): set<string> {
    set l | l in p.links :: l.1
  }

  /** View get_ready_links: targets of a link whose source has succeeded. */
  function ReadyLinks(p: Planning): set<string> {
    set l | l in p.links && l.0 in p.jobs && p.jobs[l.0].state == Succeeded :: l.1
  }

  /** View get_ready_linkless: waiting jobs that no link targets. */
  function ReadyLinkless(p: Planning): set<string> {
    set j | j in p.jobs && p.jobs[j].state == Waiting && j !in LinkTargets(p)
  }

  predicate Unconstrained(p: Planning, j: string) {
    forall k | k in p.constraints :: k.1 != j
  }

  /** One arm of get_ready_time; both sides are cut down to whole minutes. */
  predicate Matches(ctype: ConstraintType, value: int, minute: int) {
    match ctype
    case At => value / 60 == minute
    case Before => value / 60 >= minute
    case After => value / 60 <= minute
  }

  /** A 'before' arm can only close as time passes, an 'after' arm can only open, and an 'at' arm
      holds for the one minute in which both others do. */
  lemma ArmsOverTime(value: int, earlier: int, later: int)
    requires earlier <= later
    ensures Matches(Before, value, later) ==> Matches(Before, value, earlier)
    ensures Matches(After, value, earlier) ==> Matches(After, value, later)
    ensures Matches(At, value, earlier) && Matches(At, value, later) ==> earlier == later
    ensures Matches(At, value, later) <==> Matches(Before, value, later) && Matches(After, value, later)
    ensures Matches(At, value, value / 60) && (Matches(Before, value, later) || Matches(After, value, later))
  {
  }

  predicate TimeMatches(p: Planning, j: string, minute: int) {
    exists k | k in p.constraints :: k.1 == j && Matches(k.0, p.constraints[k], minute)
  }

  /** View get_ready_time; XOR is the inequality of two truth values. */
  function ReadyTime(p: Planning, minute: int): set<string> {
    set j | j in p.jobs && (Unconstrained(p, j) != TimeMatches(p, j, minute))
  }

  /** View get_ready_job. Its last conjunct selects the OUTER job's name from get_ready_time,
      so it only asks whether that view has a row. */
  function ReadyJob(p: Planning, minute: int): set<string> {
    set j | j in p.jobs
            && ((j in ReadyLinks(p)) != (j in ReadyLinkless(p)))
            && ReadyTime(p, minute) != {}
  }

  /** What the master starts: rows of get_ready_job that are waiting and local. */
  function Dispatchable(p: Planning, minute: int, me: string): set<string> {
    set j | j in ReadyJob(p, minute) && p.jobs[j].state == Waiting && p.jobs[j].node == me
  }

  // ----- what the views mean -----

  ghost predicate HasPredecessor(p: Planning, j: string) {
    exists i :: (i, j) in p.links
  }

  ghost predicate HasSucceededPredecessor(p: Planning, j: string) {
    exists i :: (i, j) in p.links && i in p.jobs && p.jobs[i].state == Succeeded
  }

  /** A waiting local job without predecessors or with SOME succeeded predecessor. */
  ghost predicate Startable(p: Planning, j: string, me: string) {
    && j in p.jobs
    && p.jobs[j].state == Waiting
    && p.jobs[j].node == me
    && (!HasPredecessor(p, j) || HasSucceededPredecessor(p, j))
  }

  /** The job's own time constraints, if any, are met by one of their arms. */
  ghost predicate OwnTimeMet(p: Planning, j: string, minute: int) {
    Unconstrained(p, j) || TimeMatches(p, j, minute)
  }

  ghost predicate GateOpen(p: Planning, minute: int) {
    exists j :: j in p.jobs && OwnTimeMet(p, j, minute)
  }

  lemma LinkTargetsMeaning(p: Planning, j: string)
    ensures j in LinkTargets(p) <==> HasPredecessor(p, j)
    ensures j in ReadyLinks(p) <==> HasSucceededPredecessor(p, j)
  {
  }

  /** Both XORs of the views join disjoint sets, so each is a plain union. */
  lemma XorsAreUnions(p: Planning, minute: int)
    ensures ReadyLinks(p) !! ReadyLinkless(p)
    ensures forall j :: !(Unconstrained(p, j) && TimeMatches(p, j, minute))
    ensures forall j | j in p.jobs :: j in ReadyTime(p, minute) <==> OwnTimeMet(p, j, minute)
    ensures ReadyTime(p, minute) != {} <==> GateOpen(p, minute)
  {
  }

  /** The rows of the view get_ready_job, in whatever state: with a job that meets its own times, all jobs
      with a succeeded predecessor and the waiting jobs without any. */
  lemma ReadyJobRows(p: Planning, minute: int, j: string)
    ensures j in ReadyJob(p, minute) <==>
            && j in p.jobs && GateOpen(p, minute)
            && ((exists i :: (i, j) in p.links && i in p.jobs && p.jobs[i].state == Succeeded)
                || (p.jobs[j].state == Waiting && forall i :: (i, j) !in p.links))
  {
    XorsAreUnions(p, minute);
    LinkTargetsMeaning(p, j);
  }

  /** A job's own time is met when it has no constraint, or one of them is met: an at arm in its very
      minute, a before arm until then, an after arm from then on. */
  lemma OwnTimes(p: Planning, j: string, minute: int)
    ensures OwnTimeMet(p, j, minute) <==>
            || ((At, j) !in p.constraints && (Before, j) !in p.constraints && (After, j) !in p.constraints)
            || ((At, j) in p.constraints && minute == p.constraints[(At, j)] / 60)
            || ((Before, j) in p.constraints && minute <= p.constraints[(Before, j)] / 60)
            || ((After, j) in p.constraints && minute >= p.constraints[(After, j)] / 60)
  {
    forall k | k in p.constraints && k.1 == j ensures k == (At, j) || k == (Before, j) || k == (After, j) {
      match k.0 case At => case Before => case After =>
    }
    if TimeMatches(p, j, minute) {
      var k :| k in p.constraints && k.1 == j && Matches(k.0, p.constraints[k], minute);
      match k.0 case At => case Before => case After =>
    }
    forall t | (t, j) in p.constraints ensures !Unconstrained(p, j) {
      assert (t, j).1 == j;
    }
  }

  /** For every database, the master's filter over the view yields exactly the startable
      jobs while the gate is open, and nothing while it is closed. */
  lemma ViewExactness(p: Planning, minute: int, me: string, j: string)
    ensures j in Dispatchable(p, minute, me) <==> Startable(p, j, me) && GateOpen(p, minute)
  {
    XorsAreUnions(p, minute);
    LinkTargetsMeaning(p, j);
  }

  /** A planning without time constraints keeps its gate open for as long as it has jobs. */
  lemma NoConstraintsOpensGate(p: Planning, minute: int)
    requires p.constraints == map[]
    ensures GateOpen(p, minute) <==> p.jobs != map[]
  {
  }

  /** A job held for a fixed time starts at another time beside any job without constraints. */
  lemma ConstraintIgnored()
    ensures exists p: Planning, j: string ::
              Consistent(p) && j in Dispatchable(p, 0, "n") && !OwnTimeMet(p, j, 0)
  {
    var row := JobRow("c", "n", 1, Waiting, None, None);
    var p := Planning(map["n" := 1], map["held" := row, "free" := row], {}, map[(At, "held") := 3600]);
    assert (At, "held") in p.constraints;
    assert OwnTimeMet(p, "free", 0);
    assert GateOpen(p, 0);
    assert !OwnTimeMet(p, "held", 0);
    ViewExactness(p, 0, "n", "held");
  }
}
