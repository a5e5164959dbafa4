/** The writes of add_job and add_node on whole databases, and when a chain of them copies
    the template (src/domain.cpp:200-208, src/domain.cpp:295-317, src/domain.cpp:410-505). */
module CopyOrder {
  import opened Tables
  import opened Literals
  import opened Database
  import opened Graph
  import opened TemplateCopy

  /** The schemas after a call and how the call ended. */
  datatype Write = Write(schemas: map<string, Schema>, outcome: Outcome)

  function Execute(schemas: map<string, Schema>, queries: seq<Statement>, name: string): Write {
    if !Usable(schemas, name) then Write(schemas, Thrown(ExProcessing))
    else match ApplyAll(queries, schemas[name].plan)
         case None => Write(schemas, Thrown(ExProcessing))
         case Some(p) => Write(schemas[name := HasTables(p)], Returned(true))
  }

  /** add_job: the node is looked up in the job's own domain, the rows go into the named schema. */
  function AddJobWrite(schemas: map<string, Schema>, name: string, t: TJob, duration: int): Write {
    if !Usable(schemas, t.domain) || Literal(t.node).None? then Write(schemas, Thrown(ExProcessing))
    else if Stored(t.node) !in schemas[t.domain].plan.nodes then Write(schemas, Thrown(ExNode))
    else if exists c | c in t.timeConstraints :: duration < c.1 then Write(schemas, Thrown(ExProcessing))
    else Execute(schemas, JobInserts(t), name)
  }

  /** ex_node stands for a node that can be read and is not known; a constraint longer than the planning, and
      whatever the transaction refuses, throws as well. */
  lemma AddJobRefusals(schemas: map<string, Schema>, name: string, t: TJob, duration: int)
    ensures var w := AddJobWrite(schemas, name, t, duration);
            && (w.outcome == Thrown(ExNode) <==>
                  && t.domain in schemas && schemas[t.domain].HasTables?
                  && Literal(t.node).Some? && Literal(t.node).value !in schemas[t.domain].plan.nodes)
            && (w.outcome == Returned(true) <==>
                  && t.domain in schemas && schemas[t.domain].HasTables?
                  && Literal(t.node).Some? && Literal(t.node).value in schemas[t.domain].plan.nodes
                  && (forall c | c in t.timeConstraints :: c.1 <= duration)
                  && name in schemas && schemas[name].HasTables? && ApplyAll(JobInserts(t), schemas[name].plan).Some?)
            && (w.outcome == Returned(true) || (w.outcome.Thrown? && w.schemas == schemas))
  {
  }

  function AddJobsWrite(schemas: map<string, Schema>, name: string, jobs: seq<TJob>, duration: int): Write
    decreases jobs
  {
    if jobs == [] then Write(schemas, Returned(true))
    else
      var w := AddJobWrite(schemas, name, jobs[0], duration);
      if w.outcome == Returned(true) then AddJobsWrite(w.schemas, name, jobs[1..], duration) else w
  }

  function AddNodeWrite(schemas: map<string, Schema>, name: string, n: TNode, duration: int): Write {
    var w := Execute(schemas, [InsertIgnoreNode(n.name, n.weight)], name);
    if w.outcome == Returned(true) then AddJobsWrite(w.schemas, name, n.jobs, duration) else w
  }

  function AddNodesWrite(schemas: map<string, Schema>, name: string, nodes: seq<TNode>, duration: int): Write
    decreases nodes
  {
    if nodes == [] then Write(schemas, Returned(true))
    else
      var w := AddNodeWrite(schemas, name, nodes[0], duration);
      if w.outcome == Returned(true) then AddNodesWrite(w.schemas, name, nodes[1..], duration) else w
  }

  // ----- when the copy goes through -----

  /** The names of the template's jobs in the order the copy inserts them. */
  function Order(nodes: seq<TNode>): seq<string> {
    if nodes == [] then [] else JobNames(nodes[0].jobs) + Order(nodes[1..])
  }

  function Elements(q: seq<string>): set<string> {
    set x | x in q
  }

  ghost predicate JobGoes(p: Planning, dj: set<string>, j: string, duration: int) {
    && j in p.jobs && Literal(p.jobs[j].cmdLine).Some?
    && LinksWithin(p, j, dj + {j})
    && forall k | k in p.constraints && k.1 == j :: CastOrZero(p.constraints[k]) <= duration
  }

  ghost predicate AllGo(p: Planning, dj: set<string>, order: seq<string>, duration: int)
    decreases order
  {
    order == [] || (JobGoes(p, dj, order[0], duration) && AllGo(p, dj + {order[0]}, order[1..], duration))
  }

  /** The command lines can be read, and no constraint exceeds the duration. */
  ghost predicate RowsGo(p: Planning, duration: int) {
    && (forall j | j in p.jobs :: Literal(p.jobs[j].cmdLine).Some?)
    && (forall k | k in p.constraints :: CastOrZero(p.constraints[k]) <= duration)
  }

  /** Besides, no link points to a job that is inserted later. */
  ghost predicate Copyable(p: Planning, order: seq<string>, duration: int) {
    Backward(p.links, order) && RowsGo(p, duration)
  }

  lemma {:induction false} AllGoConcat(p: Planning, dj: set<string>, a: seq<string>, b: seq<string>, duration: int)
    ensures AllGo(p, dj, a + b, duration) <==> AllGo(p, dj, a, duration) && AllGo(p, dj + Elements(a), b, duration)
    decreases a
  {
    if a == [] {
      assert a + b == b && dj + Elements(a) == dj;
    } else {
      assert (a + b)[1..] == a[1..] + b && (a + b)[0] == a[0];
      AllGoConcat(p, dj + {a[0]}, a[1..], b, duration);
      assert a == [a[0]] + a[1..];
      assert dj + {a[0]} + Elements(a[1..]) == dj + Elements(a);
    }
  }

  /** Job i of the order goes once the jobs before it are inserted. */
  ghost predicate GoesAt(p: Planning, dj: set<string>, order: seq<string>, i: nat, duration: int)
    requires i < |order|
  {
    JobGoes(p, dj + Elements(order[..i]), order[i], duration)
  }

  lemma GoesShifted(p: Planning, dj: set<string>, order: seq<string>, i: nat, duration: int)
    requires 0 < i < |order|
    ensures GoesAt(p, dj, order, i, duration) <==> GoesAt(p, dj + {order[0]}, order[1..], i - 1, duration)
  {
    assert order[..i] == [order[0]] + order[1..][..i - 1];
    assert dj + {order[0]} + Elements(order[1..][..i - 1]) == dj + Elements(order[..i]);
  }

  lemma {:induction false} AllGoMeaning(p: Planning, dj: set<string>, order: seq<string>, duration: int)
    ensures AllGo(p, dj, order, duration) <==> forall i: nat | i < |order| :: GoesAt(p, dj, order, i, duration)
    decreases order
  {
    if order == [] {
    } else {
      var next, tail := dj + {order[0]}, order[1..];
      AllGoMeaning(p, next, tail, duration);
      assert dj + Elements(order[..0]) == dj;
      assert GoesAt(p, dj, order, 0, duration) <==> JobGoes(p, dj, order[0], duration);
      forall i: nat | 0 < i < |order|
        ensures GoesAt(p, dj, order, i, duration) <==> GoesAt(p, next, tail, i - 1, duration)
      {
        GoesShifted(p, dj, order, i, duration);
      }
      if forall i: nat | i < |order| :: GoesAt(p, dj, order, i, duration) {
        forall i: nat | i < |tail| ensures GoesAt(p, next, tail, i, duration) {
          assert GoesAt(p, dj, order, i + 1, duration);
        }
      }
    }
  }

  lemma GoingIsCopyable(p: Planning, order: seq<string>, duration: int)
    requires Consistent(p) && Lists(order, p.jobs.Keys)
    requires forall i: nat | i < |order| :: GoesAt(p, {}, order, i, duration)
    ensures Copyable(p, order, duration)
  {
    forall j | j in p.jobs
      ensures Literal(p.jobs[j].cmdLine).Some?
      ensures forall k | k in p.constraints && k.1 == j :: CastOrZero(p.constraints[k]) <= duration
    {
      var i :| 0 <= i < |order| && order[i] == j;
      assert GoesAt(p, {}, order, i, duration);
    }
    forall a, b | 0 <= a < b < |order| ensures (order[a], order[b]) !in p.links {
      assert GoesAt(p, {}, order, a, duration);
    }
  }

  lemma CopyableGoes(p: Planning, order: seq<string>, duration: int, i: nat)
    requires Consistent(p) && Lists(order, p.jobs.Keys) && Copyable(p, order, duration) && i < |order|
    ensures GoesAt(p, {}, order, i, duration)
  {
  }

  lemma AllGoIsCopyable(p: Planning, order: seq<string>, duration: int)
    requires Consistent(p) && Lists(order, p.jobs.Keys)
    ensures AllGo(p, {}, order, duration) <==> Copyable(p, order, duration)
  {
    AllGoMeaning(p, {}, order, duration);
    if AllGo(p, {}, order, duration) {
      GoingIsCopyable(p, order, duration);
    }
    if Copyable(p, order, duration) {
      forall i: nat | i < |order| ensures GoesAt(p, {}, order, i, duration) {
        CopyableGoes(p, order, duration, i);
      }
    }
  }

  /** What the chain of writes leaves when it stops early: only the new schema differs. */
  ghost predicate StoppedShort(before: map<string, Schema>, name: string, w: Write) {
    && w.outcome == Thrown(ExProcessing)
    && Usable(w.schemas, name)
    && w.schemas == before[name := w.schemas[name]]
  }

  /** Either everything was written and name now holds the target, or the chain stopped short. */
  ghost predicate CopyResult(before: map<string, Schema>, name: string, goes: bool, target: Planning, w: Write) {
    if goes then w == Write(before[name := HasTables(target)], Returned(true)) else StoppedShort(before, name, w)
  }

  lemma CopyResultChain(before: map<string, Schema>, mid: map<string, Schema>, name: string, goes: bool,
                        target: Planning, w: Write)
    requires name in mid && mid == before[name := mid[name]] && CopyResult(mid, name, goes, target, w)
    ensures CopyResult(before, name, goes, target, w)
  {
  }

  /** The two schemas a copy works on: the template and the new planning filled so far. */
  ghost predicate CopyState(p: Planning, domain: string, schemas: map<string, Schema>, name: string,
                            dn: set<string>, dj: set<string>) {
    && Consistent(p) && NamesSurvive(p) && name != domain && dj <= p.jobs.Keys && dn <= p.nodes.Keys
    && domain in schemas && schemas[domain] == HasTables(p)
    && name in schemas && schemas[name] == HasTables(Partial(p, dn, dj))
  }

  /** In a copy the job's node is found; what is left of add_job's checks is the constraints. */
  lemma NodeIsFound(p: Planning, domain: string, schemas: map<string, Schema>, name: string, t: TJob, duration: int)
    requires domain in schemas && schemas[domain] == HasTables(p) && Survives(t.node) && t.node in p.nodes
    requires t.domain == domain
    ensures AddJobWrite(schemas, name, t, duration) ==
            if exists c | c in t.timeConstraints :: duration < c.1 then Write(schemas, Thrown(ExProcessing))
            else Execute(schemas, JobInserts(t), name)
  {
  }

  lemma CopyOneJob(p: Planning, domain: string, schemas: map<string, Schema>, name: string,
                   dn: set<string>, dj: set<string>, t: TJob, duration: int)
    requires CopyState(p, domain, schemas, name, dn, dj)
    requires ReadsJob(p, domain, t) && t.node in dn && t.name !in dj
    ensures CopyResult(schemas, name, JobGoes(p, dj, t.name, duration), Partial(p, dn, dj + {t.name}),
                       AddJobWrite(schemas, name, t, duration))
  {
    NodeIsFound(p, domain, schemas, name, t, duration);
    CopyJob(p, domain, dn, dj, t);
    ConstraintsChecked(p, domain, t, duration);
    FilledState(p, domain, schemas, name, dn, dj, dn, dj);
  }

  /** Readings of distinct jobs not yet copied, on nodes already copied. */
  ghost predicate JobsToCopy(p: Planning, domain: string, dn: set<string>, dj: set<string>, jobs: seq<TJob>)
    decreases jobs
  {
    jobs == [] ||
    (ReadsJob(p, domain, jobs[0]) && jobs[0].node in dn && jobs[0].name !in dj
     && JobsToCopy(p, domain, dn, dj + {jobs[0].name}, jobs[1..]))
  }

  lemma {:induction false} ToCopy(p: Planning, domain: string, dn: set<string>, dj: set<string>, jobs: seq<TJob>)
    requires forall i | 0 <= i < |jobs| :: ReadsJob(p, domain, jobs[i]) && jobs[i].node in dn && jobs[i].name !in dj
    requires DistinctJobs(jobs)
    ensures JobsToCopy(p, domain, dn, dj, jobs)
    decreases jobs
  {
    if jobs != [] {
      ToCopy(p, domain, dn, dj + {jobs[0].name}, jobs[1..]);
    }
  }

  /** The schemas once nodes dn and jobs dj are copied. */
  ghost function Filled(p: Planning, schemas: map<string, Schema>, name: string, dn: set<string>, dj: set<string>)
    : map<string, Schema>
  {
    schemas[name := HasTables(Partial(p, dn, dj))]
  }

  lemma FilledState(p: Planning, domain: string, schemas: map<string, Schema>, name: string,
                    dn: set<string>, dj: set<string>, dn1: set<string>, dj1: set<string>)
    requires CopyState(p, domain, schemas, name, dn, dj) && dn1 <= p.nodes.Keys && dj1 <= p.jobs.Keys
    ensures CopyState(p, domain, Filled(p, schemas, name, dn1, dj1), name, dn1, dj1)
    ensures Filled(p, schemas, name, dn, dj) == schemas
  {
  }

  lemma {:induction false} CopyJobs(p: Planning, domain: string, schemas: map<string, Schema>, name: string,
                                    dn: set<string>, dj: set<string>, jobs: seq<TJob>, duration: int)
    requires CopyState(p, domain, schemas, name, dn, dj)
    requires JobsToCopy(p, domain, dn, dj, jobs)
    ensures CopyResult(schemas, name, AllGo(p, dj, JobNames(jobs), duration),
                       Partial(p, dn, dj + Elements(JobNames(jobs))), AddJobsWrite(schemas, name, jobs, duration))
    decreases jobs
  {
    if jobs == [] {
      assert dj + Elements(JobNames(jobs)) == dj;
      FilledState(p, domain, schemas, name, dn, dj, dn, dj);
    } else {
      var t := jobs[0];
      CopyOneJob(p, domain, schemas, name, dn, dj, t, duration);
      if JobGoes(p, dj, t.name, duration) {
        var dj1 := dj + {t.name};
        FilledState(p, domain, schemas, name, dn, dj, dn, dj1);
        CopyJobs(p, domain, Filled(p, schemas, name, dn, dj1), name, dn, dj1, jobs[1..], duration);
      }
      JoinJobs(p, schemas, name, dn, dj, jobs, duration);
    }
  }

  lemma JoinJobs(p: Planning, schemas: map<string, Schema>, name: string, dn: set<string>, dj: set<string>,
                 jobs: seq<TJob>, duration: int)
    requires jobs != []
    requires CopyResult(schemas, name, JobGoes(p, dj, jobs[0].name, duration), Partial(p, dn, dj + {jobs[0].name}),
                        AddJobWrite(schemas, name, jobs[0], duration))
    requires JobGoes(p, dj, jobs[0].name, duration) ==>
               var dj1, tail := dj + {jobs[0].name}, jobs[1..];
               var mid := Filled(p, schemas, name, dn, dj1);
               CopyResult(mid, name, AllGo(p, dj1, JobNames(tail), duration),
                          Partial(p, dn, dj1 + Elements(JobNames(tail))), AddJobsWrite(mid, name, tail, duration))
    ensures CopyResult(schemas, name, AllGo(p, dj, JobNames(jobs), duration),
                       Partial(p, dn, dj + Elements(JobNames(jobs))), AddJobsWrite(schemas, name, jobs, duration))
  {
    var t, tail, names := jobs[0], jobs[1..], JobNames(jobs);
    assert names == [t.name] + JobNames(tail) && names[1..] == JobNames(tail);
    assert dj + {t.name} + Elements(JobNames(tail)) == dj + Elements(names);
    if JobGoes(p, dj, t.name, duration) {
      CopyResultChain(schemas, Filled(p, schemas, name, dn, dj + {t.name}), name, AllGo(p, dj, names, duration),
                      Partial(p, dn, dj + Elements(names)), AddJobsWrite(schemas, name, jobs, duration));
    }
  }

  lemma ConstraintsChecked(p: Planning, domain: string, t: TJob, duration: int)
    requires ReadsJob(p, domain, t) && Survives(t.name)
    ensures (exists c | c in t.timeConstraints :: duration < c.1)
       <==> !(forall k | k in p.constraints && k.1 == t.name :: CastOrZero(p.constraints[k]) <= duration)
  {
    if c :| c in t.timeConstraints && duration < c.1 {
      assert c in ConstraintsOf(p, t.name);
      var k :| k in p.constraints && k.1 == t.name && c == (k.0, CastOrZero(p.constraints[k]));
    }
    if k :| k in p.constraints && k.1 == t.name && CastOrZero(p.constraints[k]) > duration {
      var c := (k.0, CastOrZero(p.constraints[k]));
      assert c in ConstraintsOf(p, t.name);
      assert c in t.timeConstraints;
    }
  }

  lemma NodeInserted(p: Planning, dn: set<string>, dj: set<string>, n: TNode)
    requires n.name in p.nodes && n.weight == p.nodes[n.name] && n.name !in dn
    requires Survives(n.name) && |n.name| <= WIDTH
    ensures ApplyAll([InsertIgnoreNode(n.name, n.weight)], Partial(p, dn, dj)) == Some(Partial(p, dn + {n.name}, dj))
  {
    var p0 := Partial(p, dn, dj);
    assert p0.nodes[n.name := n.weight] == Partial(p, dn + {n.name}, dj).nodes;
    assert ApplyAll([InsertIgnoreNode(n.name, n.weight)], p0) == Apply(InsertIgnoreNode(n.name, n.weight), p0);
  }

  lemma CopyOneNode(p: Planning, domain: string, schemas: map<string, Schema>, name: string,
                    dn: set<string>, dj: set<string>, n: TNode, duration: int)
    requires CopyState(p, domain, schemas, name, dn, dj)
    requires ReadsNode(p, domain, n.name, n) && n.name !in dn && forall j | j in dj :: p.jobs[j].node in dn
    ensures CopyResult(schemas, name, AllGo(p, dj, JobNames(n.jobs), duration),
                       Partial(p, dn + {n.name}, dj + JobsOn(p, n.name)), AddNodeWrite(schemas, name, n, duration))
  {
    var dn1, names := dn + {n.name}, JobNames(n.jobs);
    NodeInserted(p, dn, dj, n);
    var w := Execute(schemas, [InsertIgnoreNode(n.name, n.weight)], name);
    forall i | 0 <= i < |n.jobs| ensures n.jobs[i].node in dn1 && n.jobs[i].name !in dj {
      assert names[i] in JobsOn(p, n.name);
    }
    forall i, k | 0 <= i < k < |n.jobs| ensures n.jobs[i].name != n.jobs[k].name {
      assert names[i] != names[k];
    }
    assert Elements(names) == JobsOn(p, n.name);
    ToCopy(p, domain, dn1, dj, n.jobs);
    CopyJobs(p, domain, w.schemas, name, dn1, dj, n.jobs, duration);
    CopyResultChain(schemas, w.schemas, name, AllGo(p, dj, names, duration),
                    Partial(p, dn1, dj + JobsOn(p, n.name)), AddNodeWrite(schemas, name, n, duration));
  }

  /** The jobs on any of these nodes. */
  function JobsOnAny(p: Planning, names: seq<string>): set<string> {
    set j | j in p.jobs && p.jobs[j].node in names
  }

  /** Readings of distinct nodes not yet copied. */
  ghost predicate NodesToCopy(p: Planning, domain: string, dn: set<string>, nodes: seq<TNode>) {
    && (forall i | 0 <= i < |nodes| :: ReadsNode(p, domain, nodes[i].name, nodes[i]) && nodes[i].name !in dn)
    && forall i, k | 0 <= i < k < |nodes| :: nodes[i].name != nodes[k].name
  }

  lemma {:induction false} CopyNodes(p: Planning, domain: string, schemas: map<string, Schema>, name: string,
                                     dn: set<string>, dj: set<string>, nodes: seq<TNode>, duration: int)
    requires CopyState(p, domain, schemas, name, dn, dj) && NodesToCopy(p, domain, dn, nodes)
    requires forall j | j in dj :: p.jobs[j].node in dn
    ensures CopyResult(schemas, name, AllGo(p, dj, Order(nodes), duration),
                       Partial(p, dn + Elements(NodeNames(nodes)), dj + JobsOnAny(p, NodeNames(nodes))),
                       AddNodesWrite(schemas, name, nodes, duration))
    decreases nodes
  {
    if nodes == [] {
      var all := NodeNames(nodes);
      assert dj + JobsOnAny(p, all) == dj && dn + Elements(all) == dn;
      FilledState(p, domain, schemas, name, dn, dj, dn, dj);
    } else {
      var n, tail := nodes[0], nodes[1..];
      var dn1, dj1 := dn + {n.name}, dj + JobsOn(p, n.name);
      CopyOneNode(p, domain, schemas, name, dn, dj, n, duration);
      if AllGo(p, dj, JobNames(n.jobs), duration) {
        FilledState(p, domain, schemas, name, dn, dj, dn1, dj1);
        CopyNodes(p, domain, Filled(p, schemas, name, dn1, dj1), name, dn1, dj1, tail, duration);
      }
      ListedIs(JobNames(n.jobs), JobsOn(p, n.name));
      JoinNodes(p, schemas, name, dn, dj, nodes, duration);
    }
  }

  lemma ListedIs(q: seq<string>, s: set<string>)
    requires Lists(q, s)
    ensures Elements(q) == s
  {
  }

  lemma JoinNodes(p: Planning, schemas: map<string, Schema>, name: string, dn: set<string>, dj: set<string>,
                  nodes: seq<TNode>, duration: int)
    requires nodes != [] && Elements(JobNames(nodes[0].jobs)) == JobsOn(p, nodes[0].name)
    requires CopyResult(schemas, name, AllGo(p, dj, JobNames(nodes[0].jobs), duration),
                        Partial(p, dn + {nodes[0].name}, dj + JobsOn(p, nodes[0].name)),
                        AddNodeWrite(schemas, name, nodes[0], duration))
    requires AllGo(p, dj, JobNames(nodes[0].jobs), duration) ==>
               var dn1, dj1, tail := dn + {nodes[0].name}, dj + JobsOn(p, nodes[0].name), nodes[1..];
               var mid := Filled(p, schemas, name, dn1, dj1);
               CopyResult(mid, name, AllGo(p, dj1, Order(tail), duration),
                          Partial(p, dn1 + Elements(NodeNames(tail)), dj1 + JobsOnAny(p, NodeNames(tail))),
                          AddNodesWrite(mid, name, tail, duration))
    ensures CopyResult(schemas, name, AllGo(p, dj, Order(nodes), duration),
                       Partial(p, dn + Elements(NodeNames(nodes)), dj + JobsOnAny(p, NodeNames(nodes))),
                       AddNodesWrite(schemas, name, nodes, duration))
  {
    var n, tail, names := nodes[0], nodes[1..], JobNames(nodes[0].jobs);
    assert NodeNames(nodes) == [n.name] + NodeNames(tail);
    AllGoConcat(p, dj, names, Order(tail), duration);
    CoveredSplit(p, dn, dj, n.name, NodeNames(tail));
    if AllGo(p, dj, names, duration) {
      CopyResultChain(schemas, Filled(p, schemas, name, dn + {n.name}, dj + JobsOn(p, n.name)), name,
                      AllGo(p, dj, Order(nodes), duration),
                      Partial(p, dn + {n.name} + Elements(NodeNames(tail)),
                              dj + JobsOn(p, n.name) + JobsOnAny(p, NodeNames(tail))),
                      AddNodesWrite(schemas, name, nodes, duration));
    }
  }

  lemma CoveredSplit(p: Planning, dn: set<string>, dj: set<string>, n: string, tail: seq<string>)
    ensures dn + {n} + Elements(tail) == dn + Elements([n] + tail)
    ensures dj + JobsOn(p, n) + JobsOnAny(p, tail) == dj + JobsOnAny(p, [n] + tail)
  {
  }

  lemma ListsConcat(a: seq<string>, b: seq<string>, sa: set<string>, sb: set<string>)
    requires Lists(a, sa) && Lists(b, sb) && sa !! sb
    ensures Lists(a + b, sa + sb)
  {
    forall i, k | 0 <= i < k < |a + b| ensures (a + b)[i] != (a + b)[k] {
      if i < |a| && k >= |a| {
        assert a[i] in sa && b[k - |a|] in sb;
      }
    }
  }

  /** The jobs of a full reading of the template appear in the copy order once each. */
  lemma {:induction false} OrderListsJobs(p: Planning, domain: string, nodes: seq<TNode>)
    requires NamesSurvive(p)
    requires forall i | 0 <= i < |nodes| :: ReadsNode(p, domain, nodes[i].name, nodes[i])
    requires forall i, k | 0 <= i < k < |nodes| :: nodes[i].name != nodes[k].name
    ensures Lists(Order(nodes), JobsOnAny(p, NodeNames(nodes)))
  {
    if nodes == [] {
    } else {
      var n, tail := nodes[0], nodes[1..];
      OrderListsJobs(p, domain, tail);
      assert NodeNames(nodes) == [n.name] + NodeNames(tail);
      var sa, sb := JobsOn(p, n.name), JobsOnAny(p, NodeNames(tail));
      ListsConcat(JobNames(n.jobs), Order(tail), sa, sb);
      assert sa + sb == JobsOnAny(p, NodeNames(nodes));
    }
  }

  /** With names that survive, a full reading has one node for each row, under its own name. */
  lemma ReadingNames(p: Planning, domain: string, rows: seq<string>, nodes: seq<TNode>)
    requires NamesSurvive(p) && ReadsNodes(p, domain, rows, nodes)
    ensures NodeNames(nodes) == rows
    ensures forall i | 0 <= i < |nodes| :: ReadsNode(p, domain, nodes[i].name, nodes[i])
  {
    forall i | 0 <= i < |nodes| ensures nodes[i].name == rows[i] && ReadsNode(p, domain, nodes[i].name, nodes[i]) {
      assert ReadsNode(p, domain, rows[i], nodes[i]);
    }
  }

  /** Copying a full reading of a template whose names survive into an empty schema gives the
      complete image exactly when no link points forward in the order of insertion, the command lines
      can be read and no constraint is longer than the planning; otherwise the copy throws and
      leaves a half-filled schema. */
  lemma CopyTemplate(p: Planning, domain: string, schemas: map<string, Schema>, name: string,
                     rows: seq<string>, nodes: seq<TNode>, duration: int)
    requires Consistent(p) && NamesSurvive(p) && name != domain && ReadsNodes(p, domain, rows, nodes)
    requires domain in schemas && schemas[domain] == HasTables(p)
    requires name in schemas && schemas[name] == HasTables(EMPTY_PLANNING)
    ensures Lists(Order(nodes), p.jobs.Keys)
    ensures CopyResult(schemas, name, Copyable(p, Order(nodes), duration), Image(p),
                       AddNodesWrite(schemas, name, nodes, duration))
  {
    ReadingNames(p, domain, rows, nodes);
    NothingCopied(p);
    CopyReading(p, domain, schemas, name, nodes, duration);
  }

  lemma CopyReading(p: Planning, domain: string, schemas: map<string, Schema>, name: string,
                    nodes: seq<TNode>, duration: int)
    requires CopyState(p, domain, schemas, name, {}, {}) && Lists(NodeNames(nodes), p.nodes.Keys)
    requires forall i | 0 <= i < |nodes| :: ReadsNode(p, domain, nodes[i].name, nodes[i])
    ensures Lists(Order(nodes), p.jobs.Keys)
    ensures CopyResult(schemas, name, Copyable(p, Order(nodes), duration), Image(p),
                       AddNodesWrite(schemas, name, nodes, duration))
  {
    WholeReading(p, domain, nodes);
    CopyNodes(p, domain, schemas, name, {}, {}, nodes, duration);
    AllGoIsCopyable(p, Order(nodes), duration);
  }

  lemma WholeReading(p: Planning, domain: string, nodes: seq<TNode>)
    requires Consistent(p) && NamesSurvive(p) && Lists(NodeNames(nodes), p.nodes.Keys)
    requires forall i | 0 <= i < |nodes| :: ReadsNode(p, domain, nodes[i].name, nodes[i])
    ensures NodesToCopy(p, domain, {}, nodes) && Lists(Order(nodes), p.jobs.Keys)
    ensures Partial(p, {} + Elements(NodeNames(nodes)), {} + JobsOnAny(p, NodeNames(nodes))) == Image(p)
  {
    var rows := NodeNames(nodes);
    DistinctNodes(nodes);
    AllNodesCoverAllJobs(p, rows);
    OrderListsJobs(p, domain, nodes);
    assert {} + Elements(rows) == p.nodes.Keys && {} + JobsOnAny(p, rows) == p.jobs.Keys;
  }

  lemma NothingCopied(p: Planning)
    ensures Partial(p, {}, {}) == EMPTY_PLANNING
  {
  }

  lemma AllNodesCoverAllJobs(p: Planning, names: seq<string>)
    requires Consistent(p) && Lists(names, p.nodes.Keys)
    ensures Elements(names) == p.nodes.Keys
    ensures JobsOnAny(p, names) == p.jobs.Keys
  {
  }

  lemma DistinctNodes(nodes: seq<TNode>)
    requires forall i, k | 0 <= i < k < |nodes| :: NodeNames(nodes)[i] != NodeNames(nodes)[k]
    ensures forall i, k | 0 <= i < k < |nodes| :: nodes[i].name != nodes[k].name
  {
    forall i, k | 0 <= i < k < |nodes| ensures nodes[i].name != nodes[k].name {
      assert NodeNames(nodes)[i] != NodeNames(nodes)[k];
    }
  }

  // ----- what every copy keeps -----

  /** A call that writes to one schema: no other is touched, none appears, and it stays usable. */
  ghost predicate OnlyTouches(before: map<string, Schema>, name: string, after: map<string, Schema>) {
    && after.Keys == before.Keys
    && (forall n | n in before && n != name :: after[n] == before[n])
    && (Usable(before, name) ==> Usable(after, name))
    && (AllConsistent(before) ==> AllConsistent(after))
  }

  /** How an insertion can end. */
  predicate Ends(r: Outcome) {
    r == Returned(true) || r == Thrown(ExProcessing) || r == Thrown(ExNode)
  }

  lemma ExecuteTouches(schemas: map<string, Schema>, queries: seq<Statement>, name: string)
    ensures OnlyTouches(schemas, name, Execute(schemas, queries, name).schemas)
  {
    if Usable(schemas, name) && ApplyAll(queries, schemas[name].plan).Some? && AllConsistent(schemas) {
      ApplyAllKeepsConsistent(queries, schemas[name].plan);
    }
  }

  lemma {:induction false} AddJobsTouches(schemas: map<string, Schema>, name: string, jobs: seq<TJob>, duration: int)
    ensures OnlyTouches(schemas, name, AddJobsWrite(schemas, name, jobs, duration).schemas)
    ensures Ends(AddJobsWrite(schemas, name, jobs, duration).outcome)
    decreases jobs
  {
    if jobs != [] {
      ExecuteTouches(schemas, JobInserts(jobs[0]), name);
      AddJobsTouches(AddJobWrite(schemas, name, jobs[0], duration).schemas, name, jobs[1..], duration);
    }
  }

  /** Even a copy that stops half-way touches only its schema and keeps all widths and foreign keys. */
  lemma {:induction false} AddNodesTouches(schemas: map<string, Schema>, name: string, nodes: seq<TNode>, duration: int)
    ensures OnlyTouches(schemas, name, AddNodesWrite(schemas, name, nodes, duration).schemas)
    ensures Ends(AddNodesWrite(schemas, name, nodes, duration).outcome)
    decreases nodes
  {
    if nodes != [] {
      var n := nodes[0];
      var queries := [InsertIgnoreNode(n.name, n.weight)];
      ExecuteTouches(schemas, queries, name);
      AddJobsTouches(Execute(schemas, queries, name).schemas, name, n.jobs, duration);
      AddNodesTouches(AddNodeWrite(schemas, name, n, duration).schemas, name, nodes[1..], duration);
    }
  }

  // ----- names that do not survive -----

  /** Every name in q is what the server reads for some name of p. */
  ghost predicate NamesDrawn(p: Planning, q: Planning) {
    && (forall n {:trigger Drawn(p.nodes.Keys, n)} | n in q.nodes :: Drawn(p.nodes.Keys, n))
    && (forall j {:trigger Drawn(p.jobs.Keys, j)} | j in q.jobs :: Drawn(p.jobs.Keys, j))
  }

  ghost predicate DrawnAt(p: Planning, schemas: map<string, Schema>, name: string) {
    Usable(schemas, name) && NamesDrawn(p, schemas[name].plan)
  }

  lemma {:induction false} ConstraintsKeepRows(cs: seq<(ConstraintType, int)>, j: string, p: Planning)
    requires RunAll(ConstraintInserts(cs, j), p).Some?
    ensures var q := RunAll(ConstraintInserts(cs, j), p).value; q.nodes == p.nodes && q.jobs == p.jobs
  {
    if cs != [] {
      var front, last := cs[..|cs| - 1], cs[|cs| - 1];
      RunAllConcat(ConstraintInserts(front, j), [InsertConstraint(j, last.0, last.1)], p);
      ConstraintsKeepRows(front, j, p);
      RunOne(InsertConstraint(j, last.0, last.1), RunAll(ConstraintInserts(front, j), p).value);
    }
  }

  /** Whatever the texts, the inserts of a job add at most the row of the name read. */
  lemma JobInsertsKeys(t: TJob, p: Planning)
    requires ApplyAll(JobInserts(t), p).Some?
    ensures var q := ApplyAll(JobInserts(t), p).value;
            q.nodes == p.nodes && Literal(t.name).Some? && q.jobs.Keys == p.jobs.Keys + {Stored(t.name)}
  {
    var u := AsRead(t);
    ApplyAllReads(JobInserts(t), p);
    ReadJobInserts(t);
    AfterRow(p, u);
    var q := WithRow(p, u);
    RunLinkInserts(JobLinks(u), q);
    ConstraintsKeepRows(u.timeConstraints, u.name, q.(links := q.links + LinkSet(JobLinks(u))));
  }

  lemma JobKeepsDrawn(p: Planning, schemas: map<string, Schema>, name: string, t: TJob, duration: int)
    requires DrawnAt(p, schemas, name) && t.name in p.jobs
    ensures DrawnAt(p, AddJobWrite(schemas, name, t, duration).schemas, name)
  {
    var q := schemas[name].plan;
    if ApplyAll(JobInserts(t), q).Some? {
      JobInsertsKeys(t, q);
    }
  }

  lemma {:induction false} JobsKeepDrawn(p: Planning, schemas: map<string, Schema>, name: string, jobs: seq<TJob>,
                                         duration: int)
    requires DrawnAt(p, schemas, name) && forall i | 0 <= i < |jobs| :: jobs[i].name in p.jobs
    ensures DrawnAt(p, AddJobsWrite(schemas, name, jobs, duration).schemas, name)
    decreases jobs
  {
    if jobs != [] {
      JobKeepsDrawn(p, schemas, name, jobs[0], duration);
      JobsKeepDrawn(p, AddJobWrite(schemas, name, jobs[0], duration).schemas, name, jobs[1..], duration);
    }
  }

  lemma NodeKeepsDrawn(p: Planning, schemas: map<string, Schema>, name: string, n: TNode)
    requires Consistent(p) && DrawnAt(p, schemas, name) && n.name in p.nodes
    ensures DrawnAt(p, Execute(schemas, [InsertIgnoreNode(n.name, n.weight)], name).schemas, name)
  {
    ApplyOne(InsertIgnoreNode(n.name, n.weight), schemas[name].plan);
    if Literal(n.name).Some? {
      LiteralShrinks(n.name);
    }
  }

  lemma {:induction false} NodesKeepDrawn(p: Planning, domain: string, schemas: map<string, Schema>, name: string,
                                          rows: seq<string>, nodes: seq<TNode>, duration: int)
    requires Consistent(p) && DrawnAt(p, schemas, name)
    requires |rows| == |nodes| && forall i | 0 <= i < |nodes| :: ReadsNode(p, domain, rows[i], nodes[i])
    ensures DrawnAt(p, AddNodesWrite(schemas, name, nodes, duration).schemas, name)
    decreases nodes
  {
    if nodes != [] {
      var n := nodes[0];
      assert ReadsNode(p, domain, rows[0], n);
      NodeKeepsDrawn(p, schemas, name, n);
      JobsKeepDrawn(p, Execute(schemas, [InsertIgnoreNode(n.name, n.weight)], name).schemas, name, n.jobs, duration);
      NodesKeepDrawn(p, domain, AddNodeWrite(schemas, name, n, duration).schemas, name, rows[1..], nodes[1..],
                     duration);
    }
  }

  /** A template with a name that does not survive is never copied faithfully: some key of the
      copy would have to be read from a longer one. */
  lemma UnfaithfulNames(p: Planning, domain: string, schemas: map<string, Schema>, name: string,
                        rows: seq<string>, nodes: seq<TNode>, duration: int)
    requires Consistent(p) && ReadsNodes(p, domain, rows, nodes)
    requires name in schemas && schemas[name] == HasTables(EMPTY_PLANNING)
    ensures var after := AddNodesWrite(schemas, name, nodes, duration).schemas;
            Usable(after, name) && (FaithfulCopy(p, after[name].plan) ==> NamesSurvive(p))
  {
    NodesKeepDrawn(p, domain, schemas, name, rows, nodes, duration);
    var q := AddNodesWrite(schemas, name, nodes, duration).schemas[name].plan;
    if FaithfulCopy(p, q) {
      DrawnSurvives(p, q);
    }
  }

  lemma DrawnSurvives(p: Planning, q: Planning)
    requires NamesDrawn(p, q) && q.nodes.Keys == p.nodes.Keys && q.jobs.Keys == p.jobs.Keys
    ensures NamesSurvive(p)
  {
    AllSurvive(p.nodes.Keys);
    AllSurvive(p.jobs.Keys);
  }
}
