/** Which templates can be copied, whatever order the SELECTs of the copy return their rows in
    (src/domain.cpp:200-208, src/domain.cpp:449-468, src/domain.cpp:876-880, src/domain.cpp:1248-1263). */
module OrderFree {
  import opened Tables
  import opened Literals
  import opened Graph
  import opened TemplateCopy
  import opened CopyOrder

  /** The links between distinct jobs. */
  ghost function Between(p: Planning): set<(string, string)> {
    set l | l in p.links && l.0 != l.1
  }

  /** The links between distinct jobs of one node. */
  ghost function Inside(p: Planning): set<(string, string)>
    requires Consistent(p)
  {
    set l | l in p.links && l.0 != l.1 && p.jobs[l.0].node == p.jobs[l.1].node
  }

  /** A node is related to another when some link leads from a job of the first to a job of the second. */
  ghost function Across(p: Planning): set<(string, string)>
    requires Consistent(p)
  {
    set l | l in p.links && p.jobs[l.0].node != p.jobs[l.1].node :: (p.jobs[l.0].node, p.jobs[l.1].node)
  }

  // ----- which of two comes first -----

  ghost predicate Before(q: seq<string>, x: string, y: string) {
    exists i, k :: 0 <= i < k < |q| && q[i] == x && q[k] == y
  }

  lemma BeforeAt(q: seq<string>, i: nat, k: nat)
    requires i < k < |q|
    ensures Before(q, q[i], q[k])
  {
  }

  lemma BeforeConcat(a: seq<string>, b: seq<string>, x: string, y: string)
    ensures Before(a + b, x, y) <==> Before(a, x, y) || Before(b, x, y) || (x in a && y in b)
  {
    var q := a + b;
    if Before(a, x, y) {
      var i, k :| 0 <= i < k < |a| && a[i] == x && a[k] == y;
      BeforeAt(q, i, k);
    } else if Before(b, x, y) {
      var i, k :| 0 <= i < k < |b| && b[i] == x && b[k] == y;
      BeforeAt(q, |a| + i, |a| + k);
    } else if x in a && y in b {
      var i :| 0 <= i < |a| && a[i] == x;
      var k :| 0 <= k < |b| && b[k] == y;
      BeforeAt(q, i, |a| + k);
    }
    if Before(q, x, y) {
      var i, k :| 0 <= i < k < |q| && q[i] == x && q[k] == y;
      if k < |a| {
        BeforeAt(a, i, k);
      } else if i >= |a| {
        BeforeAt(b, i - |a|, k - |a|);
      }
    }
  }

  lemma BackwardMeans(r: set<(string, string)>, q: seq<string>)
    ensures Backward(r, q) <==> forall x, y | (x, y) in r :: !Before(q, x, y)
  {
    if forall x, y | (x, y) in r :: !Before(q, x, y) {
      forall a, b | 0 <= a < b < |q| ensures (q[a], q[b]) !in r {
        BeforeAt(q, a, b);
      }
    }
  }

  lemma NeverBeforeItself(q: seq<string>, s: set<string>, x: string)
    requires Lists(q, s)
    ensures !Before(q, x, x)
  {
  }

  /** The jobs of q that are on the node, in the order of q. */
  function OnNode(p: Planning, q: seq<string>, node: string): seq<string> {
    if q == [] then []
    else (if q[0] in JobsOn(p, node) then [q[0]] else []) + OnNode(p, q[1..], node)
  }

  lemma {:induction false} OnNodeMembers(p: Planning, q: seq<string>, node: string)
    ensures forall x :: x in OnNode(p, q, node) <==> x in q && x in JobsOn(p, node)
  {
    if q != [] {
      OnNodeMembers(p, q[1..], node);
      assert forall x :: x in q <==> x == q[0] || x in q[1..];
    }
  }

  lemma {:induction false} OnNodeBefore(p: Planning, q: seq<string>, node: string, x: string, y: string)
    requires x in JobsOn(p, node) && y in JobsOn(p, node)
    ensures Before(OnNode(p, q, node), x, y) <==> Before(q, x, y)
  {
    if q != [] {
      var first, rest := if q[0] in JobsOn(p, node) then [q[0]] else [], OnNode(p, q[1..], node);
      OnNodeBefore(p, q[1..], node, x, y);
      OnNodeMembers(p, q[1..], node);
      BeforeConcat(first, rest, x, y);
      BeforeConcat([q[0]], q[1..], x, y);
      assert q == [q[0]] + q[1..];
    }
  }

  lemma {:induction false} OnNodeLists(p: Planning, q: seq<string>, node: string)
    requires Lists(q, p.jobs.Keys)
    ensures Lists(OnNode(p, q, node), JobsOn(p, node))
  {
    var r := OnNode(p, q, node);
    OnNodeMembers(p, q, node);
    forall i, k | 0 <= i < k < |r| ensures r[i] != r[k] {
      assert r[i] in r && r[k] in r;
      BeforeAt(r, i, k);
      OnNodeBefore(p, q, node, r[i], r[k]);
      NeverBeforeItself(q, p.jobs.Keys, r[i]);
    }
  }

  // ----- the order of a reading -----

  /** Readings of distinct nodes. */
  ghost predicate NodesRead(p: Planning, domain: string, nodes: seq<TNode>) {
    && (forall i | 0 <= i < |nodes| :: ReadsNode(p, domain, nodes[i].name, nodes[i]))
    && (forall i, k | 0 <= i < k < |nodes| :: nodes[i].name != nodes[k].name)
  }

  lemma FirstNode(p: Planning, domain: string, nodes: seq<TNode>)
    requires NamesSurvive(p) && nodes != [] && NodesRead(p, domain, nodes)
    ensures NodesRead(p, domain, nodes[1..])
    ensures Lists(JobNames(nodes[0].jobs), JobsOn(p, nodes[0].name))
    ensures Lists(Order(nodes[1..]), JobsOnAny(p, NodeNames(nodes[1..])))
    ensures NodeNames(nodes) == [nodes[0].name] + NodeNames(nodes[1..])
    ensures nodes[0].name !in NodeNames(nodes[1..])
  {
    OrderListsJobs(p, domain, nodes[1..]);
  }

  /** Jobs of different nodes come in the order of their nodes. */
  lemma {:induction false} NodesFirst(p: Planning, domain: string, nodes: seq<TNode>, x: string, y: string)
    requires NamesSurvive(p) && NodesRead(p, domain, nodes)
    requires x in p.jobs && y in p.jobs && p.jobs[x].node != p.jobs[y].node
    ensures Before(Order(nodes), x, y) <==> Before(NodeNames(nodes), p.jobs[x].node, p.jobs[y].node)
    decreases nodes
  {
    if nodes != [] {
      var n, tail := nodes[0], nodes[1..];
      var nx, ny := p.jobs[x].node, p.jobs[y].node;
      FirstNode(p, domain, nodes);
      NodesFirst(p, domain, tail, x, y);
      BeforeConcat(JobNames(n.jobs), Order(tail), x, y);
      BeforeConcat([n.name], NodeNames(tail), nx, ny);
      NotWithinOne(p, n, x, y);
      assert x in JobNames(n.jobs) <==> nx == n.name;
      assert y in Order(tail) <==> ny in NodeNames(tail);
    }
  }

  lemma NotWithinOne(p: Planning, n: TNode, x: string, y: string)
    requires Lists(JobNames(n.jobs), JobsOn(p, n.name))
    requires x in p.jobs && y in p.jobs && p.jobs[x].node != p.jobs[y].node
    ensures !Before(JobNames(n.jobs), x, y)
  {
    OnlyMembers(JobNames(n.jobs), x, y);
  }

  /** Each node's jobs come in the order of q. */
  ghost predicate Follows(p: Planning, nodes: seq<TNode>, q: seq<string>) {
    forall i | 0 <= i < |nodes| :: JobNames(nodes[i].jobs) == OnNode(p, q, nodes[i].name)
  }

  /** Jobs of one node come in the order of q, if the node's jobs were listed so. */
  lemma {:induction false} JobsSecond(p: Planning, domain: string, nodes: seq<TNode>, q: seq<string>,
                                      x: string, y: string)
    requires NamesSurvive(p) && NodesRead(p, domain, nodes) && Follows(p, nodes, q)
    requires x in p.jobs && y in p.jobs && p.jobs[x].node == p.jobs[y].node
    ensures Before(Order(nodes), x, y) <==> Before(q, x, y) && p.jobs[x].node in NodeNames(nodes)
    decreases nodes
  {
    if nodes != [] {
      var n, tail := nodes[0], nodes[1..];
      FirstNode(p, domain, nodes);
      JobsSecond(p, domain, tail, q, x, y);
      BeforeConcat(JobNames(n.jobs), Order(tail), x, y);
      if p.jobs[x].node == n.name {
        OnNodeBefore(p, q, n.name, x, y);
      } else {
        OnlyMembers(JobNames(n.jobs), x, y);
      }
    }
  }

  lemma OnlyMembers(q: seq<string>, x: string, y: string)
    ensures Before(q, x, y) ==> x in q && y in q
  {
  }

  // ----- building a reading with a chosen order -----

  /** The constraints of a job, read in the order of their types. */
  function ConstraintsRead(p: Planning, j: string): seq<(ConstraintType, int)> {
    ConstraintRead(p, At, j) + ConstraintRead(p, ConstraintType.Before, j) + ConstraintRead(p, After, j)
  }

  function ConstraintRead(p: Planning, ctype: ConstraintType, j: string): seq<(ConstraintType, int)> {
    if (ctype, j) in p.constraints then [(ctype, CastOrZero(p.constraints[(ctype, j)]))] else []
  }

  lemma ConstraintsAreRead(p: Planning, j: string)
    ensures forall c :: c in ConstraintsRead(p, j) <==> c in ConstraintsOf(p, j)
    ensures DistinctTypes(ConstraintsRead(p, j))
  {
    forall c ensures c in ConstraintsRead(p, j) <==> c in ConstraintsOf(p, j) {
      var a, b, d := ConstraintRead(p, At, j), ConstraintRead(p, ConstraintType.Before, j), ConstraintRead(p, After, j);
      assert c in a + b + d <==> c in a || c in b || c in d;
      assert (c in a ==> c.0 == At) && (c in b ==> c.0 == ConstraintType.Before) && (c in d ==> c.0 == After);
      assert c in ConstraintsRead(p, j) <==> c in ConstraintRead(p, c.0, j) by {
        match c.0 case At => case Before => case After =>
      }
      if c in ConstraintRead(p, c.0, j) {
        assert (c.0, j) in p.constraints && (c.0, j).1 == j;
      }
    }
  }

  lemma JobHasReading(p: Planning, domain: string, j: string) returns (t: TJob)
    requires NamesSurvive(p) && j in p.jobs
    ensures t.name == j && ReadsJob(p, domain, t)
  {
    var row, next := p.jobs[j], Successors(p, j);
    var nxt: seq<string> := [];
    if y :| y in next {
      nxt := ListingFrom(next, y);
    }
    ConstraintsAreRead(p, j);
    t := TJob(domain, j, row.node, row.cmdLine, Wrap16(row.weight), row.state, [], nxt, ConstraintsRead(p, j));
  }

  lemma {:induction false} JobsHaveReading(p: Planning, domain: string, names: seq<string>) returns (jobs: seq<TJob>)
    requires NamesSurvive(p) && forall j | j in names :: j in p.jobs
    ensures JobNames(jobs) == names && forall i | 0 <= i < |jobs| :: ReadsJob(p, domain, jobs[i])
  {
    if names == [] {
      jobs := [];
    } else {
      var t := JobHasReading(p, domain, names[0]);
      var rest := JobsHaveReading(p, domain, names[1..]);
      jobs := [t] + rest;
      assert JobNames(jobs) == [t.name] + JobNames(rest);
    }
  }

  lemma {:induction false} NodesHaveReading(p: Planning, domain: string, rows: seq<string>, q: seq<string>)
    returns (nodes: seq<TNode>)
    requires NamesSurvive(p) && Lists(q, p.jobs.Keys) && forall n | n in rows :: n in p.nodes
    ensures NodeNames(nodes) == rows && Follows(p, nodes, q)
    ensures forall i | 0 <= i < |nodes| :: ReadsNode(p, domain, nodes[i].name, nodes[i])
  {
    if rows == [] {
      nodes := [];
    } else {
      OnNodeLists(p, q, rows[0]);
      OnNodeMembers(p, q, rows[0]);
      var jobs := JobsHaveReading(p, domain, OnNode(p, q, rows[0]));
      var rest := NodesHaveReading(p, domain, rows[1..], q);
      nodes := [TNode(rows[0], p.nodes[rows[0]], jobs)] + rest;
      assert NodeNames(nodes) == [rows[0]] + NodeNames(rest);
    }
  }

  /** Any listing of the nodes and any listing of the jobs come from some full reading. */
  lemma HasReading(p: Planning, domain: string, rows: seq<string>, q: seq<string>) returns (nodes: seq<TNode>)
    requires NamesSurvive(p) && Lists(rows, p.nodes.Keys) && Lists(q, p.jobs.Keys)
    ensures ReadsNodes(p, domain, rows, nodes) && NodesRead(p, domain, nodes)
    ensures NodeNames(nodes) == rows && Follows(p, nodes, q)
  {
    nodes := NodesHaveReading(p, domain, rows, q);
    forall i | 0 <= i < |nodes| ensures nodes[i].name == rows[i] {
      assert NodeNames(nodes)[i] == rows[i];
    }
  }

  // ----- the theorems -----

  lemma FullReading(p: Planning, domain: string, rows: seq<string>, nodes: seq<TNode>)
    requires Consistent(p) && NamesSurvive(p) && ReadsNodes(p, domain, rows, nodes)
    ensures NodeNames(nodes) == rows && NodesRead(p, domain, nodes) && Lists(Order(nodes), p.jobs.Keys)
  {
    ReadingNames(p, domain, rows, nodes);
    DistinctNodes(nodes);
    OrderListsJobs(p, domain, nodes);
    AllNodesCoverAllJobs(p, rows);
  }

  /** The order in which some full reading of the template inserts the jobs. */
  ghost predicate ReadingOrder(p: Planning, order: seq<string>) {
    exists domain, rows, nodes :: ReadsNodes(p, domain, rows, nodes) && order == Order(nodes)
  }

  /** Every reading copies. */
  ghost predicate AlwaysCopies(p: Planning, domain: string, duration: int) {
    forall rows, nodes | ReadsNodes(p, domain, rows, nodes) :: Copyable(p, Order(nodes), duration)
  }

  /** Some reading copies. */
  ghost predicate CanCopy(p: Planning, domain: string, duration: int) {
    exists rows, nodes :: ReadsNodes(p, domain, rows, nodes) && Copyable(p, Order(nodes), duration)
  }

  /** Of two distinct jobs, either can come first. */
  lemma ReadingWithFirst(p: Planning, domain: string, x: string, y: string)
    returns (rows: seq<string>, nodes: seq<TNode>)
    requires Consistent(p) && NamesSurvive(p) && x in p.jobs && y in p.jobs && x != y
    ensures ReadsNodes(p, domain, rows, nodes) && Before(Order(nodes), x, y)
  {
    rows := ListingFrom(p.nodes.Keys, p.jobs[x].node);
    var q := ListingFrom(p.jobs.Keys, x);
    nodes := HasReading(p, domain, rows, q);
    if p.jobs[x].node == p.jobs[y].node {
      FirstBefore(q, p.jobs.Keys, y);
      JobsSecond(p, domain, nodes, q, x, y);
    } else {
      FirstBefore(rows, p.nodes.Keys, p.jobs[y].node);
      NodesFirst(p, domain, nodes, x, y);
    }
  }

  lemma FirstBefore(q: seq<string>, s: set<string>, y: string)
    requires Lists(q, s) && y in s && q != [] && q[0] != y
    ensures Before(q, q[0], y)
  {
    var k :| 0 <= k < |q| && q[k] == y;
    BeforeAt(q, 0, k);
  }

  lemma AnyReading(p: Planning, domain: string) returns (rows: seq<string>, nodes: seq<TNode>)
    requires NamesSurvive(p)
    ensures ReadsNodes(p, domain, rows, nodes)
  {
    rows := AnyListing(p.nodes.Keys);
    var q := AnyListing(p.jobs.Keys);
    nodes := HasReading(p, domain, rows, q);
  }

  lemma AnyListing(s: set<string>) returns (q: seq<string>)
    ensures Lists(q, s)
  {
    q := [];
    if x :| x in s {
      q := ListingFrom(s, x);
    }
  }

  /** Whatever the order of the rows, the copy goes through, exactly when no link joins two distinct
      jobs, the command lines can be read and no constraint is longer than the planning. */
  lemma EveryReadingCopies(p: Planning, domain: string, duration: int)
    requires Consistent(p) && NamesSurvive(p)
    ensures AlwaysCopies(p, domain, duration) <==> Between(p) == {} && RowsGo(p, duration)
  {
    if AlwaysCopies(p, domain, duration) {
      var rows, nodes := AnyReading(p, domain);
      assert Copyable(p, Order(nodes), duration);
      if l :| l in Between(p) {
        var rows1, nodes1 := ReadingWithFirst(p, domain, l.0, l.1);
        assert Copyable(p, Order(nodes1), duration);
        BackwardMeans(p.links, Order(nodes1));
        assert false;
      }
    }
    if Between(p) == {} && RowsGo(p, duration) {
      forall rows, nodes | ReadsNodes(p, domain, rows, nodes) ensures Copyable(p, Order(nodes), duration) {
        FullReading(p, domain, rows, nodes);
        NothingBetween(p, Order(nodes));
      }
    }
  }

  lemma NothingBetween(p: Planning, q: seq<string>)
    requires Between(p) == {} && Lists(q, p.jobs.Keys)
    ensures Backward(p.links, q)
  {
    forall a, b | 0 <= a < b < |q| ensures (q[a], q[b]) !in p.links {
      assert (q[a], q[b]) !in Between(p);
    }
  }

  lemma BackwardWithin(r: set<(string, string)>, s: set<(string, string)>, q: seq<string>)
    requires Backward(s, q) && r <= s
    ensures Backward(r, q)
  {
  }

  /** In the order of a copy that goes through, neither the links inside the nodes nor the relation
      of the nodes can run round. */
  lemma CopyableIsAcyclic(p: Planning, domain: string, rows: seq<string>, nodes: seq<TNode>, duration: int)
    requires Consistent(p) && NamesSurvive(p) && ReadsNodes(p, domain, rows, nodes)
    requires Copyable(p, Order(nodes), duration)
    ensures Acyclic(Inside(p)) && Acyclic(Across(p))
  {
    var q := Order(nodes);
    FullReading(p, domain, rows, nodes);
    BackwardWithin(Inside(p), p.links, q);
    BackwardIsAcyclic(Inside(p), q, p.jobs.Keys);
    BackwardMeans(p.links, q);
    forall a, b | 0 <= a < b < |rows| ensures (rows[a], rows[b]) !in Across(p) {
      if (rows[a], rows[b]) in Across(p) {
        var l :| l in p.links && p.jobs[l.0].node == rows[a] && p.jobs[l.1].node == rows[b];
        BeforeAt(rows, a, b);
        NodesFirst(p, domain, nodes, l.0, l.1);
        assert false;
      }
    }
    BackwardIsAcyclic(Across(p), rows, p.nodes.Keys);
  }

  lemma AcyclicIsBackward(p: Planning, domain: string, rows: seq<string>, nodes: seq<TNode>, q: seq<string>)
    requires Consistent(p) && NamesSurvive(p) && NodesRead(p, domain, nodes)
    requires NodeNames(nodes) == rows && Follows(p, nodes, q)
    requires Lists(rows, p.nodes.Keys) && Lists(q, p.jobs.Keys) && Backward(Inside(p), q) && Backward(Across(p), rows)
    ensures Backward(p.links, Order(nodes))
  {
    BackwardMeans(Inside(p), q);
    BackwardMeans(Across(p), rows);
    forall x, y | (x, y) in p.links ensures !Before(Order(nodes), x, y) {
      assert (x, y).0 in p.jobs;
      if p.jobs[x].node != p.jobs[y].node {
        NodesFirst(p, domain, nodes, x, y);
        assert (p.jobs[x].node, p.jobs[y].node) in Across(p);
      } else {
        JobsSecond(p, domain, nodes, q, x, y);
        NeverBeforeItself(q, p.jobs.Keys, x);
        assert x != y ==> (x, y) in Inside(p);
      }
    }
    BackwardMeans(p.links, Order(nodes));
  }

  /** Some order of the rows makes the copy go through exactly when the links inside each node run
      round nowhere, links of a job to itself aside, the nodes themselves are not linked in a round, the
      command lines can be read and no constraint is longer than the planning. */
  lemma SomeReadingCopies(p: Planning, domain: string, duration: int)
    requires Consistent(p) && NamesSurvive(p)
    ensures CanCopy(p, domain, duration) <==> Acyclic(Inside(p)) && Acyclic(Across(p)) && RowsGo(p, duration)
  {
    if CanCopy(p, domain, duration) {
      var rows, nodes :| ReadsNodes(p, domain, rows, nodes) && Copyable(p, Order(nodes), duration);
      CopyableIsAcyclic(p, domain, rows, nodes, duration);
    }
    if Acyclic(Inside(p)) && Acyclic(Across(p)) && RowsGo(p, duration) {
      var q := AcyclicHasListing(Inside(p), p.jobs.Keys);
      var rows := AcyclicHasListing(Across(p), p.nodes.Keys);
      var nodes := HasReading(p, domain, rows, q);
      AcyclicIsBackward(p, domain, rows, nodes, q);
    }
  }

  /** Both conditions, for the order of any full reading. */
  lemma OrderDecides(p: Planning, order: seq<string>, duration: int)
    requires Consistent(p) && NamesSurvive(p) && ReadingOrder(p, order)
    ensures Between(p) == {} && RowsGo(p, duration) ==> Copyable(p, order, duration)
    ensures Copyable(p, order, duration) ==> Acyclic(Inside(p)) && Acyclic(Across(p)) && RowsGo(p, duration)
  {
    var domain, rows, nodes :| ReadsNodes(p, domain, rows, nodes) && order == Order(nodes);
    FullReading(p, domain, rows, nodes);
    if Between(p) == {} {
      NothingBetween(p, order);
    }
    if Copyable(p, order, duration) {
      CopyableIsAcyclic(p, domain, rows, nodes, duration);
    }
  }

  /** No order of insertion copies links that run round several jobs, on whatever nodes. */
  lemma CyclesNeverCopy(p: Planning, order: seq<string>, duration: int, c: seq<string>)
    requires Consistent(p) && Lists(order, p.jobs.Keys) && Cycle(Between(p), c)
    ensures !Copyable(p, order, duration)
  {
    if Copyable(p, order, duration) {
      BackwardWithin(Between(p), p.links, order);
      NoCycle(Between(p), order, p.jobs.Keys, c);
      assert false;
    }
  }

  // ----- templates -----

  function Row(node: string, cmdLine: string): JobRow {
    JobRow(cmdLine, node, 1, Waiting, None, None)
  }

  /** One link is enough for the order of the rows to decide. */
  lemma ForwardLink()
    ensures exists p: Planning, a: string, b: string :: Consistent(p) && p.jobs.Keys == {a, b} && p.links == {(a, b)}
              && Copyable(p, [b, a], 86400) && !Copyable(p, [a, b], 86400)
  {
    var p := Planning(map["n" := 1], map["a" := Row("n", "c"), "b" := Row("n", "c")], {("a", "b")}, map[]);
    PlainSurvives("c");
    assert !Backward(p.links, ["a", "b"]) by {
      assert ("a", "b") in p.links && ["a", "b"][0] == "a" && ["a", "b"][1] == "b";
    }
  }

  /** Two jobs on each of two nodes, linked once each way. */
  function CrossedNodes(): Planning {
    Planning(map["m" := 1, "n" := 1],
             map["a" := Row("m", "c"), "b" := Row("m", "c"), "x" := Row("n", "c"), "y" := Row("n", "c")],
             {("a", "x"), ("y", "b")}, map[])
  }

  lemma OneLetterSurvives(s: string)
    requires |s| == 1 && s[0] != '\'' && s[0] != '\\'
    ensures Survives(s)
  {
    PlainSurvives(s);
  }

  lemma CrossedNodesFit()
    ensures Consistent(CrossedNodes()) && NamesSurvive(CrossedNodes())
  {
    OneLetterSurvives("m");
    OneLetterSurvives("n");
    OneLetterSurvives("a");
    OneLetterSurvives("b");
    OneLetterSurvives("x");
    OneLetterSurvives("y");
  }

  lemma CrossedNodesAcyclic()
    requires Consistent(CrossedNodes())
    ensures Acyclic(Between(CrossedNodes()))
  {
    var p := CrossedNodes();
    var q := ["x", "a", "b", "y"];
    assert Lists(q, p.jobs.Keys);
    BackwardIsAcyclic(Between(p), q, p.jobs.Keys);
  }

  lemma CrossedNodesCycle()
    requires Consistent(CrossedNodes())
    ensures !Acyclic(Across(CrossedNodes()))
  {
    var p := CrossedNodes();
    assert ("a", "x") in p.links && ("y", "b") in p.links;
    assert ("m", "n") in Across(p) && ("n", "m") in Across(p);
    assert Cycle(Across(p), ["m", "n"]);
  }

  /** Links both ways between two nodes are never copied, though no job follows itself. */
  lemma CrossedNodesNeverCopy(domain: string, duration: int)
    ensures var p := CrossedNodes();
            Consistent(p) && NamesSurvive(p) && Acyclic(Between(p)) && !CanCopy(p, domain, duration)
  {
    CrossedNodesFit();
    CrossedNodesAcyclic();
    CrossedNodesCycle();
    SomeReadingCopies(CrossedNodes(), domain, duration);
  }

  /** A template of a single job without links or constraints. */
  function OneJob(cmdLine: string): Planning {
    Planning(map["n" := 1], map["j" := Row("n", cmdLine)], {}, map[])
  }

  lemma OneJobFits(cmdLine: string)
    requires |cmdLine| <= WIDTH
    ensures Consistent(OneJob(cmdLine)) && NamesSurvive(OneJob(cmdLine)) && NumbersFit(OneJob(cmdLine))
  {
    PlainSurvives("n");
    PlainSurvives("j");
  }

  lemma OneJobCopies(cmdLine: string)
    ensures Lists(["j"], OneJob(cmdLine).jobs.Keys)
    ensures Copyable(OneJob(cmdLine), ["j"], 86400) <==> Literal(cmdLine).Some?
  {
    assert OneJob(cmdLine).jobs["j"].cmdLine == cmdLine;
  }

  /** A quoted word in a command line stops the copy, and a backslash changes it silently, of a
      template that meets every other condition. */
  lemma UnescapedCommands()
    ensures var p := OneJob("echo 'hi'");
            Consistent(p) && NamesSurvive(p) && NumbersFit(p) && !Copyable(p, ["j"], 86400)
    ensures var p := OneJob("grep \"\\.\" f");
            && Consistent(p) && NamesSurvive(p) && NumbersFit(p) && Copyable(p, ["j"], 86400)
            && Image(p).jobs["j"].cmdLine == "grep \".\" f" && !FaithfulCopy(p, Image(p))
  {
    QuotedWord();
    OneJobFits("echo 'hi'");
    OneJobCopies("echo 'hi'");
    BackslashedPoint();
    var c := "grep \"\\.\" f";
    OneJobFits(c);
    OneJobCopies(c);
    assert OneJob(c).jobs["j"].cmdLine == c && |c| != |"grep \".\" f"|;
  }
}
