/** What is read from the template planning and written into a new one
    (src/domain.cpp:200-208, src/domain.cpp:295-317, src/domain.cpp:410-505, src/domain.cpp:876-1279). */
module TemplateCopy {
  import opened Tables
  import opened Literals
  import opened Database
  import opened Graph

  /** A job and a node as the RPC model carries them; rows come in the order of the result set. */
  datatype TJob = TJob(
    domain: string,
    name: string,
    node: string,
    cmdLine: string,
    weight: int,
    state: JobState,
    prv: seq<string>,
    nxt: seq<string>,
    timeConstraints: seq<(ConstraintType, int)>)

  datatype TNode = TNode(name: string, weight: int, jobs: seq<TJob>)

  // ----- 16-bit numbers -----

  predicate Fits16(x: int) {
    -0x8000 <= x < 0x8000
  }

  /** Assignment of a 32-bit number to an i16 field. */
  function Wrap16(x: int): (r: int)
    ensures Fits16(r) && (r == x <==> Fits16(x))
  {
    (x + 0x8000) % 0x1_0000 - 0x8000
  }

  /** The value kept agrees with the number modulo 2 to the 16th. */
  lemma WrapsAround(x: int)
    ensures (Wrap16(x) - x) % 0x1_0000 == 0 && -32768 <= Wrap16(x) <= 32767
  {
    assert Wrap16(x) - x == -((x + 0x8000) / 0x1_0000) * 0x1_0000;
  }

  /** A failed cast of a constraint's value is caught and leaves the field zero. */
  function CastOrZero(x: int): int {
    if Fits16(x) then x else 0
  }

  // ----- reading -----

  function Successors(p: Planning, j: string): set<string> {
    set l | l in p.links && l.0 == j :: l.1
  }

  function ConstraintsOf(p: Planning, j: string): set<(ConstraintType, int)> {
    set k | k in p.constraints && k.1 == j :: (k.0, CastOrZero(p.constraints[k]))
  }

  function JobsOn(p: Planning, node: string): set<string> {
    set j | j in p.jobs && p.jobs[j].node == node
  }

  /** t is what get_jobs builds for the row of job t.name; its links and constraints are looked up
      under the value the server reads for that name. */
  ghost predicate ReadsJob(p: Planning, domain: string, t: TJob) {
    && t.name in p.jobs && Literal(t.name).Some?
    && var row, found := p.jobs[t.name], Stored(t.name);
    && t.domain == domain && t.node == row.node && t.cmdLine == row.cmdLine
    && t.weight == Wrap16(row.weight) && t.state == row.state && t.prv == []
    && Lists(t.nxt, Successors(p, found))
    && (forall c :: c in t.timeConstraints <==> c in ConstraintsOf(p, found))
    && DistinctTypes(t.timeConstraints)
  }

  function JobNames(jobs: seq<TJob>): seq<string> {
    seq(|jobs|, i requires 0 <= i < |jobs| => jobs[i].name)
  }

  ghost predicate DistinctJobs(jobs: seq<TJob>) {
    forall i, k | 0 <= i < k < |jobs| :: jobs[i].name != jobs[k].name
  }

  ghost predicate ReadsJobs(p: Planning, domain: string, node: string, jobs: seq<TJob>) {
    && Literal(node).Some?
    && Lists(JobNames(jobs), JobsOn(p, Stored(node)))
    && forall i | 0 <= i < |jobs| :: ReadsJob(p, domain, jobs[i])
  }

  /** The jobs of a node can be read. */
  ghost predicate JobsReadable(p: Planning, node: string) {
    Literal(node).Some? && forall j | j in JobsOn(p, Stored(node)) :: Literal(j).Some?
  }

  function NodeNames(nodes: seq<TNode>): seq<string> {
    seq(|nodes|, i requires 0 <= i < |nodes| => nodes[i].name)
  }

  /** n is what get_nodes builds for the row called raw: get_node looks the name up again, and
      fills in what it finds; finding nothing leaves the node without jobs. */
  ghost predicate ReadsNode(p: Planning, domain: string, raw: string, n: TNode) {
    && raw in p.nodes && Literal(raw).Some?
    && var found := Stored(raw);
    if found in p.nodes
    then n.name == found && n.weight == p.nodes[found] && ReadsJobs(p, domain, found, n.jobs)
    else n == TNode(raw, CastOrZero(p.nodes[raw]), [])
  }

  /** get_node neither meets an unreadable name nor a weight outside 16 bits. */
  ghost predicate NodeReadable(p: Planning, raw: string) {
    && Literal(raw).Some?
    && var found := Stored(raw);
    found in p.nodes ==> Fits16(p.nodes[found]) && JobsReadable(p, found)
  }

  ghost predicate TemplateReadable(p: Planning) {
    forall raw | raw in p.nodes :: NodeReadable(p, raw)
  }

  ghost predicate ReadsNodes(p: Planning, domain: string, rows: seq<string>, nodes: seq<TNode>) {
    && Lists(rows, p.nodes.Keys)
    && |nodes| == |rows|
    && forall i | 0 <= i < |rows| :: ReadsNode(p, domain, rows[i], nodes[i])
  }

  // ----- writing -----

  /** The links a job comes with: from its predecessors, then to its successors. */
  function LinksTo(prv: seq<string>, j: string): seq<(string, string)> {
    seq(|prv|, i requires 0 <= i < |prv| => (prv[i], j))
  }

  function LinksFrom(nxt: seq<string>, j: string): seq<(string, string)> {
    seq(|nxt|, i requires 0 <= i < |nxt| => (j, nxt[i]))
  }

  function LinkInserts(ls: seq<(string, string)>): seq<Statement> {
    if ls == [] then [] else LinkInserts(ls[..|ls| - 1]) + [InsertLink(ls[|ls| - 1].0, ls[|ls| - 1].1)]
  }

  function ConstraintInserts(cs: seq<(ConstraintType, int)>, j: string): seq<Statement> {
    if cs == [] then [] else
      ConstraintInserts(cs[..|cs| - 1], j) + [InsertConstraint(j, cs[|cs| - 1].0, cs[|cs| - 1].1)]
  }

  function JobLinks(t: TJob): seq<(string, string)> {
    LinksTo(t.prv, t.name) + LinksFrom(t.nxt, t.name)
  }

  function JobInserts(t: TJob): seq<Statement> {
    [InsertJob(t.name, t.cmdLine, t.node, t.weight)]
    + LinkInserts(JobLinks(t)) + ConstraintInserts(t.timeConstraints, t.name)
  }

  ghost predicate Distinct<T(!new)>(q: seq<T>) {
    forall i, k | 0 <= i < k < |q| :: q[i] != q[k]
  }

  /** The links can be added one after another: all new, all different, both ends known. */
  ghost predicate LinksNew(p: Planning, ls: seq<(string, string)>) {
    && Distinct(ls)
    && forall l | l in ls :: l !in p.links && l.0 in p.jobs && l.1 in p.jobs
  }

  function LinkSet(ls: seq<(string, string)>): set<(string, string)> {
    set l | l in ls
  }

  lemma LinksNewSnoc(p: Planning, front: seq<(string, string)>, last: (string, string))
    ensures LinksNew(p, front + [last]) <==>
            LinksNew(p, front) && last !in p.links + LinkSet(front) && last.0 in p.jobs && last.1 in p.jobs
    ensures LinkSet(front + [last]) == LinkSet(front) + {last}
  {
    var ls := front + [last];
    assert forall l :: l in ls <==> l in front || l == last;
    if LinksNew(p, ls) {
      forall i, k | 0 <= i < k < |front| ensures front[i] != front[k] {
        assert ls[i] != ls[k];
      }
      forall i | 0 <= i < |front| ensures front[i] != last {
        assert ls[i] != ls[|front|];
      }
    }
  }

  lemma LinkInsertsSnoc(front: seq<(string, string)>, last: (string, string))
    ensures LinkInserts(front + [last]) == LinkInserts(front) + [InsertLink(last.0, last.1)]
  {
    var ls := front + [last];
    assert ls[..|ls| - 1] == front && ls[|ls| - 1] == last;
  }

  /** The planning with more links. */
  function WithLinks(p: Planning, more: set<(string, string)>): Planning {
    p.(links := p.links + more)
  }

  lemma RunOneMoreLink(front: seq<(string, string)>, last: (string, string), p: Planning)
    requires RunAll(LinkInserts(front), p) == if LinksNew(p, front) then Some(WithLinks(p, LinkSet(front))) else None
    ensures RunAll(LinkInserts(front + [last]), p) ==
            if LinksNew(p, front + [last]) then Some(WithLinks(p, LinkSet(front + [last]))) else None
  {
    var one := InsertLink(last.0, last.1);
    LinkInsertsSnoc(front, last);
    RunAllConcat(LinkInserts(front), [one], p);
    LinksNewSnoc(p, front, last);
    if LinksNew(p, front) {
      var q := WithLinks(p, LinkSet(front));
      RunOne(one, q);
      assert q.links + {last} == p.links + LinkSet(front + [last]);
    }
  }

  lemma {:induction false} RunLinkInserts(ls: seq<(string, string)>, p: Planning)
    ensures RunAll(LinkInserts(ls), p) == if LinksNew(p, ls) then Some(WithLinks(p, LinkSet(ls))) else None
  {
    if ls == [] {
      assert p.links + LinkSet(ls) == p.links;
    } else {
      var front, last := ls[..|ls| - 1], ls[|ls| - 1];
      RunLinkInserts(front, p);
      RunOneMoreLink(front, last, p);
      assert ls == front + [last];
    }
  }

  /** after is before with the constraints cs of job j added. */
  ghost predicate ConstraintsAdded(before: map<(ConstraintType, string), int>, cs: seq<(ConstraintType, int)>,
                                   j: string, after: map<(ConstraintType, string), int>) {
    && (forall k :: k in after <==> k in before || (k.1 == j && exists c :: c in cs && c.0 == k.0))
    && (forall k | k in before :: after[k] == before[k])
    && (forall c | c in cs :: (c.0, j) in after && after[(c.0, j)] == c.1)
  }

  /** One constraint of each type at most. */
  ghost predicate DistinctTypes(cs: seq<(ConstraintType, int)>) {
    forall a, b | 0 <= a < b < |cs| :: cs[a].0 != cs[b].0
  }

  lemma OneMoreConstraint(before: map<(ConstraintType, string), int>, cs: seq<(ConstraintType, int)>, j: string,
                          mid: map<(ConstraintType, string), int>, c: (ConstraintType, int))
    requires ConstraintsAdded(before, cs, j, mid) && (c.0, j) !in before && DistinctTypes(cs)
    ensures (c.0, j) !in mid <==> DistinctTypes(cs + [c])
    ensures (c.0, j) !in mid ==> ConstraintsAdded(before, cs + [c], j, mid[(c.0, j) := c.1])
  {
    var all := cs + [c];
    assert forall d :: d in all <==> d in cs || d == c;
    if DistinctTypes(all) {
      forall i | 0 <= i < |cs| ensures cs[i].0 != c.0 {
        assert all[i].0 != all[|cs|].0;
      }
    }
  }

  lemma TypesOfFront(cs: seq<(ConstraintType, int)>)
    requires cs != [] && DistinctTypes(cs)
    ensures DistinctTypes(cs[..|cs| - 1])
  {
    var front := cs[..|cs| - 1];
    forall a, b | 0 <= a < b < |front| ensures front[a].0 != front[b].0 {
      assert cs[a].0 != cs[b].0;
    }
  }

  lemma {:induction false} RunConstraintInserts(cs: seq<(ConstraintType, int)>, j: string, p: Planning)
    requires j in p.jobs && forall t :: (t, j) !in p.constraints
    ensures var r := RunAll(ConstraintInserts(cs, j), p);
            && (r.Some? <==> DistinctTypes(cs))
            && (r.Some? ==> r.value == p.(constraints := r.value.constraints)
                            && ConstraintsAdded(p.constraints, cs, j, r.value.constraints))
  {
    if cs != [] {
      var front, last := cs[..|cs| - 1], cs[|cs| - 1];
      assert cs == front + [last];
      RunConstraintInserts(front, j, p);
      RunAllConcat(ConstraintInserts(front, j), [InsertConstraint(j, last.0, last.1)], p);
      if DistinctTypes(front) {
        var q := RunAll(ConstraintInserts(front, j), p).value;
        OneMoreConstraint(p.constraints, front, j, q.constraints, last);
        RunOne(InsertConstraint(j, last.0, last.1), q);
      } else if DistinctTypes(cs) {
        TypesOfFront(cs);
      }
    }
  }

  // ----- what the server reads of a job -----

  function StoredAll(texts: seq<string>): (r: seq<string>)
    ensures |r| == |texts| && forall i | 0 <= i < |r| :: r[i] == Stored(texts[i])
  {
    if texts == [] then [] else StoredAll(texts[..|texts| - 1]) + [Stored(texts[|texts| - 1])]
  }

  ghost predicate AllReadable(texts: seq<string>) {
    forall i | 0 <= i < |texts| :: Literal(texts[i]).Some?
  }

  /** Every text of the job's queries can be read. */
  ghost predicate Readable(t: TJob) {
    && Literal(t.name).Some? && Literal(t.cmdLine).Some? && Literal(t.node).Some?
    && AllReadable(t.prv) && AllReadable(t.nxt)
  }

  /** The job as the server reads it. */
  function AsRead(t: TJob): TJob {
    t.(name := Stored(t.name), cmdLine := Stored(t.cmdLine), node := Stored(t.node),
       prv := StoredAll(t.prv), nxt := StoredAll(t.nxt))
  }

  ghost predicate PairsReadable(ls: seq<(string, string)>) {
    forall i | 0 <= i < |ls| :: Literal(ls[i].0).Some? && Literal(ls[i].1).Some?
  }

  function StoredPairs(ls: seq<(string, string)>): seq<(string, string)> {
    seq(|ls|, i requires 0 <= i < |ls| => (Stored(ls[i].0), Stored(ls[i].1)))
  }

  lemma {:induction false} ReadLinkInserts(ls: seq<(string, string)>)
    ensures ReadAll(LinkInserts(ls)) == if PairsReadable(ls) then Some(LinkInserts(StoredPairs(ls))) else None
  {
    if ls != [] {
      var front, last := ls[..|ls| - 1], ls[|ls| - 1];
      ReadLinkInserts(front);
      ReadAllConcat(LinkInserts(front), [InsertLink(last.0, last.1)]);
      ReadOne(InsertLink(last.0, last.1));
      var stored := StoredPairs(ls);
      assert stored[..|ls| - 1] == StoredPairs(front);
      PairsReadableSnoc(front, last);
      assert ls == front + [last];
    }
  }

  lemma PairsReadableSnoc(front: seq<(string, string)>, last: (string, string))
    ensures PairsReadable(front + [last]) <==>
            PairsReadable(front) && Literal(last.0).Some? && Literal(last.1).Some?
  {
    var ls := front + [last];
    assert ls[|front|] == last;
    assert forall i | 0 <= i < |front| :: ls[i] == front[i];
  }

  lemma {:induction false} ReadConstraintInserts(cs: seq<(ConstraintType, int)>, j: string)
    requires Literal(j).Some?
    ensures ReadAll(ConstraintInserts(cs, j)) == Some(ConstraintInserts(cs, Stored(j)))
  {
    if cs != [] {
      var front, last := cs[..|cs| - 1], cs[|cs| - 1];
      ReadConstraintInserts(front, j);
      ReadAllConcat(ConstraintInserts(front, j), [InsertConstraint(j, last.0, last.1)]);
      ReadOne(InsertConstraint(j, last.0, last.1));
    }
  }

  lemma ReadJobLinks(t: TJob)
    requires Literal(t.name).Some?
    ensures PairsReadable(JobLinks(t)) <==> AllReadable(t.prv) && AllReadable(t.nxt)
    ensures StoredPairs(JobLinks(t)) == JobLinks(AsRead(t))
  {
    ReadPairs(LinksTo(t.prv, t.name), LinksFrom(t.nxt, t.name));
    var a, b := LinksTo(t.prv, t.name), LinksFrom(t.nxt, t.name);
    assert forall i | 0 <= i < |t.prv| :: a[i] == (t.prv[i], t.name);
    assert forall i | 0 <= i < |t.nxt| :: b[i] == (t.name, t.nxt[i]);
    assert StoredPairs(a) == LinksTo(StoredAll(t.prv), Stored(t.name));
    assert StoredPairs(b) == LinksFrom(StoredAll(t.nxt), Stored(t.name));
    assert PairsReadable(a) <==> AllReadable(t.prv);
    assert PairsReadable(b) <==> AllReadable(t.nxt);
  }

  lemma ReadPairs(a: seq<(string, string)>, b: seq<(string, string)>)
    ensures PairsReadable(a + b) <==> PairsReadable(a) && PairsReadable(b)
    ensures StoredPairs(a + b) == StoredPairs(a) + StoredPairs(b)
  {
    var ls := a + b;
    assert forall i | 0 <= i < |a| :: ls[i] == a[i];
    assert forall i | 0 <= i < |b| :: ls[|a| + i] == b[i];
    assert forall i | |a| <= i < |ls| :: ls[i] == b[i - |a|];
  }

  /** The queries of a job are read as the queries of the job as read, or not at all. */
  lemma ReadJobInserts(t: TJob)
    ensures ReadAll(JobInserts(t)) == if Readable(t) then Some(JobInserts(AsRead(t))) else None
  {
    var head, ls := InsertJob(t.name, t.cmdLine, t.node, t.weight), JobLinks(t);
    var rest := ConstraintInserts(t.timeConstraints, t.name);
    assert JobInserts(t) == [head] + LinkInserts(ls) + rest;
    ReadAllConcat([head] + LinkInserts(ls), rest);
    ReadAllConcat([head], LinkInserts(ls));
    ReadOne(head);
    if Literal(t.name).Some? {
      ReadLinkInserts(ls);
      ReadConstraintInserts(t.timeConstraints, t.name);
      ReadJobLinks(t);
    }
  }

  // ----- adding one job -----

  function NewRow(t: TJob): JobRow {
    JobRow(t.cmdLine, t.node, t.weight, Waiting, None, None)
  }

  /** The planning with the job's row alone. */
  function WithRow(p: Planning, t: TJob): Planning {
    p.(jobs := p.jobs[t.name := NewRow(t)])
  }

  /** A name that is new and a command line, neither too long, on a known node; neighbours that are
      known or the job itself and named once each, the job linked to itself at most once, and one
      constraint of each type at most. */
  ghost predicate Insertable(p: Planning, t: TJob) {
    && RowFits(p, t)
    && Distinct(t.prv) && Distinct(t.nxt) && !(t.name in t.prv && t.name in t.nxt)
    && (forall n | n in t.prv || n in t.nxt :: n in p.jobs || n == t.name)
    && DistinctTypes(t.timeConstraints)
  }

  predicate RowFits(p: Planning, t: TJob) {
    t.name !in p.jobs && t.node in p.nodes && |t.name| <= WIDTH && |t.cmdLine| <= WIDTH
  }

  /** The inserts of one job: its row, then its links, then its constraints. */
  lemma AfterRow(p: Planning, t: TJob)
    ensures RunAll(JobInserts(t), p) ==
            if !RowFits(p, t) then None
            else match RunAll(LinkInserts(JobLinks(t)), WithRow(p, t))
                 case None => None
                 case Some(q) => RunAll(ConstraintInserts(t.timeConstraints, t.name), q)
  {
    var head := InsertJob(t.name, t.cmdLine, t.node, t.weight);
    var links, rest := LinkInserts(JobLinks(t)), ConstraintInserts(t.timeConstraints, t.name);
    assert JobInserts(t) == [head] + (links + rest);
    RunAllConcat([head], links + rest, p);
    RunOne(head, p);
    if Run(head, p).Some? {
      RunAllConcat(links, rest, WithRow(p, t));
    }
  }

  lemma DistinctConcat<T(!new)>(a: seq<T>, b: seq<T>)
    ensures Distinct(a + b) <==> Distinct(a) && Distinct(b) && forall l | l in a :: l !in b
  {
    var ls := a + b;
    if Distinct(ls) {
      forall i, k | 0 <= i < k < |a| ensures a[i] != a[k] { assert ls[i] != ls[k]; }
      forall i, k | 0 <= i < k < |b| ensures b[i] != b[k] { assert ls[|a| + i] != ls[|a| + k]; }
      forall i, k | 0 <= i < |a| && 0 <= k < |b| ensures a[i] != b[k] { assert ls[i] != ls[|a| + k]; }
    }
    if Distinct(a) && Distinct(b) && forall l | l in a :: l !in b {
      forall i, k | 0 <= i < k < |ls| ensures ls[i] != ls[k] {
        if k < |a| {
          assert a[i] != a[k];
        } else if i >= |a| {
          assert b[i - |a|] != b[k - |a|];
        } else {
          assert a[i] in a && b[k - |a|] in b;
        }
      }
    }
  }

  lemma LinksNewParts(q: Planning, a: seq<(string, string)>, b: seq<(string, string)>)
    ensures LinksNew(q, a + b) <==> LinksNew(q, a) && LinksNew(q, b) && forall l | l in a :: l !in b
  {
    DistinctConcat(a, b);
    assert forall l :: l in a + b <==> l in a || l in b;
  }

  lemma NeighbourLinks(p: Planning, t: TJob)
    requires Consistent(p) && t.name !in p.jobs
    ensures LinksNew(WithRow(p, t), JobLinks(t)) <==>
            && Distinct(t.prv) && Distinct(t.nxt) && !(t.name in t.prv && t.name in t.nxt)
            && forall n | n in t.prv || n in t.nxt :: n in p.jobs || n == t.name
  {
    var j, a, b := t.name, LinksTo(t.prv, t.name), LinksFrom(t.nxt, t.name);
    LinksNewParts(WithRow(p, t), a, b);
    NewLinksTo(p, t);
    NewLinksFrom(p, t);
    LinksMembers(t.prv, t.nxt, j);
    assert (forall l | l in a :: l !in b) <==> !(j in t.prv && j in t.nxt) by {
      assert (j, j) in a <==> j in t.prv;
    }
  }

  lemma LinksMembers(prv: seq<string>, nxt: seq<string>, j: string)
    ensures forall l :: l in LinksTo(prv, j) <==> l.1 == j && l.0 in prv
    ensures forall l :: l in LinksFrom(nxt, j) <==> l.0 == j && l.1 in nxt
  {
    var a, b := LinksTo(prv, j), LinksFrom(nxt, j);
    forall l: (string, string) | l.1 == j && l.0 in prv ensures l in a {
      var i :| 0 <= i < |prv| && prv[i] == l.0;
      assert a[i] == l;
    }
    forall l: (string, string) | l.0 == j && l.1 in nxt ensures l in b {
      var i :| 0 <= i < |nxt| && nxt[i] == l.1;
      assert b[i] == l;
    }
  }

  lemma NewLinksTo(p: Planning, t: TJob)
    requires Consistent(p) && t.name !in p.jobs
    ensures LinksNew(WithRow(p, t), LinksTo(t.prv, t.name)) <==>
            Distinct(t.prv) && forall n | n in t.prv :: n in p.jobs || n == t.name
  {
    var ls := LinksTo(t.prv, t.name);
    LinksMembers(t.prv, t.nxt, t.name);
    assert forall i | 0 <= i < |t.prv| :: ls[i] == (t.prv[i], t.name);
    if LinksNew(WithRow(p, t), ls) {
      forall i, k | 0 <= i < k < |t.prv| ensures t.prv[i] != t.prv[k] { assert ls[i] != ls[k]; }
      forall n | n in t.prv ensures n in p.jobs || n == t.name { assert (n, t.name) in ls; }
    }
  }

  lemma NewLinksFrom(p: Planning, t: TJob)
    requires Consistent(p) && t.name !in p.jobs
    ensures LinksNew(WithRow(p, t), LinksFrom(t.nxt, t.name)) <==>
            Distinct(t.nxt) && forall n | n in t.nxt :: n in p.jobs || n == t.name
  {
    var ls := LinksFrom(t.nxt, t.name);
    LinksMembers(t.prv, t.nxt, t.name);
    assert forall i | 0 <= i < |t.nxt| :: ls[i] == (t.name, t.nxt[i]);
    if LinksNew(WithRow(p, t), ls) {
      forall i, k | 0 <= i < k < |t.nxt| ensures t.nxt[i] != t.nxt[k] { assert ls[i] != ls[k]; }
      forall n | n in t.nxt ensures n in p.jobs || n == t.name { assert (t.name, n) in ls; }
    }
  }

  /** add_job's transaction goes through exactly when its texts can be read and the job as read is
      insertable; it then adds that job's waiting row, links and constraints and nothing else. */
  lemma AddJobExact(p: Planning, t: TJob)
    requires Consistent(p)
    ensures var r, u := ApplyAll(JobInserts(t), p), AsRead(t);
            && (r.Some? <==> Readable(t) && Insertable(p, u))
            && (r.Some? ==>
                  && r.value.nodes == p.nodes
                  && r.value.jobs == p.jobs[Stored(t.name) :=
                       JobRow(Stored(t.cmdLine), Stored(t.node), t.weight, Waiting, None, None)]
                  && (forall l :: l in r.value.links <==>
                        || l in p.links
                        || (l.1 == u.name && l.0 in u.prv)
                        || (l.0 == u.name && l.1 in u.nxt))
                  && ConstraintsAdded(p.constraints, t.timeConstraints, Stored(t.name), r.value.constraints))
  {
    ApplyAllReads(JobInserts(t), p);
    ReadJobInserts(t);
    RunJobExact(p, AsRead(t));
    LinksMembers(AsRead(t).prv, AsRead(t).nxt, AsRead(t).name);
  }

  lemma RunJobExact(p: Planning, u: TJob)
    requires Consistent(p)
    ensures var r := RunAll(JobInserts(u), p);
            && (r.Some? <==> Insertable(p, u))
            && (r.Some? ==>
                  && r.value.nodes == p.nodes
                  && r.value.jobs == p.jobs[u.name := NewRow(u)]
                  && r.value.links == p.links + LinkSet(JobLinks(u))
                  && ConstraintsAdded(p.constraints, u.timeConstraints, u.name, r.value.constraints))
  {
    AfterRow(p, u);
    if RowFits(p, u) {
      var q := WithRow(p, u);
      NeighbourLinks(p, u);
      RunLinkInserts(JobLinks(u), q);
      if LinksNew(q, JobLinks(u)) {
        RunConstraintInserts(u.timeConstraints, u.name, q.(links := q.links + LinkSet(JobLinks(u))));
      }
    }
  }

  // ----- the copy -----

  function FreshRow(row: JobRow): JobRow {
    JobRow(Stored(row.cmdLine), row.node, Wrap16(row.weight), Waiting, None, None)
  }

  /** The new planning once the nodes dn and the jobs dj of the template are written. */
  ghost function Partial(p: Planning, dn: set<string>, dj: set<string>): Planning {
    Planning(
      map n | n in p.nodes && n in dn :: p.nodes[n],
      map j | j in p.jobs && j in dj :: FreshRow(p.jobs[j]),
      set l | l in p.links && l.0 in dj,
      map k | k in p.constraints && k.1 in dj :: CastOrZero(p.constraints[k]))
  }

  const EMPTY_PLANNING := Planning(map[], map[], {}, map[])

  /** The complete copy. */
  ghost function Image(p: Planning): Planning {
    Partial(p, p.nodes.Keys, p.jobs.Keys)
  }

  /** Same nodes, jobs, links and time constraints; every job waiting and unstarted. */
  ghost predicate FaithfulCopy(p: Planning, q: Planning) {
    && q.nodes == p.nodes && q.links == p.links && q.constraints == p.constraints
    && q.jobs.Keys == p.jobs.Keys
    && forall j | j in p.jobs ::
         q.jobs[j] == JobRow(p.jobs[j].cmdLine, p.jobs[j].node, p.jobs[j].weight, Waiting, None, None)
  }

  /** Job weights and constraint times survive the 16-bit fields. */
  ghost predicate NumbersFit(p: Planning) {
    && (forall j | j in p.jobs :: Fits16(p.jobs[j].weight))
    && (forall k | k in p.constraints :: Fits16(p.constraints[k]))
  }

  lemma SameStored(s: string)
    ensures Stored(s) == s <==> Survives(s)
    ensures |Stored(s)| <= |s|
  {
    if Literal(s).Some? {
      LiteralShrinks(s);
    } else {
      assert s != "";
    }
  }

  /** A complete copy is faithful exactly when the template's numbers fit 16 bits and its command
      lines survive as literals. */
  lemma ImageFaithful(p: Planning)
    requires Consistent(p)
    ensures Consistent(Image(p))
    ensures FaithfulCopy(p, Image(p)) <==> NumbersFit(p) && CommandsSurvive(p)
  {
    var q := Image(p);
    assert q.nodes == p.nodes && q.links == p.links && q.jobs.Keys == p.jobs.Keys;
    assert q.constraints.Keys == p.constraints.Keys;
    forall j | j in p.jobs
      ensures |q.jobs[j].cmdLine| <= WIDTH && (q.jobs[j].cmdLine == p.jobs[j].cmdLine <==> Survives(p.jobs[j].cmdLine))
    {
      SameStored(p.jobs[j].cmdLine);
    }
    if FaithfulCopy(p, q) {
      forall j | j in p.jobs ensures Fits16(p.jobs[j].weight) && Survives(p.jobs[j].cmdLine) {
        assert q.jobs[j].weight == Wrap16(p.jobs[j].weight);
        assert q.jobs[j].cmdLine == p.jobs[j].cmdLine;
      }
      forall k | k in p.constraints ensures Fits16(p.constraints[k]) {
        assert q.constraints[k] == CastOrZero(p.constraints[k]);
      }
    }
  }

  /** What a complete copy holds, column by column: nodes and links as they are; the command line as the
      server reads it; the weight wrapped to 16 bits; and zero for a time that does not fit them. */
  ghost predicate CopiedFields(p: Planning, q: Planning) {
    && q.nodes == p.nodes && q.links == p.links
    && q.jobs.Keys == p.jobs.Keys && q.constraints.Keys == p.constraints.Keys
    && (forall j | j in p.jobs ::
          && Literal(p.jobs[j].cmdLine) == Some(q.jobs[j].cmdLine) && q.jobs[j].node == p.jobs[j].node
          && -32768 <= q.jobs[j].weight <= 32767 && (q.jobs[j].weight - p.jobs[j].weight) % 65536 == 0
          && q.jobs[j].state == Waiting && q.jobs[j].startTime == None && q.jobs[j].stopTime == None)
    && (forall k | k in p.constraints ::
          q.constraints[k] == if -32768 <= p.constraints[k] <= 32767 then p.constraints[k] else 0)
  }

  lemma FreshFields(row: JobRow)
    requires Literal(row.cmdLine).Some?
    ensures var r := FreshRow(row);
            && Literal(row.cmdLine) == Some(r.cmdLine) && r.node == row.node
            && -32768 <= r.weight <= 32767 && (r.weight - row.weight) % 65536 == 0
            && r.state == Waiting && r.startTime == None && r.stopTime == None
  {
    WrapsAround(row.weight);
  }

  lemma ImageParts(p: Planning)
    requires Consistent(p)
    ensures var q := Image(p);
            && q.nodes == p.nodes && q.links == p.links
            && q.jobs == (map j | j in p.jobs :: FreshRow(p.jobs[j]))
            && q.constraints == (map k | k in p.constraints :: CastOrZero(p.constraints[k]))
  {
  }

  lemma ImageFields(p: Planning)
    requires Consistent(p) && forall j | j in p.jobs :: Literal(p.jobs[j].cmdLine).Some?
    ensures CopiedFields(p, Image(p))
  {
    ImageParts(p);
    forall j | j in p.jobs {
      FreshFields(p.jobs[j]);
    }
  }

  /** A job held for a time after 09:06:07 is held for midnight in the copy. */
  lemma LateTimes(p: Planning, j: string, minute: int)
    requires (At, j) in p.constraints && p.constraints[(At, j)] >= 32768 && j in p.jobs
    ensures (At, j) in Image(p).constraints && Image(p).constraints[(At, j)] == 0
    ensures Matches(At, Image(p).constraints[(At, j)], minute) <==> minute == 0
  {
  }

  ghost predicate LinksWithin(p: Planning, j: string, dj: set<string>) {
    forall l | l in p.links && l.0 == j :: l.1 in dj
  }

  /** Of a job read from a template whose names survive, only the command line may be read back
      differently. */
  lemma ReadBack(p: Planning, domain: string, t: TJob)
    requires Consistent(p) && NamesSurvive(p) && ReadsJob(p, domain, t)
    ensures Readable(t) <==> Literal(t.cmdLine).Some?
    ensures AsRead(t) == t.(cmdLine := Stored(t.cmdLine))
  {
    forall i | 0 <= i < |t.nxt| ensures Survives(t.nxt[i]) {
      assert t.nxt[i] in Successors(p, t.name);
    }
    assert StoredAll(t.prv) == t.prv && StoredAll(t.nxt) == t.nxt;
  }

  /** One add_job of the copy goes through exactly when the command line can be read and every
      successor of the job is already in the new planning (or is the job itself); it then adds
      precisely that job's part. */
  lemma CopyJob(p: Planning, domain: string, dn: set<string>, dj: set<string>, t: TJob)
    requires Consistent(p) && NamesSurvive(p) && ReadsJob(p, domain, t)
    requires dj <= p.jobs.Keys && t.name !in dj && t.node in dn
    ensures ApplyAll(JobInserts(t), Partial(p, dn, dj)) ==
            if Literal(t.cmdLine).Some? && LinksWithin(p, t.name, dj + {t.name})
            then Some(Partial(p, dn, dj + {t.name})) else None
  {
    ApplyAllReads(JobInserts(t), Partial(p, dn, dj));
    ReadJobInserts(t);
    ReadBack(p, domain, t);
    if Literal(t.cmdLine).Some? {
      RunCopiedJob(p, domain, dn, dj, t);
    }
  }

  lemma RunCopiedJob(p: Planning, domain: string, dn: set<string>, dj: set<string>, t: TJob)
    requires Consistent(p) && NamesSurvive(p) && ReadsJob(p, domain, t) && Literal(t.cmdLine).Some?
    requires dj <= p.jobs.Keys && t.name !in dj && t.node in dn
    ensures RunAll(JobInserts(t.(cmdLine := Stored(t.cmdLine))), Partial(p, dn, dj)) ==
            if LinksWithin(p, t.name, dj + {t.name}) then Some(Partial(p, dn, dj + {t.name})) else None
  {
    var p0, u := Partial(p, dn, dj), t.(cmdLine := Stored(t.cmdLine));
    LiteralShrinks(t.cmdLine);
    AfterRow(p0, u);
    var ls := LinksFrom(u.nxt, u.name);
    assert JobLinks(u) == ls;
    RunLinkInserts(ls, WithRow(p0, u));
    CopiedLinksNew(p, domain, dn, dj, t);
    if LinksWithin(p, t.name, dj + {t.name}) {
      CopiedParts(p, domain, dn, dj, t);
    }
  }

  /** The new planning with the row of the job as it is stored. */
  ghost function WithCopiedRow(p: Planning, dn: set<string>, dj: set<string>, t: TJob): Planning {
    WithRow(Partial(p, dn, dj), t.(cmdLine := Stored(t.cmdLine)))
  }

  /** Links from j to listed successors, none of them there yet. */
  lemma LinksFromNew(q: Planning, nxt: seq<string>, j: string)
    requires Distinct(nxt) && j in q.jobs && forall n | n in nxt :: (j, n) !in q.links
    ensures LinksNew(q, LinksFrom(nxt, j)) <==> forall n | n in nxt :: n in q.jobs
  {
    var ls := LinksFrom(nxt, j);
    assert forall i | 0 <= i < |nxt| :: ls[i] == (j, nxt[i]);
    if LinksNew(q, ls) {
      forall n | n in nxt ensures n in q.jobs {
        var i :| 0 <= i < |nxt| && nxt[i] == n;
        assert ls[i] in ls;
      }
    }
  }

  lemma CopiedLinksNew(p: Planning, domain: string, dn: set<string>, dj: set<string>, t: TJob)
    requires Consistent(p) && NamesSurvive(p) && ReadsJob(p, domain, t) && dj <= p.jobs.Keys && t.name !in dj
    ensures LinksNew(WithCopiedRow(p, dn, dj, t), LinksFrom(t.nxt, t.name)) <==> LinksWithin(p, t.name, dj + {t.name})
  {
    var q := WithCopiedRow(p, dn, dj, t);
    assert q.jobs.Keys == dj + {t.name} && forall l | l in q.links :: l.0 != t.name;
    assert Lists(t.nxt, Successors(p, t.name));
    SuccessorsListed(p, t.name, t.nxt, dj + {t.name});
    LinksFromNew(q, t.nxt, t.name);
  }

  lemma CopiedParts(p: Planning, domain: string, dn: set<string>, dj: set<string>, t: TJob)
    requires Consistent(p) && NamesSurvive(p) && ReadsJob(p, domain, t)
    requires dj <= p.jobs.Keys && t.name !in dj
    ensures var p1 := WithCopiedRow(p, dn, dj, t);
            var p2 := p1.(links := p1.links + LinkSet(LinksFrom(t.nxt, t.name)));
            RunAll(ConstraintInserts(t.timeConstraints, t.name), p2) == Some(Partial(p, dn, dj + {t.name}))
  {
    var j, p1 := t.name, WithCopiedRow(p, dn, dj, t);
    var p2 := p1.(links := p1.links + LinkSet(LinksFrom(t.nxt, j)));
    RunConstraintInserts(t.timeConstraints, j, p2);
    var p3 := RunAll(ConstraintInserts(t.timeConstraints, j), p2).value;
    LinksCopied(p, dj, j, t.nxt);
    JobsCopied(p, dj, j);
    ConstraintsListed(p, domain, t, dj, p2.constraints, p3.constraints);
  }

  lemma LinksCopied(p: Planning, dj: set<string>, j: string, nxt: seq<string>)
    requires Lists(nxt, Successors(p, j))
    ensures (set l | l in p.links && l.0 in dj) + LinkSet(LinksFrom(nxt, j)) == set l | l in p.links && l.0 in dj + {j}
  {
    SuccessorsListed(p, j, nxt, dj);
    LinkSetFrom(nxt, j);
    forall l
      ensures l in (set l | l in p.links && l.0 in dj) + LinkSet(LinksFrom(nxt, j)) <==> l in p.links && l.0 in dj + {j}
    {
      assert l == (l.0, l.1);
    }
  }

  lemma LinkSetFrom(nxt: seq<string>, j: string)
    ensures forall l :: l in LinkSet(LinksFrom(nxt, j)) <==> l.0 == j && l.1 in nxt
  {
    var ls := LinksFrom(nxt, j);
    forall l: (string, string) | l.0 == j && l.1 in nxt ensures l in ls {
      var i :| 0 <= i < |nxt| && nxt[i] == l.1;
      assert ls[i] == l;
    }
  }

  lemma JobsCopied(p: Planning, dj: set<string>, j: string)
    requires j in p.jobs
    ensures (map i | i in p.jobs && i in dj :: FreshRow(p.jobs[i]))[j := FreshRow(p.jobs[j])]
         == map i | i in p.jobs && i in dj + {j} :: FreshRow(p.jobs[i])
  {
  }

  lemma SuccessorsListed(p: Planning, j: string, nxt: seq<string>, dj: set<string>)
    requires Lists(nxt, Successors(p, j))
    ensures forall n :: n in nxt <==> (j, n) in p.links
    ensures LinksWithin(p, j, dj) <==> forall n | n in nxt :: n in dj
  {
  }

  lemma ConstraintsListed(p: Planning, domain: string, t: TJob, dj: set<string>,
                          before: map<(ConstraintType, string), int>, after: map<(ConstraintType, string), int>)
    requires ReadsJob(p, domain, t) && Survives(t.name) && t.name !in dj
    requires before == map k | k in p.constraints && k.1 in dj :: CastOrZero(p.constraints[k])
    requires ConstraintsAdded(before, t.timeConstraints, t.name, after)
    ensures after == map k | k in p.constraints && k.1 in dj + {t.name} :: CastOrZero(p.constraints[k])
  {
    var j := t.name;
    var goal := map k | k in p.constraints && k.1 in dj + {j} :: CastOrZero(p.constraints[k]);
    forall k ensures k in after <==> k in goal {
      if k in goal && k.1 == j {
        var c := (k.0, CastOrZero(p.constraints[k]));
        assert c in ConstraintsOf(p, j);
        assert c in t.timeConstraints && c.0 == k.0;
      }
      if k in after && k !in before {
        var c :| c in t.timeConstraints && c.0 == k.0;
        assert c in ConstraintsOf(p, j);
        assert k == (c.0, j);
      }
    }
    forall k | k in goal ensures after[k] == goal[k] {
      if k.1 == j {
        var c := (k.0, CastOrZero(p.constraints[k]));
        assert c in ConstraintsOf(p, j);
        assert c in t.timeConstraints && k == (c.0, j);
      }
    }
  }
}
