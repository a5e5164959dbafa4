/** The SQL statements the scheduler writes, and the transaction that runs them
    (src/database.cpp). Connections are assumed to open whenever the schema exists. */
module Database {
  import opened Tables
  import opened Literals

  datatype Exception = ExProcessing | ExNode | ExJob | BadCast

  datatype Outcome = Returned(ok: bool) | Thrown(exception: Exception)

  datatype Statement =
    | InsertIgnoreNode(node: string, weight: int)
    | InsertJob(name: string, cmdLine: string, node: string, weight: int)
    | InsertLink(prv: string, nxt: string)
    | InsertConstraint(job: string, ctype: ConstraintType, value: int)
    | UpdateState(job: string, state: JobState)
    | UpdateResult(job: string, state: JobState, start: int, stop: int)
    | DeleteJob(job: string)
    | DeleteLinks(job: string)
    | DeleteConstraints(job: string)

  /** The statement the server reads in the text of a query; None for a text it cannot read. A
      text that a quote ends early counts as unreadable. */
  function Read(q: Statement): Option<Statement> {
    match q
    case InsertIgnoreNode(n, w) =>
      if Literal(n).None? then None else Some(InsertIgnoreNode(Stored(n), w))
    case InsertJob(j, c, n, w) =>
      if Literal(j).None? || Literal(c).None? || Literal(n).None? then None
      else Some(InsertJob(Stored(j), Stored(c), Stored(n), w))
    case InsertLink(a, b) =>
      if Literal(a).None? || Literal(b).None? then None else Some(InsertLink(Stored(a), Stored(b)))
    case InsertConstraint(j, t, v) =>
      if Literal(j).None? then None else Some(InsertConstraint(Stored(j), t, v))
    case UpdateState(j, st) => if Literal(j).None? then None else Some(UpdateState(Stored(j), st))
    case UpdateResult(j, st, a, b) => if Literal(j).None? then None else Some(UpdateResult(Stored(j), st, a, b))
    case DeleteJob(j) => if Literal(j).None? then None else Some(DeleteJob(Stored(j)))
    case DeleteLinks(j) => if Literal(j).None? then None else Some(DeleteLinks(Stored(j)))
    case DeleteConstraints(j) => if Literal(j).None? then None else Some(DeleteConstraints(Stored(j)))
  }

  /** INSERT IGNORE cuts a text that is too long for its column. */
  function Cut(s: string): string {
    if |s| <= WIDTH then s else s[..WIDTH]
  }

  /** One statement against the tables, in strict mode; None when a key or a width refuses it. */
  function Run(q: Statement, p: Planning): Option<Planning> {
    match q
    case InsertIgnoreNode(n, w) =>
      Some(if Cut(n) in p.nodes then p else p.(nodes := p.nodes[Cut(n) := w]))
    case InsertJob(j, c, n, w) =>
      if j in p.jobs || n !in p.nodes || |j| > WIDTH || |c| > WIDTH then None
      else Some(p.(jobs := p.jobs[j := JobRow(c, n, w, Waiting, None, None)]))
    case InsertLink(a, b) =>
      if (a, b) in p.links || a !in p.jobs || b !in p.jobs then None
      else Some(p.(links := p.links + {(a, b)}))
    case InsertConstraint(j, t, v) =>
      if (t, j) in p.constraints || j !in p.jobs then None
      else Some(p.(constraints := p.constraints[(t, j) := v]))
    case UpdateState(j, st) => Some(WithState(p, j, st))
    case UpdateResult(j, st, a, b) => Some(WithResult(p, j, st, a, b))
    case DeleteJob(j) =>
      if j in p.jobs && Referenced(p, j) then None else Some(p.(jobs := p.jobs - {j}))
    case DeleteLinks(j) =>
      Some(p.(links := set l | l in p.links && l.0 != j && l.1 != j))
    case DeleteConstraints(j) =>
      Some(p.(constraints := map k | k in p.constraints && k.1 != j :: p.constraints[k]))
  }

  /** One query: it is read, then run. */
  function Apply(q: Statement, p: Planning): Option<Planning> {
    match Read(q)
    case None => None
    case Some(r) => Run(r, p)
  }

  predicate Referenced(p: Planning, j: string) {
    || (exists l | l in p.links :: l.0 == j || l.1 == j)
    || (exists k | k in p.constraints :: k.1 == j)
  }

  /** The queries in order; None as soon as one is refused. */
  function ApplyAll(queries: seq<Statement>, p: Planning): Option<Planning> {
    if queries == [] then Some(p)
    else match Apply(queries[0], p)
         case None => None
         case Some(p') => ApplyAll(queries[1..], p')
  }

  /** The statements in order, once they are read. */
  function RunAll(statements: seq<Statement>, p: Planning): Option<Planning> {
    if statements == [] then Some(p)
    else match Run(statements[0], p)
         case None => None
         case Some(p') => RunAll(statements[1..], p')
  }

  function ReadAll(queries: seq<Statement>): Option<seq<Statement>> {
    if queries == [] then Some([])
    else
      var first, rest := Read(queries[0]), ReadAll(queries[1..]);
      if first.None? || rest.None? then None else Some([first.value] + rest.value)
  }

  /** A transaction goes through exactly when all its queries can be read and then run. */
  lemma {:induction false} ApplyAllReads(queries: seq<Statement>, p: Planning)
    ensures ApplyAll(queries, p) == if ReadAll(queries).None? then None else RunAll(ReadAll(queries).value, p)
    decreases queries
  {
    if queries != [] {
      var first := Read(queries[0]);
      if first.Some? {
        if ReadAll(queries[1..]).Some? {
          assert ([first.value] + ReadAll(queries[1..]).value)[1..] == ReadAll(queries[1..]).value;
        }
        if Run(first.value, p).Some? {
          ApplyAllReads(queries[1..], Run(first.value, p).value);
        }
      }
    }
  }

  lemma {:induction false} ReadAllConcat(a: seq<Statement>, b: seq<Statement>)
    ensures ReadAll(a + b) == if ReadAll(a).None? || ReadAll(b).None? then None
                              else Some(ReadAll(a).value + ReadAll(b).value)
  {
    if a == [] {
      assert a + b == b;
      if ReadAll(b).Some? {
        assert [] + ReadAll(b).value == ReadAll(b).value;
      }
    } else {
      assert (a + b)[1..] == a[1..] + b;
      ReadAllConcat(a[1..], b);
      if ReadAll(a).Some? && ReadAll(b).Some? {
        var x, y, z := [Read(a[0]).value], ReadAll(a[1..]).value, ReadAll(b).value;
        assert x + (y + z) == (x + y) + z;
      }
    }
  }

  lemma ReadOne(q: Statement)
    ensures ReadAll([q]) == if Read(q).None? then None else Some([Read(q).value])
  {
    assert [q][1..] == [];
    if Read(q).Some? {
      assert [Read(q).value] + [] == [Read(q).value];
    }
  }

  lemma ApplyOne(q: Statement, p: Planning)
    ensures ApplyAll([q], p) == Apply(q, p)
  {
    assert [q][1..] == [];
  }

  lemma RunOne(q: Statement, p: Planning)
    ensures RunAll([q], p) == Run(q, p)
  {
    assert [q][1..] == [];
  }

  lemma {:induction false} RunAllConcat(a: seq<Statement>, b: seq<Statement>, p: Planning)
    ensures RunAll(a + b, p) == match RunAll(a, p) case None => None case Some(p') => RunAll(b, p')
  {
    if a == [] {
      assert a + b == b;
    } else {
      assert (a + b)[1..] == a[1..] + b;
      match Run(a[0], p)
      case None =>
      case Some(p') => RunAllConcat(a[1..], b, p');
    }
  }

  /** INSERT IGNORE cuts a name at 45 characters and leaves a node that is there as it is. */
  lemma NodeInserts(n: string, w: int, p: Planning)
    requires Survives(n)
    ensures var found := if |n| <= 45 then n else n[..45];
            Apply(InsertIgnoreNode(n, w), p) ==
            Some(Planning(if found in p.nodes then p.nodes else p.nodes[found := w], p.jobs, p.links, p.constraints))
  {
  }

  /** A job's row is refused for a known name, an unknown node, or a text of more than 45 characters. */
  lemma JobInserted(j: string, c: string, n: string, w: int, p: Planning)
    requires Survives(j) && Survives(c) && Survives(n)
    ensures Apply(InsertJob(j, c, n, w), p).Some? <==> j !in p.jobs && n in p.nodes && |j| <= 45 && |c| <= 45
  {
  }

  /** The two clean-up statements of remove_job leave nothing that refers to the job, and all the rest. */
  lemma References(j: string, p: Planning)
    requires Survives(j)
    ensures var links := Apply(DeleteLinks(j), p); var times := Apply(DeleteConstraints(j), p);
            && links.Some? && times.Some?
            && (forall l :: l in links.value.links <==> l in p.links && j != l.0 && j != l.1)
            && (forall k :: k in times.value.constraints <==> k in p.constraints && j != k.1)
            && (forall k | k in times.value.constraints :: times.value.constraints[k] == p.constraints[k])
            && links.value.jobs == times.value.jobs == p.jobs
    ensures Referenced(p, j) <==>
            !(forall l | l in p.links :: l.0 != j && l.1 != j) || !(forall k | k in p.constraints :: k.1 != j)
  {
  }

  lemma InsertKeepsConsistent(q: Statement, p: Planning)
    requires q.InsertIgnoreNode? || q.InsertJob? || q.InsertLink? || q.InsertConstraint?
    requires Consistent(p) && Run(q, p).Some?
    ensures Consistent(Run(q, p).value)
  {
  }

  lemma UpdateKeepsConsistent(q: Statement, p: Planning)
    requires q.UpdateState? || q.UpdateResult?
    requires Consistent(p) && Run(q, p).Some?
    ensures Consistent(Run(q, p).value)
  {
  }

  lemma DeleteKeepsConsistent(q: Statement, p: Planning)
    requires q.DeleteJob? || q.DeleteLinks? || q.DeleteConstraints?
    requires Consistent(p) && Run(q, p).Some?
    ensures Consistent(Run(q, p).value)
  {
  }

  /** Widths and foreign keys hold again after every accepted statement. */
  lemma ApplyKeepsConsistent(q: Statement, p: Planning)
    requires Consistent(p) && Apply(q, p).Some?
    ensures Consistent(Apply(q, p).value)
  {
    var r := Read(q).value;
    match r
    case InsertIgnoreNode(_, _) => InsertKeepsConsistent(r, p);
    case InsertJob(_, _, _, _) => InsertKeepsConsistent(r, p);
    case InsertLink(_, _) => InsertKeepsConsistent(r, p);
    case InsertConstraint(_, _, _) => InsertKeepsConsistent(r, p);
    case UpdateState(_, _) => UpdateKeepsConsistent(r, p);
    case UpdateResult(_, _, _, _) => UpdateKeepsConsistent(r, p);
    case _ => DeleteKeepsConsistent(r, p);
  }

  lemma {:induction false} ApplyAllKeepsConsistent(queries: seq<Statement>, p: Planning)
    requires Consistent(p) && ApplyAll(queries, p).Some?
    ensures Consistent(ApplyAll(queries, p).value)
  {
    if queries != [] {
      ApplyKeepsConsistent(queries[0], p);
      ApplyAllKeepsConsistent(queries[1..], Apply(queries[0], p).value);
    }
  }

  /** Every schema with tables keeps its widths and foreign keys. */
  ghost predicate AllConsistent(schemas: map<string, Schema>) {
    forall n | n in schemas && schemas[n].HasTables? :: Consistent(schemas[n].plan)
  }

  predicate Usable(schemas: map<string, Schema>, name: string) {
    name in schemas && schemas[name].HasTables?
  }

  class Mysql {
    var schemas: map<string, Schema>

    constructor ()
      ensures schemas == map[]
    {
      schemas := map[];
    }

    /** All or nothing: a refused statement throws, and its connection is closed uncommitted. */
    method StandaloneExecute(queries: seq<Statement>, name: string) returns (r: Outcome)
      modifies this
      ensures r == Returned(true) || r == Thrown(ExProcessing)
      ensures r == Returned(true) <==>
              Usable(old(schemas), name) && ApplyAll(queries, old(schemas)[name].plan).Some?
      ensures r == Returned(true) ==>
                schemas == old(schemas)[name := HasTables(ApplyAll(queries, old(schemas)[name].plan).value)]
      ensures r.Thrown? ==> schemas == old(schemas)
      ensures AllConsistent(old(schemas)) ==> AllConsistent(schemas)
    {
      if !Usable(schemas, name) {
        return Thrown(ExProcessing);
      }
      if ApplyAll(queries, schemas[name].plan).Some? && AllConsistent(schemas) {
        ApplyAllKeepsConsistent(queries, schemas[name].plan);
      }
      var work := schemas[name].plan;
      var i := 0;
      while i < |queries|
        invariant 0 <= i <= |queries|
        invariant ApplyAll(queries, schemas[name].plan) == ApplyAll(queries[i..], work)
      {
        match Apply(queries[i], work) {
          case None => return Thrown(ExProcessing);
          case Some(next) => work := next;
        }
        i := i + 1;
      }
      schemas := schemas[name := HasTables(work)];
      return Returned(true);
    }
  }
}
