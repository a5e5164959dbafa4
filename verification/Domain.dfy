/** The domain object and its database (src/domain.cpp, src/database.cpp:71-109). */
module DomainModel {
  import opened Tables
  import opened Literals
  import opened Database
  import opened Graph
  import opened TemplateCopy
  import opened CopyOrder
  import opened OrderFree
  import Clock
  import Decimal

  /** What load_file makes of the skeleton script. A refused statement leaves what the statements before
      it have created, which may be the whole schema. */
  datatype Skeleton = Loads | Unreadable | Rejected(whole: bool)

  function PlanningName(domain: string, start: int): (r: string)
    ensures r != domain && |r| > |domain|
  {
    domain + "_" + Decimal.PrintInt(start)
  }

  /** Plannings of distinct start times have distinct names, none of them the template's. */
  lemma PlanningNamesDistinct(domain: string, a: int, b: int)
    ensures PlanningName(domain, a) == PlanningName(domain, b) <==> a == b
  {
    if PlanningName(domain, a) == PlanningName(domain, b) {
      assert PlanningName(domain, a)[|domain| + 1..] == Decimal.PrintInt(a);
      assert PlanningName(domain, b)[|domain| + 1..] == Decimal.PrintInt(b);
      Decimal.PrintIntInjective(a, b);
    }
  }

  // ----- schema names -----

  /** A character of an unquoted identifier. */
  predicate IdentifierChar(c: char) {
    Decimal.IsDigit(c) || 'a' <= c <= 'z' || 'A' <= c <= 'Z' || c == '_' || c == '$' || c >= 128 as char
  }

  function SkipDigits(s: string): (r: string)
    ensures |r| <= |s|
  {
    if s != "" && Decimal.IsDigit(s[0]) then SkipDigits(s[1..]) else s
  }

  /** The text begins like a number with an exponent: digits, an 'e', a digit. */
  predicate BeginsAsNumber(s: string) {
    var rest := SkipDigits(s);
    |rest| < |s| && |rest| >= 2 && (rest[0] == 'e' || rest[0] == 'E') && Decimal.IsDigit(rest[1])
  }

  /** CREATE SCHEMA accepts the name as it stands, without quotes around it. */
  predicate Identifier(s: string) {
    && 0 < |s| <= 64 && SkipDigits(s) != "" && !BeginsAsNumber(s)
    && forall i | 0 <= i < |s| :: IdentifierChar(s[i])
  }

  lemma IdentifierSurvives(s: string)
    requires Identifier(s)
    ensures Survives(s) && '\\' !in s
  {
    forall i | 0 <= i < |s| ensures s[i] != '\'' && s[i] != '\\' {
      assert IdentifierChar(s[i]);
    }
    ReadsThrough(s, "");
    assert s + "" == s;
  }

  /** The LIKE operator: '_' stands for any character, '%' for any text, and a backslash takes the
      special meaning from the character after it. */
  predicate Like(pattern: string, s: string)
    decreases |pattern| + |s|
  {
    if pattern == "" then s == ""
    else if pattern[0] == '%' then Like(pattern[1..], s) || (s != "" && Like(pattern, s[1..]))
    else if pattern[0] == '\\' && |pattern| > 1 then s != "" && pattern[1] == s[0] && Like(pattern[2..], s[1..])
    else s != "" && (pattern[0] == '_' || pattern[0] == s[0]) && Like(pattern[1..], s[1..])
  }

  lemma {:induction false} LikeSelf(s: string)
    requires '\\' !in s
    ensures Like(s, s)
    decreases s
  {
    if s != "" {
      LikeSelf(s[1..]);
      if s[0] == '%' {
        LikeAfterPercent(s[1..], s);
      }
    }
  }

  /** A '%' may swallow one character more. */
  lemma LikeAfterPercent(rest: string, s: string)
    requires |s| > 0 && s[0] == '%' && s[1..] == rest && Like(rest, rest)
    ensures Like(s, s)
  {
  }

  /** Without '%' and backslash a pattern matches exactly the texts of its length that agree with it wherever
      it has no underscore. */
  lemma {:induction false} LikeExactly(pattern: string, s: string)
    requires '%' !in pattern && '\\' !in pattern
    ensures Like(pattern, s) <==>
            |pattern| == |s| && forall i | 0 <= i < |s| :: pattern[i] == '_' || pattern[i] == s[i]
    decreases pattern
  {
    if pattern == "" {
    } else if s != "" {
      LikeExactly(pattern[1..], s[1..]);
      assert forall i | 1 <= i < |pattern| :: pattern[i] == pattern[1..][i - 1];
      assert forall i | 1 <= i < |s| :: s[i] == s[1..][i - 1];
      if |pattern| == |s| && forall i | 0 <= i < |s| :: pattern[i] == '_' || pattern[i] == s[i] {
        forall i | 0 <= i < |s[1..]| ensures pattern[1..][i] == '_' || pattern[1..][i] == s[1..][i] {
          assert pattern[i + 1] == pattern[1..][i];
        }
      }
    }
  }

  /** A '%' at the end matches any ending, and an escaped wildcard only itself. */
  lemma {:induction false} LikeSpecials(front: string, back: string)
    requires '%' !in front && '\\' !in front
    ensures Like(front + "%", front + back)
    ensures Like("\\_", back) <==> back == "_"
    ensures Like("\\%", back) <==> back == "%"
  {
    if front == "" {
      assert front + "%" == "%" && front + back == back;
      LikeAnything(back);
    } else {
      LikeSpecials(front[1..], back);
      assert (front + "%")[1..] == front[1..] + "%" && (front + back)[1..] == front[1..] + back;
    }
    assert "\\_"[2..] == "" && "\\%"[2..] == "";
  }

  lemma {:induction false} LikeAnything(s: string)
    ensures Like("%", s)
    decreases s
  {
    assert "%"[1..] == "";
    if s != "" {
      LikeAnything(s[1..]);
    }
  }

  /** Some schema is LIKE the pattern the server reads for the name. */
  predicate LikeClash(schemas: map<string, Schema>, name: string) {
    exists s | s in schemas :: Like(Stored(name), s)
  }

  /** init_domain_structure: any schema LIKE the name counts as the schema itself. */
  function InitWrite(schemas: map<string, Schema>, name: string, skeleton: Skeleton): Write {
    if Literal(name).None? then Write(schemas, Thrown(ExProcessing))
    else if LikeClash(schemas, name) then Write(schemas, Returned(true))
    else if !Identifier(name) then Write(schemas, Thrown(ExProcessing))
    else match skeleton
         case Loads => Write(schemas[name := HasTables(EMPTY_PLANNING)], Returned(true))
         case Unreadable => Write(schemas[name := NoTables], Returned(false))
         case Rejected(whole) =>
           Write(schemas[name := if whole then HasTables(EMPTY_PLANNING) else NoTables], Thrown(ExProcessing))
  }

  // ----- preparing a planning -----

  ghost predicate WeightsFit(p: Planning) {
    forall n | n in p.nodes :: Fits16(p.nodes[n])
  }

  /** With names that survive, reading the template fails only for a node weight outside 16 bits. */
  lemma ReadableNames(p: Planning)
    requires NamesSurvive(p)
    ensures TemplateReadable(p) <==> WeightsFit(p)
  {
    forall n | n in p.nodes ensures NodeReadable(p, n) <==> Fits16(p.nodes[n]) {}
  }

  /** How the second look-up of a node ends. */
  ghost function NodeOutcome(p: Planning, raw: string): (r: Outcome)
    ensures r == Returned(true) <==> NodeReadable(p, raw)
  {
    if Literal(raw).None? then Thrown(ExJob)
    else if Stored(raw) !in p.nodes then Returned(true)
    else if !Fits16(p.nodes[Stored(raw)]) then Thrown(BadCast)
    else if JobsReadable(p, Stored(raw)) then Returned(true) else Thrown(ExJob)
  }

  /** What reading the template p and adding its nodes to next can do; order lists the template's jobs
      as the copy inserts them. */
  ghost predicate Copied(before: map<string, Schema>, p: Planning, next: string, duration: int,
                         order: seq<string>, w: Write) {
    if !TemplateReadable(p) then
      && w.schemas == before
      && ((w.outcome == Thrown(BadCast) && !WeightsFit(p)) || (w.outcome == Thrown(ExJob) && !NamesSurvive(p)))
    else if !Usable(before, next) then
      w == Write(before, if p.nodes == map[] then Returned(true) else Thrown(ExProcessing))
    else
      && OnlyTouches(before, next, w.schemas) && Ends(w.outcome)
      && (before[next] == HasTables(EMPTY_PLANNING) ==>
            if NamesSurvive(p)
            then ReadingOrder(p, order) && Lists(order, p.jobs.Keys)
                 && CopyResult(before, next, Copyable(p, order, duration), Image(p), w)
            else !FaithfulCopy(p, w.schemas[next].plan))
  }

  /** Everything set_next_planning can do to the database when it prepares the planning called next
      from the template p. */
  ghost predicate Prepared(schemas: map<string, Schema>, p: Planning, next: string, skeleton: Skeleton,
                           duration: int, order: seq<string>, w: Write) {
    if Literal(next).None? then w == Write(schemas, Returned(false))
    else if Stored(next) in schemas then w == Write(schemas, Returned(true))
    else
      var init := InitWrite(schemas, next, skeleton);
      if init.outcome == Returned(true) then Copied(init.schemas, p, next, duration, order, w)
      else w == Write(init.schemas, Returned(init.outcome == Returned(false)))
  }

  /** A schema is created exactly when the planning's name can stand unquoted and no schema is LIKE
      it; its underscores are wildcards there. */
  lemma CreatesSchema(schemas: map<string, Schema>, p: Planning, next: string, skeleton: Skeleton,
                      duration: int, order: seq<string>, w: Write)
    requires Prepared(schemas, p, next, skeleton, duration, order, w)
    ensures next !in schemas && next in w.schemas <==> Identifier(next) && !LikeClash(schemas, next)
  {
    if Identifier(next) {
      IdentifierSurvives(next);
      LikeSelf(next);
    }
  }

  /** A domain whose name holds a character that needs quotes never gets a planning. */
  lemma NeverPrepared(domain: string, start: int, schemas: map<string, Schema>, p: Planning, skeleton: Skeleton,
                      duration: int, order: seq<string>, w: Write)
    requires exists i :: 0 <= i < |domain| && !IdentifierChar(domain[i])
    requires Prepared(schemas, p, PlanningName(domain, start), skeleton, duration, order, w)
    requires PlanningName(domain, start) !in schemas
    ensures PlanningName(domain, start) !in w.schemas
  {
    var next := PlanningName(domain, start);
    var i :| 0 <= i < |domain| && !IdentifierChar(domain[i]);
    assert next[i] == domain[i];
    CreatesSchema(schemas, p, next, skeleton, duration, order, w);
  }

  /** The name of a domain that needs no quotes makes planning names that survive. */
  lemma PlanningNameSurvives(domain: string, start: int)
    requires forall i | 0 <= i < |domain| :: IdentifierChar(domain[i])
    ensures Survives(PlanningName(domain, start)) && '\\' !in PlanningName(domain, start)
  {
    var next := PlanningName(domain, start);
    Decimal.PrintIntChars(start);
    forall i | 0 <= i < |next| ensures next[i] != '\'' && next[i] != '\\' {}
    ReadsThrough(next, "");
    assert next + "" == next;
  }

  lemma {:induction false} LikeSuffix(front: string, other: string, s: string)
    requires |front| == |other| && '\\' !in s
    requires forall i | 0 <= i < |front| ::
               front[i] != '%' && front[i] != '\\' && (front[i] == '_' || front[i] == other[i])
    ensures Like(front + s, other + s)
    decreases |front|
  {
    if front == "" {
      assert front + s == s && other + s == s;
      LikeSelf(s);
    } else {
      LikeSuffix(front[1..], other[1..], s);
      assert (front + s)[1..] == front[1..] + s && (other + s)[1..] == other[1..] + s;
    }
  }

  lemma NamesAlike(domain: string, other: string, start: int)
    requires |domain| == |other|
    requires forall i | 0 <= i < |domain| :: IdentifierChar(domain[i]) && (domain[i] == '_' || domain[i] == other[i])
    ensures Like(PlanningName(domain, start), PlanningName(other, start))
  {
    var tail := "_" + Decimal.PrintInt(start);
    assert PlanningName(domain, start) == domain + tail && PlanningName(other, start) == other + tail;
    Decimal.PrintIntChars(start);
    LikeSuffix(domain, other, tail);
  }

  /** Plannings of one domain with different starts are not LIKE each other. */
  lemma OwnPlanningsDiffer(domain: string, a: int, b: int)
    requires '%' !in domain && '\\' !in domain && a != b
    ensures !Like(PlanningName(domain, a), PlanningName(domain, b))
  {
    var x, y, n := PlanningName(domain, a), PlanningName(domain, b), |domain| + 1;
    PlanningNamesDistinct(domain, a, b);
    Decimal.PrintIntChars(a);
    assert x[n..] == Decimal.PrintInt(a) && y[n..] == Decimal.PrintInt(b);
    assert x[..n] == domain + "_" == y[..n];
    forall c | c in x ensures c != '%' && c != '\\' {
      var i :| 0 <= i < |x| && x[i] == c;
      assert i < n ==> x[..n][i] == c;
      assert i >= n ==> x[n..][i - n] == c;
    }
    LikeExactly(x, y);
    if |x| == |y| {
      var u, v := x[n..], y[n..];
      assert x == x[..n] + u && y == y[..n] + v && u != v;
      var i :| 0 <= i < |u| && u[i] != v[i];
      assert x[n + i] == u[i] && y[n + i] == v[i];
    }
  }

  /** On a server that holds only the template and plannings of other days, the next planning's schema is
      created, if its name can stand unquoted. */
  lemma NextDayCreated(domain: string, start: int, schemas: map<string, Schema>, p: Planning, skeleton: Skeleton,
                       duration: int, order: seq<string>, w: Write)
    requires Identifier(PlanningName(domain, start))
    requires forall s | s in schemas :: s == domain || exists a :: a != start && s == PlanningName(domain, a)
    requires Prepared(schemas, p, PlanningName(domain, start), skeleton, duration, order, w)
    ensures PlanningName(domain, start) !in schemas && PlanningName(domain, start) in w.schemas
  {
    var next := PlanningName(domain, start);
    IdentifierSurvives(next);
    forall c | c in next ensures c != '%' && c != '\\' {
      var i :| 0 <= i < |next| && next[i] == c;
      assert IdentifierChar(next[i]);
    }
    forall c | c in domain ensures c in next {}
    forall s | s in schemas ensures !Like(next, s) {
      if s == domain {
        LikeExactly(next, s);
      } else {
        var a :| a != start && s == PlanningName(domain, a);
        OwnPlanningsDiffer(domain, start, a);
      }
    }
    CreatesSchema(schemas, p, next, skeleton, duration, order, w);
  }

  /** A name of at most 64 letters, digits, underscores and dollar signs that begins with a letter can stand
      unquoted; one with a blank, a hyphen, a point, a quote or a backslash, an empty one, one of digits
      alone, or a longer one cannot. */
  lemma Identifiers(s: string)
    ensures 0 < |s| <= 64 && ('a' <= s[0] <= 'z' || 'A' <= s[0] <= 'Z')
            && (forall i | 0 <= i < |s| :: 'a' <= s[i] <= 'z' || 'A' <= s[i] <= 'Z' || '0' <= s[i] <= '9'
                                           || s[i] == '_' || s[i] == '$')
            ==> Identifier(s)
    ensures s == "" || |s| > 64 || (forall i | 0 <= i < |s| :: '0' <= s[i] <= '9') ==> !Identifier(s)
    ensures ' ' in s || '-' in s || '.' in s || '\'' in s || '\\' in s || '`' in s ==> !Identifier(s)
    ensures s == "1e5_1" ==> !Identifier(s)
  {
    DigitsSkipped(s);
    if s == "1e5_1" {
      assert SkipDigits(s) == "e5_1" by {
        assert s[1..] == "e5_1" && SkipDigits("e5_1") == "e5_1";
      }
    }
    forall c | c in [' ', '-', '.', '\'', '\\', '`'] ensures !IdentifierChar(c) {}
    if Identifier(s) {
      forall c | c in s ensures IdentifierChar(c) {
        var i :| 0 <= i < |s| && s[i] == c;
      }
    }
  }

  lemma {:induction false} DigitsSkipped(s: string)
    ensures SkipDigits(s) == "" <==> forall i | 0 <= i < |s| :: '0' <= s[i] <= '9'
    ensures s != "" && !('0' <= s[0] <= '9') ==> SkipDigits(s) == s
  {
    if s != "" {
      DigitsSkipped(s[1..]);
      assert forall i | 1 <= i < |s| :: s[i] == s[1..][i - 1];
      if forall i | 0 <= i < |s| :: '0' <= s[i] <= '9' {
        forall i | 0 <= i < |s[1..]| ensures '0' <= s[1..][i] <= '9' { assert s[i + 1] == s[1..][i]; }
      }
    }
  }

  lemma PrintedStart()
    ensures Decimal.Print(1344190200) == "1344190200"
  {
    Decimal.PrintMore(0, 1);
    assert Decimal.Print(1) == "1";
    Decimal.PrintMore(1, 3);
    assert Decimal.Print(13) == "13";
    Decimal.PrintMore(13, 4);
    assert Decimal.Print(134) == "134";
    Decimal.PrintMore(134, 4);
    assert Decimal.Print(1344) == "1344";
    Decimal.PrintMore(1344, 1);
    assert Decimal.Print(13441) == "13441";
    PrintedEnd();
  }

  lemma PrintedEnd()
    requires Decimal.Print(13441) == "13441"
    ensures Decimal.Print(1344190200) == "1344190200"
  {
    Decimal.PrintMore(13441, 9);
    assert Decimal.Print(134419) == "134419";
    Decimal.PrintMore(134419, 0);
    assert Decimal.Print(1344190) == "1344190";
    Decimal.PrintMore(1344190, 2);
    assert Decimal.Print(13441902) == "13441902";
    Decimal.PrintMore(13441902, 0);
    assert Decimal.Print(134419020) == "134419020";
    Decimal.PrintMore(134419020, 0);
  }

  /** The name of a planning: the domain, an underscore, and the start in decimals, with a sign if negative. */
  lemma NameAsWritten(domain: string, start: int)
    ensures start >= 0 ==> PlanningName(domain, start) == domain + "_" + Decimal.Print(start)
    ensures start < 0 ==> PlanningName(domain, start) == domain + "_" + "-" + Decimal.Print(-start)
  {
    if start < 0 {
      assert domain + "_" + ("-" + Decimal.Print(-start)) == domain + "_" + "-" + Decimal.Print(-start);
    }
  }

  lemma NameInCharacters(start: int)
    requires start == 1344190200
    ensures PlanningName("prod", start) == "prod_1344190200"
  {
    NameAsWritten("prod", start);
    PrintedStart();
    assert "prod" + "_" + "1344190200" == "prod_1344190200";
  }

  /** Two domains whose names differ only where one has an underscore: beside the other's planning of
      the same start the planning is never created. */
  lemma UnderscoreClash(domain: string, other: string, start: int, schemas: map<string, Schema>, p: Planning,
                        skeleton: Skeleton, duration: int, order: seq<string>, w: Write)
    requires |domain| == |other|
    requires forall i | 0 <= i < |domain| :: IdentifierChar(domain[i]) && (domain[i] == '_' || domain[i] == other[i])
    requires PlanningName(other, start) in schemas && PlanningName(domain, start) !in schemas
    requires Prepared(schemas, p, PlanningName(domain, start), skeleton, duration, order, w)
    ensures LikeClash(schemas, PlanningName(domain, start)) && PlanningName(domain, start) !in w.schemas
  {
    NamesAlike(domain, other, start);
    PlanningNameSurvives(domain, start);
    CreatesSchema(schemas, p, PlanningName(domain, start), skeleton, duration, order, w);
  }

  /** With a skeleton that loads, a call that creates the schema goes on to the copy. */
  lemma GoesOnToCopy(schemas: map<string, Schema>, p: Planning, next: string, duration: int,
                     order: seq<string>, w: Write)
    requires Identifier(next) && !LikeClash(schemas, next)
    requires Prepared(schemas, p, next, Loads, duration, order, w)
    ensures next !in schemas && Survives(next)
    ensures Copied(schemas[next := HasTables(EMPTY_PLANNING)], p, next, duration, order, w)
  {
    IdentifierSurvives(next);
    LikeSelf(next);
  }

  /** A complete copy of a template whose names survive, or one stopped short. */
  lemma CopiedCleanly(schemas: map<string, Schema>, p: Planning, next: string, duration: int,
                      order: seq<string>, w: Write)
    requires TemplateReadable(p) && NamesSurvive(p)
    requires Copied(schemas[next := HasTables(EMPTY_PLANNING)], p, next, duration, order, w)
    ensures ReadingOrder(p, order) && CopyResult(schemas, next, Copyable(p, order, duration), Image(p), w)
  {
    var init := schemas[next := HasTables(EMPTY_PLANNING)];
    CopyResultChain(schemas, init, next, Copyable(p, order, duration), Image(p), w);
  }

  lemma CopiedIsFaithful(schemas: map<string, Schema>, p: Planning, next: string, duration: int,
                         order: seq<string>, w: Write)
    requires Consistent(p) && w.outcome == Returned(true)
    requires Copied(schemas[next := HasTables(EMPTY_PLANNING)], p, next, duration, order, w)
    ensures Usable(w.schemas, next) && w.schemas == schemas[next := w.schemas[next]]
    ensures FaithfulCopy(p, w.schemas[next].plan) <==> NumbersFit(p) && NamesSurvive(p) && CommandsSurvive(p)
  {
    if NamesSurvive(p) {
      CopiedCleanly(schemas, p, next, duration, order, w);
      ImageFaithful(p);
    }
  }

  /** A call that returns true and leaves a schema with tables has found it or copied the template into it. */
  lemma PreparedReturns(schemas: map<string, Schema>, p: Planning, next: string, duration: int,
                        order: seq<string>, after: map<string, Schema>)
    requires NamesSurvive(p) && Survives(next) && Usable(after, next)
    requires Prepared(schemas, p, next, Loads, duration, order, Write(after, Returned(true)))
    ensures after == if next in schemas then schemas else schemas[next := HasTables(Image(p))]
  {
    if next !in schemas && TemplateReadable(p) && Identifier(next) && !LikeClash(schemas, next) {
      CopiedCleanly(schemas, p, next, duration, order, Write(after, Returned(true)));
    }
  }

  /** What a call leaves that creates the schema from a skeleton that loads and returns true. */
  lemma CreatedFields(schemas: map<string, Schema>, p: Planning, next: string, duration: int,
                      order: seq<string>, w: Write)
    requires Consistent(p) && NamesSurvive(p) && Identifier(next) && !LikeClash(schemas, next)
    requires Prepared(schemas, p, next, Loads, duration, order, w) && w.outcome == Returned(true)
    ensures Usable(w.schemas, next) && CopiedFields(p, w.schemas[next].plan)
  {
    GoesOnToCopy(schemas, p, next, duration, order, w);
    CopiedCleanly(schemas, p, next, duration, order, w);
    ImageFields(p);
  }

  /** A skeleton file that cannot be read counts as success and leaves a schema without tables; a refused
      statement counts as failure. */
  lemma SkeletonFails(schemas: map<string, Schema>, p: Planning, next: string, skeleton: Skeleton,
                      duration: int, order: seq<string>, w: Write)
    requires Identifier(next) && !LikeClash(schemas, next) && !skeleton.Loads?
    requires Prepared(schemas, p, next, skeleton, duration, order, w)
    ensures skeleton.Unreadable? ==> w == Write(schemas[next := NoTables], Returned(true))
    ensures skeleton == Rejected(true) ==>
              w == Write(schemas[next := HasTables(Planning(map[], map[], {}, map[]))], Returned(false))
    ensures skeleton == Rejected(false) ==> w == Write(schemas[next := NoTables], Returned(false))
  {
    IdentifierSurvives(next);
    LikeSelf(next);
  }

  /** When a call creates the schema next and returns true, the schema holds a faithful copy of
      the template exactly when the skeleton loaded, the template's numbers fit 16 bits, and its
      names and command lines survive as literals. */
  lemma CreatedIsFaithful(schemas: map<string, Schema>, p: Planning, next: string, skeleton: Skeleton,
                          duration: int, order: seq<string>, w: Write)
    requires Consistent(p) && Prepared(schemas, p, next, skeleton, duration, order, w)
    requires next !in schemas && next in w.schemas && w.outcome == Returned(true)
    ensures (w.schemas[next].HasTables? && FaithfulCopy(p, w.schemas[next].plan))
       <==> skeleton.Loads? && NumbersFit(p) && NamesSurvive(p) && CommandsSurvive(p)
    ensures w.schemas == schemas[next := w.schemas[next]]
  {
    CreatesSchema(schemas, p, next, skeleton, duration, order, w);
    IdentifierSurvives(next);
    if skeleton.Loads? {
      CopiedIsFaithful(schemas, p, next, duration, order, w);
    }
  }

  /** A template whose names survive is copied by every call that creates a schema, or by none,
      whatever the order of the rows, when its links and rows say so. */
  lemma CreatedOrderFree(schemas: map<string, Schema>, p: Planning, next: string, duration: int,
                         order: seq<string>, w: Write)
    requires Consistent(p) && NamesSurvive(p) && TemplateReadable(p)
    requires Identifier(next) && !LikeClash(schemas, next)
    requires Prepared(schemas, p, next, Loads, duration, order, w)
    ensures Between(p) == {} && RowsGo(p, duration) ==> w == Write(schemas[next := HasTables(Image(p))], Returned(true))
    ensures !(Acyclic(Inside(p)) && Acyclic(Across(p)) && RowsGo(p, duration)) ==> w.outcome == Thrown(ExProcessing)
  {
    GoesOnToCopy(schemas, p, next, duration, order, w);
    CopiedCleanly(schemas, p, next, duration, order, w);
    OrderDecides(p, order, duration);
  }

  /** Preparing a planning whose schema exists changes nothing, so what a failed reading or copy of the
      template left is taken for the finished planning by the next call. */
  lemma FailedCopyStands(schemas: map<string, Schema>, p: Planning, next: string, duration: int,
                         order: seq<string>, w: Write, skeleton2: Skeleton, order2: seq<string>, w2: Write)
    requires Prepared(schemas, p, next, Loads, duration, order, w)
    requires Identifier(next) && !LikeClash(schemas, next)
    requires TemplateReadable(p) ==> NamesSurvive(p) && !Copyable(p, order, duration)
    requires Prepared(w.schemas, p, next, skeleton2, duration, order2, w2)
    ensures w.outcome.Thrown? && (TemplateReadable(p) ==> w.outcome == Thrown(ExProcessing))
    ensures w2 == Write(w.schemas, Returned(true)) && next in w2.schemas
  {
    GoesOnToCopy(schemas, p, next, duration, order, w);
    if TemplateReadable(p) {
      CopiedCleanly(schemas, p, next, duration, order, w);
    }
  }

  /** However a preparation ends, every schema keeps the widths and foreign keys of the skeleton. */
  lemma PreparedKeepsConsistent(schemas: map<string, Schema>, p: Planning, next: string, skeleton: Skeleton,
                                duration: int, order: seq<string>, w: Write)
    requires AllConsistent(schemas) && Prepared(schemas, p, next, skeleton, duration, order, w)
    ensures AllConsistent(w.schemas)
  {
    var init := InitWrite(schemas, next, skeleton);
    assert AllConsistent(init.schemas);
  }

  /** A list of the set's elements, in no particular order: the rows of a SELECT. */
  method Enumerate<T(==, !new)>(s: set<T>) returns (q: seq<T>)
    ensures Lists(q, s)
  {
    q := [];
    var rest := s;
    while rest != {}
      invariant rest <= s
      invariant Lists(q, s - rest)
      decreases rest
    {
      var x :| x in rest;
      q := q + [x];
      rest := rest - {x};
    }
  }

  /** Rows of the ready view for one node or, without a node, for all of them. */
  function ReadyRows(p: Planning, minute: int, node: Option<string>): set<string> {
    set j | j in ReadyJob(p, minute) && (node.None? || p.jobs[j].node == Stored(node.value))
  }

  /** The Job constructor refuses such a row. */
  predicate Blank(p: Planning, j: string) {
    j in p.jobs && (j == "" || p.jobs[j].node == "" || p.jobs[j].cmdLine == "")
  }

  /** The fetch of ready jobs ends without an exception. */
  ghost predicate FetchGoes(schemas: map<string, Schema>, planning: string, minute: int, node: Option<string>) {
    && Usable(schemas, planning) && (node.Some? ==> Literal(node.value).Some?)
    && forall j | j in ReadyRows(schemas[planning].plan, minute, node) :: !Blank(schemas[planning].plan, j)
  }

  /** Jobs read from distinct rows of the ready view. */
  ghost predicate ReadsReady(p: Planning, planning: string, minute: int, node: Option<string>, jobs: seq<TJob>) {
    && (forall t | t in jobs :: t.name in ReadyRows(p, minute, node) && t == ReadyTJob(p, planning, t.name))
    && DistinctJobs(jobs)
  }

  function ReadyTJob(p: Planning, planning: string, j: string): TJob
    requires j in p.jobs
  {
    TJob(planning, j, p.jobs[j].node, p.jobs[j].cmdLine, Wrap16(p.jobs[j].weight), p.jobs[j].state, [], [], [])
  }

  /** The rows of a fetch: jobs of the node asked for, with some job meeting its own times, that have a
      succeeded predecessor, or wait without any. */
  lemma FetchedRows(p: Planning, minute: int, node: Option<string>, j: string)
    ensures j in ReadyRows(p, minute, node) <==>
            && j in p.jobs && (node.Some? ==> p.jobs[j].node == Stored(node.value)) && GateOpen(p, minute)
            && ((exists i :: (i, j) in p.links && i in p.jobs && p.jobs[i].state == Succeeded)
                || (p.jobs[j].state == Waiting && forall i :: (i, j) !in p.links))
  {
    ReadyJobRows(p, minute, j);
  }

  /** A fetch from a planning with tables for a node whose name can be read goes through exactly when every
      row has a name, a node and a command line. */
  lemma FetchEnds(p: Planning, schemas: map<string, Schema>, planning: string, minute: int, node: Option<string>)
    requires planning in schemas && schemas[planning] == HasTables(p) && (node.Some? ==> Literal(node.value).Some?)
    ensures FetchGoes(schemas, planning, minute, node) <==>
            forall j | j in ReadyRows(p, minute, node) :: |j| > 0 && |p.jobs[j].node| > 0 && |p.jobs[j].cmdLine| > 0
  {
  }

  /** t carries the columns of the row. */
  ghost predicate FromRow(t: TJob, planning: string, row: JobRow) {
    && t.domain == planning && t.node == row.node && t.cmdLine == row.cmdLine && t.state == row.state
    && -32768 <= t.weight <= 32767 && (t.weight - row.weight) % 65536 == 0
  }

  lemma ReadyFields(p: Planning, planning: string, j: string)
    requires j in p.jobs
    ensures var t := ReadyTJob(p, planning, j); t.name == j && FromRow(t, planning, p.jobs[j])
  {
    WrapsAround(p.jobs[j].weight);
  }

  class Domain {
    const name: string
    const initialStart: int
    const duration: int
    const database: Mysql
    var planningStart: int

    ghost predicate Valid()
      reads this, database
    {
      && duration > 0
      && Usable(database.schemas, name)
      && Consistent(database.schemas[name].plan)
    }

    /** The template planning. */
    ghost function Template(): Planning
      requires Valid()
      reads this, database
    {
      database.schemas[name].plan
    }

    constructor (name: string, initialStart: int, duration: int, database: Mysql)
      ensures this.name == name && this.initialStart == initialStart && this.duration == duration
      ensures this.database == database
    {
      this.name, this.initialStart, this.duration, this.database := name, initialStart, duration, database;
      planningStart := 0;
    }

    /** The end of the source's constructor: a false result and ex_processing are logged and passed
        over, but any other exception escapes, and there is no domain. */
    static method Create(name: string, initialStart: int, duration: int, database: Mysql, now: int, skeleton: Skeleton)
      returns (d: Domain?, r: Outcome, ghost order: seq<string>)
      requires duration > 0 && Usable(database.schemas, name) && Consistent(database.schemas[name].plan)
      modifies database
      ensures d == null <==> r.Thrown? && r.exception != ExProcessing
      ensures d != null ==> fresh(d) && d.database == database && d.Valid()
      ensures d != null ==> d.name == name && d.initialStart == initialStart && d.duration == duration
      ensures d != null ==> d.planningStart == Clock.NextStart(now, initialStart, duration)
      ensures Prepared(old(database.schemas), old(database.schemas[name].plan),
                       PlanningName(name, Clock.NextStart(now, initialStart, duration)), skeleton, duration, order,
                       Write(database.schemas, r))
    {
      var created := new Domain(name, initialStart, duration, database);
      var start;
      start, r, order := created.SetNextPlanning(now, skeleton);
      if r.Thrown? && r.exception != ExProcessing {
        return null, r, order;
      }
      created.planningStart := start;
      d := created;
    }

    method GetNextPlanningStartTime(now: int) returns (result: int)
      requires duration > 0
      ensures result == Clock.NextStart(now, initialStart, duration)
      ensures now >= initialStart ==> Clock.LeastBoundaryAfter(result, now, initialStart, duration)
    {
      Clock.NextStartExact(now, initialStart, duration);
      result := now + duration - Clock.Remainder(now - initialStart, duration);
    }

    method GetJobsNext(schema: string, job: string) returns (nxt: seq<string>, r: Outcome)
      requires Usable(database.schemas, schema)
      ensures r == if Literal(job).Some? then Returned(true) else Thrown(ExJob)
      ensures r == Returned(true) ==> Lists(nxt, Successors(database.schemas[schema].plan, Stored(job)))
    {
      if Literal(job).None? {
        return [], Thrown(ExJob);
      }
      nxt := Enumerate(Successors(database.schemas[schema].plan, Stored(job)));
      r := Returned(true);
    }

    method GetTimeConstraints(schema: string, job: string) returns (tcs: seq<(ConstraintType, int)>, r: Outcome)
      requires Usable(database.schemas, schema)
      ensures r == if Literal(job).Some? then Returned(true) else Thrown(ExJob)
      ensures r == Returned(true) ==>
                && DistinctTypes(tcs)
                && forall c :: c in tcs <==> c in ConstraintsOf(database.schemas[schema].plan, Stored(job))
      ensures r == Returned(true) ==> forall c :: c in tcs <==>
                var times := database.schemas[schema].plan.constraints; var k := (c.0, Stored(job));
                k in times && c.1 == if -32768 <= times[k] <= 32767 then times[k] else 0
    {
      tcs := [];
      if Literal(job).None? {
        return tcs, Thrown(ExJob);
      }
      var p, found := database.schemas[schema].plan, Stored(job);
      var keys := set k | k in p.constraints && k.1 == found;
      var rows := Enumerate(keys);
      var i := 0;
      while i < |rows|
        invariant 0 <= i == |tcs| <= |rows|
        invariant forall a | 0 <= a < i :: rows[a] in keys && tcs[a] == (rows[a].0, CastOrZero(p.constraints[rows[a]]))
      {
        assert rows[i] in rows;
        tcs := tcs + [(rows[i].0, CastOrZero(p.constraints[rows[i]]))];
        i := i + 1;
      }
      forall c ensures c in tcs <==> c in ConstraintsOf(p, found) {
        if c in ConstraintsOf(p, found) {
          var k :| k in p.constraints && k.1 == found && c == (k.0, CastOrZero(p.constraints[k]));
          assert k in rows;
          var a :| 0 <= a < |rows| && rows[a] == k;
          assert tcs[a] == c;
        }
      }
      r := Returned(true);
    }

    /** The node's name, and the name of each of its jobs in turn, go into further queries. */
    method GetJobs(schema: string, node: string) returns (jobs: seq<TJob>, r: Outcome)
      requires Usable(database.schemas, schema)
      ensures r == if JobsReadable(database.schemas[schema].plan, node) then Returned(true) else Thrown(ExJob)
      ensures r == Returned(true) ==> ReadsJobs(database.schemas[schema].plan, name, node, jobs)
    {
      jobs := [];
      if Literal(node).None? {
        return jobs, Thrown(ExJob);
      }
      var p := database.schemas[schema].plan;
      var rows := Enumerate(JobsOn(p, Stored(node)));
      var i := 0;
      while i < |rows|
        invariant 0 <= i == |jobs| <= |rows|
        invariant forall a | 0 <= a < i :: jobs[a].name == rows[a] && ReadsJob(p, name, jobs[a])
      {
        assert rows[i] in rows;
        var row := p.jobs[rows[i]];
        var nxt, r1 := GetJobsNext(schema, rows[i]);
        if r1.Thrown? {
          return jobs, r1;
        }
        var tcs, r2 := GetTimeConstraints(schema, rows[i]);
        jobs := jobs + [TJob(name, rows[i], row.node, row.cmdLine, Wrap16(row.weight), row.state, [], nxt, tcs)];
        i := i + 1;
      }
      assert JobNames(jobs) == rows;
      forall j | j in JobsOn(p, Stored(node)) ensures Literal(j).Some? {
        assert j in rows;
      }
      r := Returned(true);
    }

    /** A second look-up of the node by its name; finding nothing leaves the node as given. */
    method GetNode(schema: string, given: TNode) returns (n: TNode, r: Outcome)
      requires Usable(database.schemas, schema)
      ensures r == NodeOutcome(database.schemas[schema].plan, given.name)
      ensures var p := database.schemas[schema].plan;
              r == Returned(true) && given.name in p.nodes
              && given == TNode(given.name, CastOrZero(p.nodes[given.name]), [])
              ==> ReadsNode(p, name, given.name, n)
    {
      n := given;
      if Literal(given.name).None? {
        return n, Thrown(ExJob);
      }
      var p, found := database.schemas[schema].plan, Stored(given.name);
      if found !in p.nodes {
        return n, Returned(true);
      }
      if !Fits16(p.nodes[found]) {
        return n, Thrown(BadCast);
      }
      var jobs;
      jobs, r := GetJobs(schema, found);
      n := TNode(found, p.nodes[found], jobs);
    }

    /** Reading stops at the first node with a weight outside 16 bits or a name that no literal can hold:
        if all weights fit it is ex_job, and if all names survive the failed cast. */
    method GetNodes(schema: string) returns (nodes: seq<TNode>, ghost rows: seq<string>, r: Outcome)
      requires Usable(database.schemas, schema)
      ensures r == Returned(true) <==> TemplateReadable(database.schemas[schema].plan)
      ensures r == Returned(true)
              || (r == Thrown(BadCast) && !WeightsFit(database.schemas[schema].plan))
              || (r == Thrown(ExJob) && !NamesSurvive(database.schemas[schema].plan))
      ensures r == Returned(true) ==> ReadsNodes(database.schemas[schema].plan, name, rows, nodes)
    {
      var p := database.schemas[schema].plan;
      var names := Enumerate(p.nodes.Keys);
      rows, nodes, r := names, [], Returned(true);
      var i := 0;
      while i < |names|
        invariant 0 <= i == |nodes| <= |names| && r == Returned(true)
        invariant forall a | 0 <= a < i :: ReadsNode(p, name, names[a], nodes[a]) && NodeReadable(p, names[a])
      {
        assert names[i] in names;
        var n;
        n, r := GetNode(schema, TNode(names[i], CastOrZero(p.nodes[names[i]]), []));
        if r != Returned(true) {
          return;
        }
        nodes := nodes + [n];
        i := i + 1;
      }
      forall raw | raw in p.nodes ensures NodeReadable(p, raw) {
        assert raw in names;
      }
    }

    /** The first part of add_job's queries: the job's row and its links. */
    method LinkQueries(t: TJob) returns (queries: seq<Statement>)
      ensures queries == [InsertJob(t.name, t.cmdLine, t.node, t.weight)] + LinkInserts(JobLinks(t))
    {
      queries := [InsertJob(t.name, t.cmdLine, t.node, t.weight)];
      NoLinksYet(t);
      var i := 0;
      while i < |t.prv|
        invariant 0 <= i <= |t.prv|
        invariant queries == FirstQueries(t, i)
      {
        queries := queries + [InsertLink(t.prv[i], t.name)];
        NextLink(t, i);
        i := i + 1;
      }
      i := 0;
      while i < |t.nxt|
        invariant 0 <= i <= |t.nxt|
        invariant queries == FirstQueries(t, |t.prv| + i)
      {
        queries := queries + [InsertLink(t.name, t.nxt[i])];
        NextLink(t, |t.prv| + i);
        i := i + 1;
      }
      AllLinks(t);
    }

    method AddJob(schema: string, t: TJob) returns (r: Outcome)
      modifies database
      ensures Write(database.schemas, r) == AddJobWrite(old(database.schemas), schema, t, duration)
    {
      if !Usable(database.schemas, t.domain) || Literal(t.node).None? {
        return Thrown(ExProcessing);
      }
      if Stored(t.node) !in database.schemas[t.domain].plan.nodes {
        return Thrown(ExNode);
      }
      var queries := LinkQueries(t);
      ghost var head := queries;
      var i := 0;
      while i < |t.timeConstraints|
        invariant 0 <= i <= |t.timeConstraints|
        invariant queries == head + ConstraintInserts(t.timeConstraints[..i], t.name)
        invariant forall c | c in t.timeConstraints[..i] :: duration >= c.1
      {
        var c := t.timeConstraints[i];
        if duration < c.1 {
          return Thrown(ExProcessing);
        }
        queries := queries + [InsertConstraint(t.name, c.0, c.1)];
        assert t.timeConstraints[..i + 1][..i] == t.timeConstraints[..i];
        i := i + 1;
      }
      assert t.timeConstraints[..i] == t.timeConstraints;
      assert queries == JobInserts(t);
      r := database.StandaloneExecute(queries, schema);
    }

    method AddNode(schema: string, n: TNode) returns (r: Outcome)
      modifies database
      ensures Write(database.schemas, r) == AddNodeWrite(old(database.schemas), schema, n, duration)
    {
      r := database.StandaloneExecute([InsertIgnoreNode(n.name, n.weight)], schema);
      if r != Returned(true) {
        return;
      }
      var i := 0;
      while i < |n.jobs|
        invariant 0 <= i <= |n.jobs| && r == Returned(true)
        invariant AddNodeWrite(old(database.schemas), schema, n, duration)
               == AddJobsWrite(database.schemas, schema, n.jobs[i..], duration)
      {
        r := AddJob(schema, n.jobs[i]);
        if r != Returned(true) {
          return;
        }
        i := i + 1;
      }
    }

    method AddNodes(schema: string, nodes: seq<TNode>) returns (r: Outcome)
      modifies database
      ensures Write(database.schemas, r) == AddNodesWrite(old(database.schemas), schema, nodes, duration)
    {
      r := Returned(true);
      var i := 0;
      while i < |nodes|
        invariant 0 <= i <= |nodes| && r == Returned(true)
        invariant AddNodesWrite(old(database.schemas), schema, nodes, duration)
               == AddNodesWrite(database.schemas, schema, nodes[i..], duration)
      {
        r := AddNode(schema, nodes[i]);
        if r != Returned(true) {
          return;
        }
        i := i + 1;
      }
    }

    method InitDomainStructure(schema: string, skeleton: Skeleton) returns (r: Outcome)
      modifies database
      ensures Write(database.schemas, r) == InitWrite(old(database.schemas), schema, skeleton)
    {
      if Literal(schema).None? {
        return Thrown(ExProcessing);
      }
      if exists s | s in database.schemas :: Like(Stored(schema), s) {
        return Returned(true);
      }
      if !Identifier(schema) {
        return Thrown(ExProcessing);
      }
      database.schemas := database.schemas[schema := NoTables];
      match skeleton {
        case Loads =>
          database.schemas := database.schemas[schema := HasTables(EMPTY_PLANNING)];
          r := Returned(true);
        case Unreadable => r := Returned(false);
        case Rejected(whole) =>
          if whole {
            database.schemas := database.schemas[schema := HasTables(EMPTY_PLANNING)];
          }
          r := Thrown(ExProcessing);
      }
    }

    /** The part of set_next_planning after the schema is there: read the template, add its nodes. */
    method CopyInto(next: string) returns (r: Outcome, ghost order: seq<string>)
      requires Valid() && next != name
      modifies database
      ensures Copied(old(database.schemas), old(Template()), next, duration, order, Write(database.schemas, r))
      ensures r == Returned(true) && NamesSurvive(old(Template())) && next in old(database.schemas)
              && old(database.schemas)[next] == HasTables(EMPTY_PLANNING) ==>
                Usable(database.schemas, next) && CopiedFields(old(Template()), database.schemas[next].plan)
    {
      order := [];
      ghost var before := database.schemas;
      var nodes;
      ghost var rows;
      nodes, rows, r := GetNodes(name);
      if r.Thrown? {
        return;
      }
      order := Order(nodes);
      CopyOfReading(Template(), name, before, next, rows, nodes, duration);
      ghost var p := Template();
      r := AddNodes(next, nodes);
      if r == Returned(true) && NamesSurvive(p) && next in before && before[next] == HasTables(EMPTY_PLANNING) {
        ImageFields(p);
      }
    }

    /** The exception of a rejected skeleton is caught; a false result of init_domain_structure
        is passed on as true. */
    method SetNextPlanning(now: int, skeleton: Skeleton) returns (start: int, r: Outcome, ghost order: seq<string>)
      requires Valid()
      modifies database
      ensures Valid() && Template() == old(Template())
      ensures start == Clock.NextStart(now, initialStart, duration)
      ensures Prepared(old(database.schemas), old(Template()), PlanningName(name, start), skeleton, duration, order,
                       Write(database.schemas, r))
    {
      order := [];
      start := GetNextPlanningStartTime(now);
      var next := PlanningName(name, start);
      if Literal(next).None? {
        return start, Returned(false), order;
      }
      if Stored(next) in database.schemas {
        return start, Returned(true), order;
      }
      r := InitDomainStructure(next, skeleton);
      if r.Thrown? {
        return start, Returned(false), order;
      }
      if r == Returned(false) {
        return start, Returned(true), order;
      }
      r, order := CopyInto(next);
    }

    method SwitchPlanning(now: int, skeleton: Skeleton) returns (r: Outcome, ghost order: seq<string>)
      requires Valid()
      modifies this, database
      ensures Valid() && Template() == old(Template())
      ensures planningStart == if r == Returned(true) then Clock.NextStart(now, initialStart, duration)
                               else old(planningStart)
      ensures Prepared(old(database.schemas), old(Template()),
                       PlanningName(name, Clock.NextStart(now, initialStart, duration)), skeleton, duration, order,
                       Write(database.schemas, r))
    {
      var result;
      result, r, order := SetNextPlanning(now, skeleton);
      if r == Returned(true) {
        planningStart := result;
      }
    }

    /** Deleting the job row comes first, so a job that a link or a time constraint refers to is
        never removed; any other job is. */
    method RemoveJob(schema: string, job: string) returns (r: Outcome)
      modifies database
      ensures r == Returned(true) <==>
              && Usable(old(database.schemas), schema) && Literal(job).Some?
              && var p, found := old(database.schemas)[schema].plan, Stored(job);
                 found !in p.jobs || ((forall l | l in p.links :: l.0 != found && l.1 != found)
                                      && forall k | k in p.constraints :: k.1 != found)
      ensures r != Returned(true) ==> database.schemas == old(database.schemas) && r == Thrown(ExProcessing)
      ensures r == Returned(true) && Consistent(old(database.schemas)[schema].plan) ==>
                var p := old(database.schemas)[schema].plan;
                database.schemas == old(database.schemas)[schema := HasTables(p.(jobs := p.jobs - {Stored(job)}))]
    {
      var queries := [DeleteJob(job), DeleteLinks(job), DeleteConstraints(job)];
      ghost var before := database.schemas;
      r := database.StandaloneExecute(queries, schema);
      if Usable(before, schema) {
        RemoveStatements(before[schema].plan, job);
      }
    }

    /** The row of the job whose name the server reads gets the state, and nothing else changes. */
    method UpdateJobState(schema: string, node: string, job: string, state: JobState) returns (r: Outcome)
      modifies database
      ensures r == if node == "" then Returned(false)
                   else if Usable(old(database.schemas), schema) && Literal(job).Some? then Returned(true)
                   else Thrown(ExProcessing)
      ensures database.schemas ==
              if r != Returned(true) then old(database.schemas)
              else old(database.schemas)[schema :=
                     HasTables(WithState(old(database.schemas)[schema].plan, Stored(job), state))]
    {
      if node == "" {
        return Returned(false);
      }
      if Usable(database.schemas, schema) {
        ApplyOne(UpdateState(job, state), database.schemas[schema].plan);
      }
      r := database.StandaloneExecute([UpdateState(job, state)], schema);
    }

    /** That row gets the state and both times. */
    method UpdateJobResult(schema: string, node: string, job: string, state: JobState, start: int, stop: int)
      returns (r: Outcome)
      modifies database
      ensures r == if node == "" then Returned(false)
                   else if Usable(old(database.schemas), schema) && Literal(job).Some? then Returned(true)
                   else Thrown(ExProcessing)
      ensures database.schemas ==
              if r != Returned(true) then old(database.schemas)
              else old(database.schemas)[schema :=
                     HasTables(WithResult(old(database.schemas)[schema].plan, Stored(job), state, start, stop))]
    {
      if node == "" {
        return Returned(false);
      }
      if Usable(database.schemas, schema) {
        ApplyOne(UpdateResult(job, state, start, stop), database.schemas[schema].plan);
      }
      r := database.StandaloneExecute([UpdateResult(job, state, start, stop)], schema);
    }

    /** All ready rows, each once, unless the Job constructor refuses one: that throws, with the
        rows before it already handed over. */
    method GetReadyJobs(minute: int, node: Option<string>) returns (jobs: seq<TJob>, r: Outcome)
      ensures var planning := PlanningName(name, planningStart);
              && (r == Returned(true) <==> FetchGoes(database.schemas, planning, minute, node))
              && (r == Thrown(ExProcessing) <==> planning !in database.schemas)
              && (r == Returned(true) || r == Thrown(ExJob) || r == Thrown(ExProcessing))
              && (!Usable(database.schemas, planning) ==> jobs == [])
              && (Usable(database.schemas, planning) ==>
                    ReadsReady(database.schemas[planning].plan, planning, minute, node, jobs))
              && (r == Returned(true) ==>
                    Lists(JobNames(jobs), ReadyRows(database.schemas[planning].plan, minute, node)))
      ensures var planning := PlanningName(name, planningStart);
              Usable(database.schemas, planning) ==>
                var rows := database.schemas[planning].plan.jobs;
                forall t | t in jobs :: t.name in rows && FromRow(t, planning, rows[t.name])
    {
      var planning := PlanningName(name, planningStart);
      jobs := [];
      if planning !in database.schemas {
        return jobs, Thrown(ExProcessing);
      }
      if database.schemas[planning].NoTables? || (node.Some? && Literal(node.value).None?) {
        return jobs, Thrown(ExJob);
      }
      var p := database.schemas[planning].plan;
      var rows := Enumerate(ReadyRows(p, minute, node));
      forall j | j in p.jobs ensures FromRow(ReadyTJob(p, planning, j), planning, p.jobs[j]) {
        ReadyFields(p, planning, j);
      }
      var i := 0;
      while i < |rows|
        invariant 0 <= i == |jobs| <= |rows|
        invariant forall a | 0 <= a < i ::
                    rows[a] in p.jobs && !Blank(p, rows[a]) && jobs[a] == ReadyTJob(p, planning, rows[a])
      {
        assert rows[i] in rows;
        if Blank(p, rows[i]) {
          return jobs, Thrown(ExJob);
        }
        jobs := jobs + [ReadyTJob(p, planning, rows[i])];
        i := i + 1;
      }
      assert JobNames(jobs) == rows;
      r := Returned(true);
    }
  }

  /** The queries for a job's row and its first k links. */
  ghost function FirstQueries(t: TJob, k: nat): seq<Statement>
    requires k <= |t.prv| + |t.nxt|
  {
    [InsertJob(t.name, t.cmdLine, t.node, t.weight)] + LinkInserts(JobLinks(t)[..k])
  }

  lemma NoLinksYet(t: TJob)
    ensures FirstQueries(t, 0) == [InsertJob(t.name, t.cmdLine, t.node, t.weight)]
  {
  }

  lemma AllLinks(t: TJob)
    ensures FirstQueries(t, |t.prv| + |t.nxt|)
         == [InsertJob(t.name, t.cmdLine, t.node, t.weight)] + LinkInserts(JobLinks(t))
  {
    assert JobLinks(t)[..|t.prv| + |t.nxt|] == JobLinks(t);
  }

  /** The query for the link at position k: those from the predecessors come first. */
  lemma NextLink(t: TJob, k: nat)
    requires k < |t.prv| + |t.nxt|
    ensures var (a, b) := if k < |t.prv| then (t.prv[k], t.name) else (t.name, t.nxt[k - |t.prv|]);
            FirstQueries(t, k + 1) == FirstQueries(t, k) + [InsertLink(a, b)]
  {
    var links := JobLinks(t);
    LinkInsertsSnoc(links[..k], links[k]);
    assert links[..k + 1] == links[..k] + [links[k]];
  }

  lemma RemoveStatements(p: Planning, job: string)
    ensures var queries, found := [DeleteJob(job), DeleteLinks(job), DeleteConstraints(job)], Stored(job);
            && (ApplyAll(queries, p).Some? <==> Literal(job).Some? && !(found in p.jobs && Referenced(p, found)))
            && (Consistent(p) && ApplyAll(queries, p).Some? ==>
                  ApplyAll(queries, p) == Some(p.(jobs := p.jobs - {found})))
  {
    var q0, q1, q2 := DeleteJob(job), DeleteLinks(job), DeleteConstraints(job);
    assert [q0, q1, q2][1..] == [q1, q2] && [q1, q2][1..] == [q2];
    if Apply(q0, p).Some? {
      var p1 := Apply(q0, p).value;
      var p2 := Apply(q1, p1).value;
      ApplyOne(q2, p2);
      if Consistent(p) {
        assert p2.links == p.links;
        assert Apply(q2, p2).value.constraints == p.constraints;
      }
    }
  }

  /** Adding the nodes of a full reading of the template. */
  lemma CopyOfReading(p: Planning, domain: string, before: map<string, Schema>, next: string,
                      rows: seq<string>, nodes: seq<TNode>, duration: int)
    requires Consistent(p) && TemplateReadable(p) && ReadsNodes(p, domain, rows, nodes) && next != domain
    requires domain in before && before[domain] == HasTables(p)
    ensures Copied(before, p, next, duration, Order(nodes), AddNodesWrite(before, next, nodes, duration))
  {
    if !Usable(before, next) {
      NowhereToCopy(p, domain, before, next, rows, nodes, duration);
    } else {
      AddNodesTouches(before, next, nodes, duration);
      if before[next] == HasTables(EMPTY_PLANNING) {
        if NamesSurvive(p) {
          CopyTemplate(p, domain, before, next, rows, nodes, duration);
        } else {
          UnfaithfulNames(p, domain, before, next, rows, nodes, duration);
        }
      }
    }
  }

  /** Without tables of that name the first node already fails. */
  lemma NowhereToCopy(p: Planning, domain: string, schemas: map<string, Schema>, name: string,
                      rows: seq<string>, nodes: seq<TNode>, duration: int)
    requires ReadsNodes(p, domain, rows, nodes) && !Usable(schemas, name)
    ensures AddNodesWrite(schemas, name, nodes, duration)
         == Write(schemas, if p.nodes == map[] then Returned(true) else Thrown(ExProcessing))
  {
    if nodes == [] {
      assert p.nodes.Keys == {};
    } else {
      assert rows[0] in rows;
    }
  }
}
