/** Cutting an SQL script into statements (src/database.cpp:342-377, src/database.cpp:118-123). */
module Script {
  import opened Tables
  import opened Text

  predicate IsComment(line: string) {
    |line| >= 2 && line[0] == '-' && line[1] == '-'
  }

  /** The line closes a statement: only a ';' in last place does. */
  predicate Closes(line: string) {
    !IsComment(line) && EndsInSemicolon(line)
  }

  predicate EndsInSemicolon(query: string) {
    |query| > 0 && query[|query| - 1] == ';'
  }

  /** What the guard of atomic_execute refuses. */
  predicate Refused(query: string) {
    AllSpaces(query)
  }

  /** A line as it enters the statement being built. */
  function Piece(line: string): string {
    " " + if IsComment(line) then "" else line
  }

  function Pieces(lines: seq<string>): string {
    if lines == [] then "" else Piece(lines[0]) + Pieces(lines[1..])
  }

  function Join(queries: seq<string>): string {
    if queries == [] then "" else queries[0] + Join(queries[1..])
  }

  /** The statements, when the text so far of the open one is given. */
  function Statements(lines: seq<string>, open: string): seq<string>
    decreases lines
  {
    if lines == [] then (if AllSpaces(open) then [] else [open])
    else if Closes(lines[0]) then [open + Piece(lines[0])] + Statements(lines[1..], "")
    else Statements(lines[1..], open + Piece(lines[0]))
  }

  /** What is dropped at the end of the file. */
  function Tail(lines: seq<string>, open: string): string
    decreases lines
  {
    if lines == [] then (if AllSpaces(open) then open else "")
    else Tail(lines[1..], if Closes(lines[0]) then "" else open + Piece(lines[0]))
  }

  lemma ConserveStep(s: string, rest: seq<string>, tail: string, pieces: string)
    requires Join(rest) + tail == pieces
    ensures Join([s] + rest) + tail == s + pieces
  {
  }

  /** Statements and dropped tail together are the file's text, comments emptied; the tail is blank. */
  lemma {:induction false} TextConserved(lines: seq<string>, open: string)
    ensures Join(Statements(lines, open)) + Tail(lines, open) == open + Pieces(lines)
    ensures AllSpaces(Tail(lines, open))
    decreases lines
  {
    if lines == [] {
      assert open + "" == open && "" + open == open;
      if !AllSpaces(open) {
        ConserveStep(open, [], "", "");
        assert [open] + [] == [open];
      }
    } else {
      var piece, rest := Piece(lines[0]), Pieces(lines[1..]);
      assert (open + piece) + rest == open + (piece + rest);
      if Closes(lines[0]) {
        TextConserved(lines[1..], "");
        assert "" + rest == rest;
        ConserveStep(open + piece, Statements(lines[1..], ""), Tail(lines[1..], ""), rest);
      } else {
        TextConserved(lines[1..], open + piece);
      }
    }
  }

  /** No statement is blank, and all but possibly the last end in ';'. */
  ghost predicate WellFormed(q: seq<string>) {
    && (forall i | 0 <= i < |q| :: !Refused(q[i]))
    && (forall i | 0 <= i < |q| - 1 :: EndsInSemicolon(q[i]))
  }

  lemma WellFormedCons(s: string, rest: seq<string>)
    requires EndsInSemicolon(s) && WellFormed(rest)
    ensures WellFormed([s] + rest)
  {
  }

  /** The guard of atomic_execute never refuses a statement of a script. */
  lemma {:induction false} WellCut(lines: seq<string>, open: string)
    ensures WellFormed(Statements(lines, open))
    decreases lines
  {
    if lines != [] {
      if Closes(lines[0]) {
        WellCut(lines[1..], "");
        WellFormedCons(open + Piece(lines[0]), Statements(lines[1..], ""));
      } else {
        WellCut(lines[1..], open + Piece(lines[0]));
      }
    }
  }

  /** Cuts fall exactly after the closing lines: the first one ends the first statement. */
  lemma {:induction false} CutAfterFirstClose(before: seq<string>, line: string, after: seq<string>, open: string)
    requires Closes(line) && forall i | 0 <= i < |before| :: !Closes(before[i])
    ensures Statements(before + [line] + after, open) == [open + Pieces(before) + Piece(line)] + Statements(after, "")
    decreases before
  {
    if before == [] {
      assert before + [line] + after == [line] + after;
      StatementsStep(line, after, open);
      assert open + "" == open;
    } else {
      var rest := before[1..] + [line] + after;
      assert before + [line] + after == [before[0]] + rest;
      StatementsStep(before[0], rest, open);
      CutAfterFirstClose(before[1..], line, after, open + Piece(before[0]));
      assert open + Piece(before[0]) + Pieces(before[1..]) == open + Pieces(before);
    }
  }

  lemma StatementsStep(line: string, rest: seq<string>, open: string)
    ensures Statements([line] + rest, open) ==
            if Closes(line) then [open + Piece(line)] + Statements(rest, "") else Statements(rest, open + Piece(line))
  {
    assert ([line] + rest)[1..] == rest;
  }

  /** Without a closing line all the text is one statement, or dropped when blank. */
  lemma {:induction false} NoCutWithoutClose(lines: seq<string>, open: string)
    requires forall i | 0 <= i < |lines| :: !Closes(lines[i])
    ensures Statements(lines, open) == if AllSpaces(open + Pieces(lines)) then [] else [open + Pieces(lines)]
    decreases lines
  {
    if lines == [] {
      assert open + "" == open;
    } else {
      NoCutWithoutClose(lines[1..], open + Piece(lines[0]));
      assert open + Piece(lines[0]) + Pieces(lines[1..]) == open + Pieces(lines);
    }
  }

  /** All statements start with what the first closing line, if any, closes: the cut falls right after
      that line, and text without such a line is one statement, or dropped when blank. */
  lemma FirstStatement(lines: seq<string>, open: string) returns (n: nat)
    ensures n <= |lines| && forall i | 0 <= i < n :: !Closes(lines[i])
    ensures n < |lines| ==> Closes(lines[n])
    ensures var text := open + Pieces(lines[..n]);
            Statements(lines, open) ==
            if n < |lines| then [text + Piece(lines[n])] + Statements(lines[n + 1..], "")
            else if AllSpaces(text) then [] else [text]
  {
    n := 0;
    while n < |lines| && !Closes(lines[n])
      invariant 0 <= n <= |lines|
      invariant forall i | 0 <= i < n :: !Closes(lines[i])
    {
      n := n + 1;
    }
    if n < |lines| {
      CutAfterFirstClose(lines[..n], lines[n], lines[n + 1..], open);
      assert lines == lines[..n] + [lines[n]] + lines[n + 1..];
    } else {
      NoCutWithoutClose(lines, open);
      assert lines[..n] == lines;
    }
  }

  /** How each line enters the statements. One that begins with two hyphens leaves a blank and ends nothing; any
      other is added whole after a blank, and ends its statement exactly when its last character is a semicolon;
      what is open at the end is dropped when it is blank. */
  lemma LineByLine(line: string, rest: seq<string>, open: string)
    ensures "--" <= line ==> Statements([line] + rest, open) == Statements(rest, open + " ")
                             && Tail([line] + rest, open) == Tail(rest, open + " ")
    ensures !("--" <= line) && line != "" && line[|line| - 1] == ';' ==>
              Statements([line] + rest, open) == [open + " " + line] + Statements(rest, "")
              && Tail([line] + rest, open) == Tail(rest, "")
    ensures !("--" <= line) && (line == "" || line[|line| - 1] != ';') ==>
              Statements([line] + rest, open) == Statements(rest, open + " " + line)
              && Tail([line] + rest, open) == Tail(rest, open + " " + line)
    ensures Statements([], open) == if forall c | c in open :: IsSpace(c) then [] else [open]
    ensures Tail([], open) == if forall c | c in open :: IsSpace(c) then open else ""
  {
    assert ([line] + rest)[1..] == rest;
    assert " " + "" == " " && open + (" " + line) == open + " " + line;
    assert "--" <= line <==> IsComment(line);
    assert (forall c | c in open :: IsSpace(c)) <==> AllSpaces(open) by {
      if AllSpaces(open) {
        forall c | c in open ensures IsSpace(c) {
          var i :| 0 <= i < |open| && open[i] == c;
        }
      }
    }
  }

  /** Lines leave closed statements and an open text, to which the rest of the file is added. */
  lemma {:induction false} CutInTwo(before: seq<string>, open: string) returns (closed: seq<string>, left: string)
    ensures forall rest :: Statements(before + rest, open) == closed + Statements(rest, left)
    ensures forall rest :: Tail(before + rest, open) == Tail(rest, left)
    decreases before
  {
    if before == [] {
      closed, left := [], open;
      forall rest ensures Statements(before + rest, open) == closed + Statements(rest, left)
                       && Tail(before + rest, open) == Tail(rest, left) {
        assert before + rest == rest && [] + Statements(rest, left) == Statements(rest, left);
      }
    } else {
      var text := open + Piece(before[0]);
      closed, left := CutInTwo(before[1..], if Closes(before[0]) then "" else text);
      var more := closed;
      if Closes(before[0]) {
        closed := [text] + more;
      }
      forall rest ensures Statements(before + rest, open) == closed + Statements(rest, left)
                       && Tail(before + rest, open) == Tail(rest, left) {
        assert (before + rest)[0] == before[0] && (before + rest)[1..] == before[1..] + rest;
        assert Statements(before[1..] + rest, if Closes(before[0]) then "" else text) == more + Statements(rest, left);
        assert [text] + (more + Statements(rest, left)) == [text] + more + Statements(rest, left);
      }
    }
  }

  /** A comment line anywhere in a file adds one blank to the statement it stands in, and nothing else. */
  lemma CommentAnywhere(before: seq<string>, line: string, after: seq<string>, open: string)
    returns (closed: seq<string>, left: string)
    requires "--" <= line
    ensures Statements(before + after, open) == closed + Statements(after, left)
    ensures Statements(before + [line] + after, open) == closed + Statements(after, left + " ")
    ensures Tail(before + after, open) == Tail(after, left)
    ensures Tail(before + [line] + after, open) == Tail(after, left + " ")
  {
    closed, left := CutInTwo(before, open);
    LineByLine(line, after, left);
    assert before + [line] + after == before + ([line] + after);
  }

  lemma CommentThen(comment: string, next: string)
    requires "--" <= comment && !("--" <= next) && next != "" && next[|next| - 1] == ';'
    ensures Statements([comment, next], "") == [" " + " " + next]
  {
    LineByLine(comment, [next], "");
    LineByLine(next, [], " ");
    LineByLine("", [], "");
    assert [comment] + [next] == [comment, next] && [next] + [] == [next] && "" + " " == " ";
  }

  /** The first comment of the skeleton script and the statement after it. */
  lemma SkippedWarnings()
    ensures Statements(["-- We skip the warnings", "SET sql_notes = 0;"], "") == [" " + " " + "SET sql_notes = 0;"]
  {
    var comment, next := "-- We skip the warnings", "SET sql_notes = 0;";
    assert comment[..2] == "--" && next[0] == 'S' && "--"[0] == '-';
    CommentThen(comment, next);
  }

  /** The queries handed to the transaction; None when the file cannot be opened. */
  method LoadFile(schema: string, content: Option<string>) returns (queries: Option<seq<string>>)
    ensures queries.None? <==> content.None?
    ensures content.Some? ==>
              var lines := Lines(content.value); var q := queries.value;
              && |q| > 0 && q[0] == "USE " + schema + ";"
              && q[1..] == Statements(lines, "")
              && Join(q[1..]) + Tail(lines, "") == Pieces(lines)
              && AllSpaces(Tail(lines, ""))
              && WellFormed(q)
  {
    var use := "USE " + schema + ";";
    if content.None? {
      return None;
    }
    var lines := Lines(content.value);
    var q := [use];
    var query := "";
    var i := 0;
    while i < |lines|
      invariant 0 <= i <= |lines|
      invariant |q| > 0 && q[0] == use
      invariant q[1..] + Statements(lines[i..], query) == Statements(lines, "")
    {
      ghost var before, open := q, query;
      assert open + " " + lines[i] == open + (" " + lines[i]) && open + " " == open + (" " + "");
      query := query + " ";
      if !IsComment(lines[i]) {
        if Closes(lines[i]) {
          query := query + lines[i];
          q := q + [query];
          query := "";
          assert q[1..] == before[1..] + [open + Piece(lines[i])];
        } else {
          query := query + lines[i];
        }
      }
      assert q == before ==> query == open + Piece(lines[i]);
      assert lines[i..][1..] == lines[i + 1..] && lines[i..][0] == lines[i];
      i := i + 1;
    }
    ghost var before := q;
    if query != "" && !AllSpaces(query) {
      q := q + [query];
    }
    assert lines[i..] == [];
    assert q[1..] == before[1..] + Statements([], query);
    TextConserved(lines, "");
    WellCut(lines, "");
    assert "" + Pieces(lines) == Pieces(lines);
    WellFormedCons(use, q[1..]);
    assert [use] + q[1..] == q;
    queries := Some(q);
  }
}
