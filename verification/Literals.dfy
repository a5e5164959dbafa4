/** What the database server reads where the scheduler writes a quoted text into a statement
    (src/domain.cpp:437-490, src/domain.cpp:605-621, src/domain.cpp:666-706): texts are concatenated
    without escaping. */
module Literals {
  import opened Tables
  import opened Text

  /** The character a backslash and c stand for, c being neither '%' nor '_'. */
  function Escaped(c: char): char {
    match c
    case '0' => 0 as char
    case 'b' => 8 as char
    case 'n' => 10 as char
    case 'r' => 13 as char
    case 't' => 9 as char
    case 'Z' => 26 as char
    case _ => c
  }

  function SkipSpaces(s: string): (r: string)
    ensures |r| <= |s|
  {
    if s != "" && IsSpace(s[0]) then SkipSpaces(s[1..]) else s
  }

  function Prepend(front: string, rest: Option<string>): Option<string> {
    if rest.None? then None else Some(front + rest.value)
  }

  /** The value of a text between two single quotes: a doubled quote is one quote, adjacent literals
      are joined, a backslash escapes, except before '%' and '_', where it stays. None when the
      text does not end with the closing quote. */
  function Literal(s: string): Option<string>
    decreases |s|
  {
    if s == "" then Some("")
    else if s[0] == '\'' then
      if |s| > 1 && s[1] == '\'' then Prepend("'", Literal(s[2..]))
      else
        var rest := SkipSpaces(s[1..]);
        if rest != "" && rest[0] == '\'' then Literal(rest[1..]) else None
    else if s[0] == '\\' then
      if |s| == 1 then None
      else if s[1] == '%' || s[1] == '_' then Prepend(s[..2], Literal(s[2..]))
      else Prepend([Escaped(s[1])], Literal(s[2..]))
    else Prepend([s[0]], Literal(s[1..]))
  }

  /** The value read; used only for texts that can be read. */
  function Stored(s: string): string {
    Literal(s).GetOr("")
  }

  /** The text is read back as it was written. */
  predicate Survives(s: string) {
    Literal(s) == Some(s)
  }

  ghost predicate JobsSurvive(p: Planning) {
    forall j | j in p.jobs :: Survives(j)
  }

  /** The keys the scheduler writes into its WHERE clauses and inserts. */
  ghost predicate NamesSurvive(p: Planning) {
    (forall n | n in p.nodes :: Survives(n)) && JobsSurvive(p)
  }

  ghost predicate CommandsSurvive(p: Planning) {
    forall j | j in p.jobs :: Survives(p.jobs[j].cmdLine)
  }

  /** The UPDATE of a job's state finds the row whose name the server reads, if there is one. */
  function StateWritten(p: Planning, j: string, state: JobState): Planning {
    if Literal(j).Some? then WithState(p, Stored(j), state) else p
  }

  function ResultWritten(p: Planning, j: string, state: JobState, start: int, stop: int): Planning {
    if Literal(j).Some? then WithResult(p, Stored(j), state, start, stop) else p
  }

  /** No quote, and no backslash but before '%' or '_'. */
  predicate Plain(s: string)
    decreases |s|
  {
    if s == "" then true
    else if s[0] == '\\' then |s| > 1 && (s[1] == '%' || s[1] == '_') && Plain(s[2..])
    else s[0] != '\'' && Plain(s[1..])
  }

  lemma {:induction false} PlainSurvives(s: string)
    requires Plain(s)
    ensures Survives(s)
    decreases |s|
  {
    if s != "" {
      if s[0] == '\\' {
        PlainSurvives(s[2..]);
        assert s == s[..2] + s[2..];
        assert Literal(s) == Prepend(s[..2], Literal(s[2..]));
      } else {
        PlainSurvives(s[1..]);
        assert s == [s[0]] + s[1..];
        assert Literal(s) == Prepend([s[0]], Literal(s[1..]));
      }
    }
  }

  /** Reading never lengthens a text, and only plain ones keep their length. */
  lemma {:induction false} LiteralShrinks(s: string)
    requires Literal(s).Some?
    ensures |Stored(s)| <= |s|
    ensures |Stored(s)| == |s| ==> Plain(s)
    decreases |s|
  {
    if s == "" {
    } else if s[0] == '\'' {
      if |s| > 1 && s[1] == '\'' {
        LiteralShrinks(s[2..]);
      } else {
        LiteralShrinks(SkipSpaces(s[1..])[1..]);
      }
    } else if s[0] == '\\' {
      LiteralShrinks(s[2..]);
    } else {
      LiteralShrinks(s[1..]);
    }
  }

  /** Exactly the plain texts come back as they were written. */
  lemma SurvivesExactly(s: string)
    ensures Survives(s) <==> Plain(s)
  {
    if Plain(s) {
      PlainSurvives(s);
    }
    if Survives(s) {
      LiteralShrinks(s);
    }
  }

  /** Some text of the set is read as v. */
  ghost predicate Drawn(texts: set<string>, v: string) {
    exists s :: s in texts && Literal(s) == Some(v)
  }

  /** When every text of a finite set is the value of some text of the set, all of them survive:
      the longest can only come from itself. */
  lemma {:induction false} AllSurvive(texts: set<string>)
    requires forall v {:trigger Drawn(texts, v)} | v in texts :: Drawn(texts, v)
    ensures forall s | s in texts :: Survives(s)
    decreases |texts|
  {
    if texts != {} {
      var longest := Longest(texts);
      assert Drawn(texts, longest);
      var s :| s in texts && Literal(s) == Some(longest);
      LiteralShrinks(s);
      SurvivesExactly(s);
      assert s == longest;
      var rest := texts - {longest};
      forall v | v in rest ensures Drawn(rest, v) {
        assert Drawn(texts, v);
        var u :| u in texts && Literal(u) == Some(v);
        assert u in rest;
      }
      AllSurvive(rest);
    }
  }

  lemma {:induction false} Longest(texts: set<string>) returns (longest: string)
    requires texts != {}
    ensures longest in texts && forall s | s in texts :: |s| <= |longest|
    decreases |texts|
  {
    longest :| longest in texts;
    var rest := texts - {longest};
    assert forall s | s in texts :: s == longest || s in rest;
    if rest != {} {
      var other := Longest(rest);
      if |other| > |longest| {
        longest := other;
      }
    }
  }

  /** A quoted word ends the literal: the statement cannot be read. */
  lemma QuotedWord()
    ensures Literal("echo 'hi'") == None
  {
    var s := "echo 'hi'";
    assert s == "echo " + "'hi'";
    ReadsThrough("echo ", "'hi'");
    assert Literal("'hi'") == None;
  }

  /** A backslash before a point is read as the point alone. */
  lemma BackslashedPoint()
    ensures Literal("grep \"\\.\" f") == Some("grep \".\" f")
  {
    var front, back, end := "grep \"", "\\.\" f", "\" f";
    assert "grep \"\\.\" f" == front + back;
    ReadsThrough(front, back);
    assert back[2..] == end && end + "" == end;
    ReadsThrough(end, "");
    assert Literal(back) == Some("." + end);
    assert front + ("." + end) == "grep \".\" f";
  }

  /** Characters that are neither quote nor backslash are read as they are. */
  lemma {:induction false} ReadsThrough(front: string, back: string)
    requires forall i | 0 <= i < |front| :: front[i] != '\'' && front[i] != '\\'
    ensures Literal(front + back) == Prepend(front, Literal(back))
  {
    if front == "" {
      assert front + back == back;
      if Literal(back).Some? {
        assert front + Literal(back).value == Literal(back).value;
      }
    } else {
      var all := front + back;
      assert all[0] == front[0] && all[1..] == front[1..] + back;
      ReadsThrough(front[1..], back);
      assert Literal(all) == Prepend([front[0]], Literal(all[1..]));
      if Literal(back).Some? {
        var v := Literal(back).value;
        assert Literal(all[1..]) == Some(front[1..] + v);
        assert [front[0]] + (front[1..] + v) == front + v;
        assert Literal(all) == Some([front[0]] + (front[1..] + v));
      } else {
        assert Literal(all[1..]) == None;
      }
    }
  }

  /** The text with each quote and backslash doubled. */
  function Doubled(s: string): string {
    if s == "" then "" else (if s[0] == '\'' || s[0] == '\\' then [s[0], s[0]] else [s[0]]) + Doubled(s[1..])
  }

  /** A text in which quotes and backslashes are doubled is read as the text itself. */
  lemma {:induction false} DoubledReadsBack(s: string)
    ensures Literal(Doubled(s)) == Some(s)
  {
    if s != "" {
      DoubledReadsBack(s[1..]);
      var d, rest := Doubled(s), Doubled(s[1..]);
      assert s == [s[0]] + s[1..];
      if s[0] == '\'' || s[0] == '\\' {
        assert d[0] == s[0] && d[1] == s[0] && d[2..] == rest;
        assert Escaped('\\') == '\\';
      } else {
        assert d[0] == s[0] && d[1..] == rest;
      }
    }
  }

  /** The named escapes; any other character stands for itself, and '%' and '_' keep the backslash. */
  lemma EscapedCharacters(c: char)
    ensures Literal(['\\', c]) == Some(if c == '%' || c == '_' then ['\\', c]
              else if c == '0' then [0 as char] else if c == 'b' then [8 as char] else if c == 'n' then ['\n']
              else if c == 'r' then ['\r'] else if c == 't' then ['\t'] else if c == 'Z' then [26 as char] else [c])
  {
    var s := ['\\', c];
    assert s[2..] == "" && s[..2] == s;
    assert [Escaped(c)] + "" == [Escaped(c)] && s + "" == s;
  }

  /** Literals with blanks between them are one; a text after the closing quote, or none at all after a
      backslash, cannot be read. */
  lemma Endings(c: char)
    ensures Literal("a' 'b") == Some("ab") && Literal("\\") == None
    ensures !IsSpace(c) && c != '\'' ==> Literal(['\'', c]) == None
  {
    var s := "a' 'b";
    assert s[1..] == "' 'b" && s[1..][1..] == " 'b" && s[1..][1..][1..] == "'b" && s[1..][1..][1..][1..] == "b";
    assert "b"[1..] == "" && "b" + "" == "b";
    assert SkipSpaces("'b") == "'b" && SkipSpaces(" 'b") == "'b";
    assert Literal("b") == Some("b");
    assert Literal(s[1..]) == Some("b");
    assert "a" + "b" == "ab";
    assert ['\'', c][1..] == [c];
  }
}
