/** Characters and lines, as the parsers' regular expressions and getline see them. */
module Text {

  /** [[:space:]] and \s of the C locale. */
  predicate IsSpace(c: char) {
    c == ' ' || 9 <= c as int <= 13
  }

  /** Blank, tab, line feed, vertical tab, form feed, carriage return, and nothing else. */
  lemma SpaceCharacters(c: char)
    ensures IsSpace(c) <==> c in [' ', '\t', '\n', 11 as char, 12 as char, '\r']
  {
    if 9 <= c as int <= 13 {
      assert c == (c as int) as char;
    }
  }

  predicate AllSpaces(s: string) {
    forall i | 0 <= i < |s| :: IsSpace(s[i])
  }

  /** The lines a loop of getline up to end of file yields; a final newline gives a last empty one. */
  function Lines(s: string): (r: seq<string>)
    ensures |r| > 0
  {
    if s == "" then [""]
    else
      var r := Lines(s[1..]);
      if s[0] == '\n' then [""] + r else [[s[0]] + r[0]] + r[1..]
  }

  /** The lines with a line feed between each two. */
  function JoinLines(lines: seq<string>): string
    requires lines != []
  {
    if |lines| == 1 then lines[0] else lines[0] + "\n" + JoinLines(lines[1..])
  }

  /** Nothing is lost between the lines, and no line holds a line feed. */
  lemma {:induction false} LinesConserve(s: string)
    ensures JoinLines(Lines(s)) == s && forall i | 0 <= i < |Lines(s)| :: OneLine(Lines(s)[i])
  {
    if s != "" {
      var r := Lines(s[1..]);
      LinesConserve(s[1..]);
      assert s == [s[0]] + s[1..];
      if s[0] == '\n' {
        assert ([""] + r)[1..] == r;
        assert "" + "\n" + s[1..] == s;
      } else {
        assert ([[s[0]] + r[0]] + r[1..])[1..] == r[1..];
        assert r == [r[0]] + r[1..];
        if |r| > 1 {
          assert [s[0]] + r[0] + "\n" + JoinLines(r[1..]) == [s[0]] + (r[0] + "\n" + JoinLines(r[1..]));
        }
      }
    }
  }

  predicate OneLine(s: string) {
    forall i | 0 <= i < |s| :: s[i] != '\n'
  }

  lemma {:induction false} LinesOfLine(a: string, s: string)
    requires OneLine(a)
    ensures Lines(a + "\n" + s) == [a] + Lines(s)
  {
    if a == "" {
      assert ("\n" + s)[1..] == s && a + "\n" + s == "\n" + s;
    } else {
      LinesOfLine(a[1..], s);
      assert (a + "\n" + s)[1..] == a[1..] + "\n" + s;
      assert [a[0]] + a[1..] == a;
    }
  }
}
