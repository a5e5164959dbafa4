/** The configuration parser (src/cfg.cpp:45-171). */
module Config {
  import opened Tables
  import opened Text
  import Decimal

  /** Replacing runs of white space by nothing. */
  function RemoveSpaces(s: string): string {
    if s == "" then "" else (if IsSpace(s[0]) then "" else [s[0]]) + RemoveSpaces(s[1..])
  }

  /** Replacing everything from the first '#' by nothing. */
  function CutComment(s: string): string {
    if s == "" || s[0] == '#' then "" else [s[0]] + CutComment(s[1..])
  }

  function Clean(line: string): string {
    CutComment(RemoveSpaces(line))
  }

  /** The first '=' of the line, or its length. */
  function FindEquals(s: string): (i: nat)
    ensures i <= |s|
    ensures forall k | 0 <= k < i :: s[k] != '='
    ensures i < |s| ==> s[i] == '='
  {
    if s == "" || s[0] == '=' then 0 else 1 + FindEquals(s[1..])
  }

  predicate CheckSyntax(key: string, value: string) {
    key == "bind_port" ==> |value| >= 2 && Decimal.AllDigits(value)
  }

  /** The port takes two digits or more; no other key has a syntax. */
  lemma PortSyntax(key: string, value: string)
    ensures CheckSyntax("bind_port", value) <==> |value| >= 2 && forall i | 0 <= i < |value| :: '0' <= value[i] <= '9'
    ensures key != "bind_port" ==> CheckSyntax(key, value)
  {
  }

  /** What one cleaned line contributes: nothing, an error, or a pair. */
  datatype Item = Nothing | Malformed | Pair(key: string, value: string)

  function ReadLine(line: string): Item {
    var s := Clean(line);
    var i := FindEquals(s);
    if s == "" then Nothing
    else if i == |s| then Malformed
    else if i == 0 || i + 1 == |s| then Malformed
    else if CheckSyntax(s[..i], s[i + 1..]) then Pair(s[..i], s[i + 1..])
    else Malformed
  }

  /** What a line gives, by its text without blanks and comment: nothing when that is empty; a pair when it
      reads key=value with both parts, no other '=' before, and a value that suits the key; else an error. */
  lemma LineMeaning(line: string, k: string, v: string)
    ensures ReadLine(line) == Nothing <==> Clean(line) == ""
    ensures ReadLine(line) == Pair(k, v) <==>
            Clean(line) == k + "=" + v && '=' !in k && k != "" && v != "" && CheckSyntax(k, v)
  {
    var s := Clean(line);
    var i := FindEquals(s);
    if s == k + "=" + v && '=' !in k {
      FindEqualsAt(k, v);
      assert s[..|k|] == k && s[|k| + 1..] == v;
    }
    if ReadLine(line) == Pair(k, v) {
      assert s == s[..i] + [s[i]] + s[i + 1..];
    }
  }

  /** The options after reading, and whether every line was accepted. */
  datatype Parsed = Parsed(options: map<string, string>, ok: bool)

  function InsertNew(options: map<string, string>, k: string, v: string): map<string, string> {
    if k in options then options else options[k := v]
  }

  function ParseLines(lines: seq<string>, options: map<string, string>): Parsed
    decreases lines
  {
    if lines == [] then Parsed(options, true)
    else match ReadLine(lines[0])
         case Nothing => ParseLines(lines[1..], options)
         case Malformed => Parsed(options, false)
         case Pair(k, v) => ParseLines(lines[1..], InsertNew(options, k, v))
  }

  lemma {:induction false} ParseConcat(a: seq<string>, b: seq<string>, options: map<string, string>)
    ensures var p := ParseLines(a, options);
            ParseLines(a + b, options) == if p.ok then ParseLines(b, p.options) else p
    decreases a
  {
    if a == [] {
      assert a + b == b;
    } else {
      assert (a + b)[1..] == a[1..] + b;
      match ReadLine(a[0])
      case Nothing => ParseConcat(a[1..], b, options);
      case Malformed =>
      case Pair(k, v) => ParseConcat(a[1..], b, InsertNew(options, k, v));
    }
  }

  // ----- layout does not matter -----

  lemma {:induction false} RemoveSpacesConcat(a: string, b: string)
    ensures RemoveSpaces(a + b) == RemoveSpaces(a) + RemoveSpaces(b)
  {
    if a == "" {
      assert a + b == b;
    } else {
      assert (a + b)[1..] == a[1..] + b;
      RemoveSpacesConcat(a[1..], b);
    }
  }

  lemma {:induction false} RemoveOnlySpaces(s: string)
    ensures AllSpaces(s) <==> RemoveSpaces(s) == ""
    ensures (forall i | 0 <= i < |s| :: !IsSpace(s[i])) ==> RemoveSpaces(s) == s
    ensures forall i | 0 <= i < |RemoveSpaces(s)| :: !IsSpace(RemoveSpaces(s)[i])
  {
    if s != "" {
      RemoveOnlySpaces(s[1..]);
      assert s == [s[0]] + s[1..];
    }
  }

  lemma {:induction false} CutAfterHash(a: string, b: string)
    ensures CutComment(a + "#" + b) == CutComment(a)
  {
    if a == "" {
      assert (a + "#" + b)[0] == '#';
    } else {
      assert (a + "#" + b)[1..] == a[1..] + "#" + b;
      CutAfterHash(a[1..], b);
    }
  }

  lemma {:induction false} CutNothing(s: string)
    ensures (forall i | 0 <= i < |s| :: s[i] != '#') ==> CutComment(s) == s
    ensures forall i | 0 <= i < |CutComment(s)| :: i < |s| && CutComment(s)[i] == s[i] && s[i] != '#'
  {
    if s != "" {
      CutNothing(s[1..]);
    }
  }

  lemma BlanksVanish(a: string, blanks: string, b: string)
    requires AllSpaces(blanks)
    ensures RemoveSpaces(a + blanks + b) == RemoveSpaces(a + b)
  {
    RemoveOnlySpaces(blanks);
    RemoveSpacesConcat(a + blanks, b);
    RemoveSpacesConcat(a, blanks);
    RemoveSpacesConcat(a, b);
    assert RemoveSpaces(a) + "" == RemoveSpaces(a);
  }

  lemma CommentVanishes(a: string, comment: string)
    ensures Clean(a + "#" + comment) == Clean(a)
  {
    RemoveSpacesConcat(a + "#", comment);
    RemoveSpacesConcat(a, "#");
    RemoveOnlySpaces("#");
    CutAfterHash(RemoveSpaces(a), RemoveSpaces(comment));
  }

  /** Blanks and tabs may be added anywhere in a line, and a comment at its end. */
  lemma LayoutOfLine(a: string, blanks: string, b: string, comment: string)
    requires AllSpaces(blanks)
    ensures ReadLine(a + blanks + b) == ReadLine(a + b)
    ensures ReadLine(a + "#" + comment) == ReadLine(a)
  {
    BlanksVanish(a, blanks, b);
    CommentVanishes(a, comment);
  }

  /** The lines that contribute, cleaned. */
  function Significant(lines: seq<string>): seq<string> {
    if lines == [] then []
    else (if Clean(lines[0]) == "" then [] else [Clean(lines[0])]) + Significant(lines[1..])
  }

  lemma CleanTwice(line: string)
    ensures Clean(Clean(line)) == Clean(line)
  {
    RemoveOnlySpaces(line);
    CutNothing(RemoveSpaces(line));
    RemoveOnlySpaces(Clean(line));
    CutNothing(Clean(line));
  }

  lemma {:induction false} ParseSignificant(lines: seq<string>, options: map<string, string>)
    ensures ParseLines(lines, options) == ParseLines(Significant(lines), options)
    decreases lines
  {
    if lines != [] {
      var s, rest := Clean(lines[0]), Significant(lines[1..]);
      CleanTwice(lines[0]);
      assert ([s] + rest)[1..] == rest && [] + rest == rest;
      match ReadLine(lines[0])
      case Nothing => ParseSignificant(lines[1..], options);
      case Malformed =>
      case Pair(k, v) => ParseSignificant(lines[1..], InsertNew(options, k, v));
    }
  }

  /** Files whose contributing lines agree once blanks and comments are gone parse alike: empty
      lines, comment lines, indentation and trailing comments change nothing. */
  lemma LayoutOfFile(a: seq<string>, b: seq<string>, options: map<string, string>)
    requires Significant(a) == Significant(b)
    ensures ParseLines(a, options) == ParseLines(b, options)
  {
    ParseSignificant(a, options);
    ParseSignificant(b, options);
  }

  // ----- duplicates -----

  lemma {:induction false} OptionsGrow(lines: seq<string>, options: map<string, string>)
    ensures forall k | k in options ::
              k in ParseLines(lines, options).options && ParseLines(lines, options).options[k] == options[k]
    decreases lines
  {
    if lines != [] {
      match ReadLine(lines[0])
      case Nothing => OptionsGrow(lines[1..], options);
      case Malformed =>
      case Pair(k, v) => OptionsGrow(lines[1..], InsertNew(options, k, v));
    }
  }

  /** The first of several values for a key is kept, whatever follows. */
  lemma FirstWins(before: seq<string>, line: string, after: seq<string>, options: map<string, string>)
    requires ParseLines(before, options).ok && ReadLine(line).Pair?
    ensures var r := ParseLines(before + [line] + after, options).options; var k := ReadLine(line).key;
            var earlier := ParseLines(before, options).options;
            k in r && r[k] == if k in earlier then earlier[k] else ReadLine(line).value
  {
    var earlier := ParseLines(before, options).options;
    assert before + [line] + after == before + ([line] + after);
    ParseConcat(before, [line] + after, options);
    assert ([line] + after)[1..] == after;
    OptionsGrow(after, InsertNew(earlier, ReadLine(line).key, ReadLine(line).value));
  }

  // ----- round trip -----

  predicate Plain(s: string) {
    s != "" && forall i | 0 <= i < |s| :: !IsSpace(s[i]) && s[i] != '#'
  }

  /** What a file can carry: no blanks, no '#', no '=' in the key, and the key's own syntax. */
  predicate Printable(k: string, v: string) {
    Plain(k) && Plain(v) && '=' !in k && CheckSyntax(k, v)
  }

  function PrintPairs(pairs: seq<(string, string)>): string {
    if pairs == [] then "" else pairs[0].0 + "=" + pairs[0].1 + "\n" + PrintPairs(pairs[1..])
  }

  function Collect(pairs: seq<(string, string)>, options: map<string, string>): map<string, string>
    decreases pairs
  {
    if pairs == [] then options else Collect(pairs[1..], InsertNew(options, pairs[0].0, pairs[0].1))
  }

  lemma {:induction false} FindEqualsAt(k: string, v: string)
    requires '=' !in k
    ensures FindEquals(k + "=" + v) == |k|
  {
    if k == "" {
      assert (k + "=" + v)[0] == '=';
    } else {
      assert (k + "=" + v)[1..] == k[1..] + "=" + v;
      FindEqualsAt(k[1..], v);
    }
  }

  lemma ReadPrinted(k: string, v: string)
    requires Printable(k, v)
    ensures ReadLine(k + "=" + v) == Pair(k, v)
  {
    var s := k + "=" + v;
    RemoveOnlySpaces(s);
    CutNothing(s);
    FindEqualsAt(k, v);
    assert s[..|k|] == k && s[|k| + 1..] == v;
  }

  lemma {:induction false} ParsePrinted(pairs: seq<(string, string)>, options: map<string, string>)
    requires forall p | p in pairs :: Printable(p.0, p.1)
    ensures ParseLines(Lines(PrintPairs(pairs)), options) == Parsed(Collect(pairs, options), true)
    decreases pairs
  {
    if pairs == [] {
      assert Lines("") == [""] && [""][1..] == [];
      assert ReadLine("") == Nothing;
    } else {
      var line, rest := pairs[0].0 + "=" + pairs[0].1, PrintPairs(pairs[1..]);
      assert pairs[0] in pairs && Printable(pairs[0].0, pairs[0].1);
      assert OneLine(line);
      LinesOfLine(line, rest);
      ReadPrinted(pairs[0].0, pairs[0].1);
      assert ([line] + Lines(rest))[1..] == Lines(rest);
      ParsePrinted(pairs[1..], InsertNew(options, pairs[0].0, pairs[0].1));
    }
  }

  /** The pairs list the map, each key once. */
  ghost predicate ListsMap(pairs: seq<(string, string)>, m: map<string, string>) {
    && (forall i, j | 0 <= i < j < |pairs| :: pairs[i].0 != pairs[j].0)
    && (forall k, v :: (k, v) in pairs <==> k in m && m[k] == v)
  }

  ghost predicate Holds(m: map<string, string>, k: string, v: string) {
    k in m && m[k] == v
  }

  lemma {:induction false} CollectMeaning(pairs: seq<(string, string)>, options: map<string, string>,
                                          k: string, v: string)
    requires forall i, j | 0 <= i < j < |pairs| :: pairs[i].0 != pairs[j].0
    requires forall i | 0 <= i < |pairs| :: pairs[i].0 !in options
    ensures Holds(Collect(pairs, options), k, v) <==> (k, v) in pairs || Holds(options, k, v)
    decreases pairs
  {
    if pairs == [] {
    } else {
      var first, rest := pairs[0], pairs[1..];
      var next := InsertNew(options, first.0, first.1);
      forall i | 0 <= i < |rest| ensures rest[i].0 !in next && rest[i].0 != first.0 {
        assert rest[i] == pairs[i + 1];
      }
      CollectMeaning(rest, next, k, v);
      CollectStep(pairs, options, k, v);
      assert pairs == [first] + rest;
      assert (k, v) in pairs <==> (k, v) == first || (k, v) in rest;
    }
  }

  lemma CollectStep(pairs: seq<(string, string)>, options: map<string, string>, k: string, v: string)
    requires pairs != [] && pairs[0].0 !in options
    ensures Collect(pairs, options) == Collect(pairs[1..], InsertNew(options, pairs[0].0, pairs[0].1))
    ensures var next := InsertNew(options, pairs[0].0, pairs[0].1);
            Holds(next, k, v) <==> (if k == pairs[0].0 then v == pairs[0].1 else Holds(options, k, v))
  {
  }

  /** Printing any map of printable pairs, in any order, and parsing the file gives the map back. */
  lemma RoundTrip(m: map<string, string>, pairs: seq<(string, string)>)
    requires ListsMap(pairs, m) && forall k | k in m :: Printable(k, m[k])
    ensures ParseLines(Lines(PrintPairs(pairs)), map[]) == Parsed(m, true)
  {
    forall p | p in pairs ensures Printable(p.0, p.1) {
      assert (p.0, p.1) in pairs;
    }
    ParsePrinted(pairs, map[]);
    var c := Collect(pairs, map[]);
    forall k, v ensures Holds(c, k, v) <==> (k, v) in pairs {
      CollectMeaning(pairs, map[], k, v);
    }
    forall k ensures k in c <==> k in m {
      if k in m { assert (k, m[k]) in pairs && Holds(c, k, m[k]); }
      if k in c { assert Holds(c, k, c[k]) && (k, c[k]) in pairs; }
    }
    forall k | k in c ensures c[k] == m[k] {
      assert Holds(c, k, c[k]) && (k, c[k]) in pairs;
    }
  }

  // ----- the class -----

  datatype Mode = P2p | Active | Passive

  /** Undefined: the file has no running_mode, whose missing value is dereferenced. */
  datatype Answer = Accepted | Refused | Undefined

  function ModeOf(s: string): Option<Mode> {
    if s == "active" then Some(Active) else if s == "passive" then Some(Passive)
    else if s == "p2p" then Some(P2p) else None
  }

  lemma Modes(s: string)
    ensures ModeOf("active") == Some(Active) && ModeOf("passive") == Some(Passive) && ModeOf("p2p") == Some(P2p)
    ensures s != "active" && s != "passive" && s != "p2p" ==> ModeOf(s) == None
  {
  }

  class ConfigFile {
    var options: map<string, string>
    var mode: Option<Mode>

    constructor ()
      ensures options == map[] && mode == None
    {
      options, mode := map[], None;
    }

    /** A file that cannot be opened is None. The options read before a malformed line stay. */
    method ParseFile(content: Option<string>) returns (r: Answer)
      modifies this
      ensures content.None? ==> r == Refused && options == old(options) && mode == old(mode)
      ensures content.Some? ==>
                var p := ParseLines(Lines(content.value), old(options));
                && options == p.options
                && (r == Refused <==> !p.ok || ("running_mode" in options && ModeOf(options["running_mode"]).None?))
                && (r == Undefined <==> p.ok && "running_mode" !in options)
                && mode == if r == Accepted then ModeOf(options["running_mode"]) else old(mode)
    {
      if content.None? {
        return Refused;
      }
      var lines := Lines(content.value);
      var i := 0;
      while i < |lines|
        invariant 0 <= i <= |lines|
        invariant mode == old(mode)
        invariant ParseLines(lines, old(options)) == ParseLines(lines[i..], options)
      {
        var line := CutComment(RemoveSpaces(lines[i]));
        if line != "" {
          var position := FindEquals(line);
          if position == |line| {
            return Refused;
          }
          var key, value := line[..position], line[position + 1..];
          if key == "" || value == "" {
            return Refused;
          }
          if !CheckSyntax(key, value) {
            return Refused;
          }
          if key !in options {
            options := options[key := value];
          }
        }
        i := i + 1;
      }
      r := SetPrivateAttributes();
    }

    method SetPrivateAttributes() returns (r: Answer)
      modifies this`mode
      ensures r == Undefined <==> "running_mode" !in options
      ensures r == Refused <==> "running_mode" in options && ModeOf(options["running_mode"]).None?
      ensures mode == if r == Accepted then ModeOf(options["running_mode"]) else old(mode)
    {
      if "running_mode" !in options {
        return Undefined;
      }
      if ModeOf(options["running_mode"]).None? {
        return Refused;
      }
      mode := ModeOf(options["running_mode"]);
      r := Accepted;
    }
  }
}
