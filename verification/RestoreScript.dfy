/**
  The statement scanner of the restore-script splitter (internal/routeros/export.go): quotes, braces
  and line continuations group the lines of a script into statements.
 */
module RestoreScript {
  import opened Text

  datatype Result<T> = Ok(value: T) | Err(error: string)

  const NONE := '\0'

  /** The scanner: the open quote or NONE, the open braces, and whether the next byte is escaped. */
  datatype Scan = Scan(quote: char, depth: nat, escaped: bool)

  function Advance(st: Scan, c: char): Scan {
    if st.escaped then st.(escaped := false)
    else if c == '\\' then st.(escaped := true)
    else if st.quote != NONE then (if c == st.quote then st.(quote := NONE) else st)
    else if c == '"' || c == '\'' then st.(quote := c)
    else if c == '{' then st.(depth := st.depth + 1)
    else if c == '}' && st.depth > 0 then st.(depth := st.depth - 1)
    else st
  }

  function ScanText(st: Scan, s: string): Scan
    decreases |s|
  {
    if s == [] then st else ScanText(Advance(st, s[0]), s[1..])
  }

  predicate Proper(st: Scan) {
    st.quote == NONE || st.quote == '"' || st.quote == '\''
  }

  lemma {:induction false} ScanConcat(st: Scan, a: string, b: string)
    ensures ScanText(st, a + b) == ScanText(ScanText(st, a), b)
    decreases |a|
  {
    if a == [] {
      assert a + b == b;
    } else {
      ScanConcat(Advance(st, a[0]), a[1..], b);
      assert (a + b)[1..] == a[1..] + b;
    }
  }

  lemma {:induction false} ScanProper(st: Scan, s: string)
    requires Proper(st)
    ensures Proper(ScanText(st, s))
    decreases |s|
  {
    if s != [] { ScanProper(Advance(st, s[0]), s[1..]); }
  }

  lemma {:induction false} ScanSnoc(st: Scan, s: string, c: char)
    ensures ScanText(st, s + [c]) == Advance(ScanText(st, s), c)
  {
    ScanConcat(st, s, [c]);
    assert [c][1..] == [];
  }

  /** scanRestoreLine. */
  method ScanLine(line: string, quote: char, depth: nat) returns (q: char, d: nat)
    ensures var st := ScanText(Scan(quote, depth, false), line); q == st.quote && d == st.depth
  {
    q, d := quote, depth;
    var escaped := false;
    for i := 0 to |line|
      invariant Scan(q, d, escaped) == ScanText(Scan(quote, depth, false), line[..i])
    {
      assert line[..i + 1] == line[..i] + [line[i]];
      ScanSnoc(Scan(quote, depth, false), line[..i], line[i]);
      var c := line[i];
      if escaped {
        escaped := false;
      } else if c == '\\' {
        escaped := true;
      } else if q != NONE {
        if c == q {
          q := NONE;
        }
      } else {
        match c
        case '"' => q := c;
        case '\'' => q := c;
        case '{' => d := d + 1;
        case '}' => if d > 0 { d := d - 1; }
        case _ =>
      }
    }
    assert line[..|line|] == line;
  }

  /** Scanning line by line, as restoreStatements does. */
  function ScanLines(st: Scan, lines: seq<string>): Scan
    decreases |lines|
  {
    if lines == [] then st
    else ScanLines(ScanText(Scan(st.quote, st.depth, false), lines[0]), lines[1..])
  }

  /** A newline ends an escape and changes nothing else. */
  lemma NewlineIsNeutral(st: Scan)
    requires Proper(st)
    ensures Advance(st, '\n') == Scan(st.quote, st.depth, false)
  {
  }

  /** Line by line or in one go over the whole text: the quote and brace state is the same. */
  lemma {:induction false} ScanLinesIsScanText(st: Scan, lines: seq<string>)
    requires Proper(st) && !st.escaped && lines != []
    ensures ScanLines(st, lines) == ScanText(st, Join(lines, '\n'))
    decreases |lines|
  {
    var first := ScanText(st, lines[0]);
    ScanProper(st, lines[0]);
    if |lines| == 1 {
      assert lines[1..] == [];
    } else {
      var rest := Join(lines[1..], '\n');
      ScanConcat(st, lines[0] + ['\n'], rest);
      ScanSnoc(st, lines[0], '\n');
      NewlineIsNeutral(first);
      ScanLinesIsScanText(Scan(first.quote, first.depth, false), lines[1..]);
      assert Join(lines, '\n') == lines[0] + ['\n'] + rest;
    }
  }

  /** strings.TrimRight(line, " \t"). */
  function TrimBlanks(line: string): string {
    if line != [] && (line[|line| - 1] == ' ' || line[|line| - 1] == '\t') then TrimBlanks(line[..|line| - 1]) else line
  }

  /** The line leaves the statement open, given the scanner state after it. */
  predicate Open(line: string, st: Scan) {
    st.quote != NONE || st.depth > 0 || HasSuffix(TrimBlanks(line), "\\")
  }

  function AfterLine(st: Scan, line: string): Scan {
    ScanText(Scan(st.quote, st.depth, false), line)
  }

  /** Closed groups of lines, the lines of a group left open at the end, and the final scanner state. */
  datatype Grouping = Grouping(groups: seq<seq<string>>, open: seq<string>, st: Scan)

  const START := Scan(NONE, 0, false)

  predicate Balanced(st: Scan) {
    st.quote == NONE && st.depth == 0
  }

  function GroupLines(lines: seq<string>, open: seq<string>, st: Scan): Grouping
    decreases |lines|
  {
    if lines == [] then Grouping([], open, st)
    else
      var after := AfterLine(st, lines[0]);
      if Open(lines[0], after) then GroupLines(lines[1..], open + [lines[0]], after)
      else
        var g := GroupLines(lines[1..], [], after);
        g.(groups := [open + [lines[0]]] + g.groups)
  }

  function Flatten(groups: seq<seq<string>>): seq<string> {
    if groups == [] then [] else groups[0] + Flatten(groups[1..])
  }

  /** The groups, including blank ones, are exactly the lines of the script in order. */
  lemma {:induction false} GroupsPartition(lines: seq<string>, open: seq<string>, st: Scan)
    ensures var g := GroupLines(lines, open, st); Flatten(g.groups) + g.open == open + lines
    decreases |lines|
  {
    if lines != [] {
      var after := AfterLine(st, lines[0]);
      if Open(lines[0], after) {
        GroupsPartition(lines[1..], open + [lines[0]], after);
        assert open + [lines[0]] + lines[1..] == open + lines;
      } else {
        GroupsPartition(lines[1..], [], after);
        var g := GroupLines(lines[1..], [], after);
        assert ([open + [lines[0]]] + g.groups)[1..] == g.groups;
        calc {
          (open + [lines[0]] + Flatten(g.groups)) + g.open;
          open + [lines[0]] + (Flatten(g.groups) + g.open);
          open + [lines[0]] + lines[1..];
          open + lines;
        }
      }
    }
  }

  /** The final state is the state after all lines. */
  lemma {:induction false} GroupsScan(lines: seq<string>, open: seq<string>, st: Scan)
    ensures GroupLines(lines, open, st).st == ScanLines(st, lines)
    decreases |lines|
  {
    if lines != [] {
      var after := AfterLine(st, lines[0]);
      if Open(lines[0], after) {
        GroupsScan(lines[1..], open + [lines[0]], after);
      } else {
        GroupsScan(lines[1..], [], after);
      }
    }
  }

  function NonBlank(groups: seq<seq<string>>): seq<string> {
    if groups == [] then []
    else
      var text := Join(groups[0], '\n');
      (if TrimSpace(text) == [] then [] else [text]) + NonBlank(groups[1..])
  }

  /** strings.ReplaceAll(s, "\r\n", "\n"). */
  function ReplaceCrLf(s: string): string {
    if |s| >= 2 && s[0] == '\r' && s[1] == '\n' then ['\n'] + ReplaceCrLf(s[2..])
    else if s == [] then []
    else [s[0]] + ReplaceCrLf(s[1..])
  }

  /** strings.ReplaceAll(s, "\r", "\n"). */
  function ReplaceCr(s: string): string {
    if s == [] then [] else [if s[0] == '\r' then '\n' else s[0]] + ReplaceCr(s[1..])
  }

  function Lines(script: string): seq<string> {
    Split(ReplaceCr(ReplaceCrLf(script)), '\n')
  }

  /** restoreStatements. */
  function Statements(script: string): Result<seq<string>> {
    var g := GroupLines(Lines(script), [], START);
    if !Balanced(g.st) then Err("unterminated restore script statement")
    else Ok(NonBlank(g.groups + [g.open]))
  }

  /** A script is refused exactly when a scan of its whole normalised text ends inside a quote or brace. */
  lemma RefusedIffUnbalanced(script: string)
    ensures Statements(script).Err? <==> !Balanced(ScanText(START, ReplaceCr(ReplaceCrLf(script))))
  {
    var lines := Lines(script);
    GroupsScan(lines, [], START);
    ScanLinesIsScanText(START, lines);
    JoinSplit(ReplaceCr(ReplaceCrLf(script)), '\n');
  }

  /* ---- Closed groups ---- */

  /** A list of lines that is one group of its own. */
  predicate OneGroup(group: seq<string>) {
    group != [] && GroupLines(group, [], START).groups == [group] && GroupLines(group, [], START).open == []
  }

  /** Grouping restarts after every closed group, whatever follows. */
  lemma {:induction false} GroupsAppend(a: seq<string>, b: seq<string>, open: seq<string>, st: Scan)
    requires GroupLines(a, open, st).open == []
    ensures var g := GroupLines(a, open, st);
      GroupLines(a + b, open, st) == GroupLines(b, [], g.st).(groups := g.groups + GroupLines(b, [], g.st).groups)
    decreases |a|
  {
    if a == [] {
      assert a + b == b;
    } else {
      assert (a + b)[0] == a[0] && (a + b)[1..] == a[1..] + b;
      var after := AfterLine(st, a[0]);
      if Open(a[0], after) {
        GroupsAppend(a[1..], b, open + [a[0]], after);
      } else {
        GroupsAppend(a[1..], b, [], after);
      }
    }
  }

  /** A group that starts from a balanced state is one group of its own, and ends balanced. */
  lemma {:induction false} GroupsAreGroups(lines: seq<string>, open: seq<string>, st: Scan)
    requires (Balanced(st) && open == []) || GroupLines(open, [], START) == Grouping([], open, st)
    requires Proper(st)
    ensures forall g :: g in GroupLines(lines, open, st).groups ==> OneGroup(g) && Balanced(GroupLines(g, [], START).st)
    decreases |lines|
  {
    if lines != [] {
      var after := AfterLine(st, lines[0]);
      ScanProper(Scan(st.quote, st.depth, false), lines[0]);
      GroupSnoc(open, st, lines[0]);
      if Open(lines[0], after) {
        GroupsAreGroups(lines[1..], open + [lines[0]], after);
      } else {
        GroupsAreGroups(lines[1..], [], after);
      }
    }
  }

  /** Adding one line to a group that is still open. */
  lemma GroupSnoc(open: seq<string>, st: Scan, line: string)
    requires (Balanced(st) && open == []) || GroupLines(open, [], START) == Grouping([], open, st)
    ensures var after := AfterLine(st, line);
      GroupLines(open + [line], [], START) ==
        if Open(line, after) then Grouping([], open + [line], after) else Grouping([open + [line]], [], after)
  {
    if open == [] {
      assert [] + [line] == [line] && [line][1..] == [];
    } else {
      OpenAppend(open, [line], [], START);
      assert [line][1..] == [];
    }
  }

  lemma {:induction false} OpenAppend(a: seq<string>, b: seq<string>, open: seq<string>, st: Scan)
    requires GroupLines(a, open, st).groups == []
    ensures var g := GroupLines(a, open, st); g.open == open + a && GroupLines(a + b, open, st) == GroupLines(b, g.open, g.st)
    decreases |a|
  {
    if a == [] {
      assert a + b == b;
    } else {
      assert (a + b)[0] == a[0] && (a + b)[1..] == a[1..] + b;
      OpenAppend(a[1..], b, open + [a[0]], AfterLine(st, a[0]));
      assert open + [a[0]] + a[1..] == open + a;
    }
  }

  /** Every statement of a script is balanced on its own. */
  lemma StatementsAreBalanced(script: string)
    requires Statements(script).Ok?
    ensures forall s :: s in Statements(script).value ==> Balanced(ScanText(START, s))
  {
    var lines := Lines(script);
    var g := GroupLines(lines, [], START);
    GroupsAreGroups(lines, [], START);
    forall group | group in g.groups + [g.open] ensures Balanced(ScanText(START, Join(group, '\n'))) {
      if group in g.groups {
        GroupsScan(group, [], START);
        ScanLinesIsScanText(START, group);
      } else {
        OpenIsLast(lines, [], START);
        if group != [] { ScanLinesIsScanText(START, group); }
      }
    }
    NonBlankFrom(g.groups + [g.open]);
  }

  lemma {:induction false} NonBlankFrom(groups: seq<seq<string>>)
    ensures forall s :: s in NonBlank(groups) ==> TrimSpace(s) != [] && exists g :: g in groups && s == Join(g, '\n')
  {
    if groups != [] {
      NonBlankFrom(groups[1..]);
      forall s | s in NonBlank(groups) ensures exists g :: g in groups && s == Join(g, '\n') {
        if s in NonBlank(groups[1..]) {
          var g :| g in groups[1..] && s == Join(g, '\n');
          assert g in groups;
        } else {
          assert groups[0] in groups;
        }
      }
    }
  }

  /** Scanning the open group alone from the start gives the final state of the script. */
  lemma {:induction false} OpenIsLast(lines: seq<string>, open: seq<string>, st: Scan)
    requires (Balanced(st) && open == []) || (ScanLines(START, open) == st && open != [])
    ensures var g := GroupLines(lines, open, st);
      if g.open == [] then Balanced(g.st) else ScanLines(START, g.open) == g.st
    decreases |lines|
  {
    if lines != [] {
      var after := AfterLine(st, lines[0]);
      if Open(lines[0], after) {
        ScanLinesSnoc(open, lines[0]);
        OpenIsLast(lines[1..], open + [lines[0]], after);
      } else {
        OpenIsLast(lines[1..], [], after);
      }
    }
  }

  lemma {:induction false} ScanLinesConcat(st: Scan, a: seq<string>, b: seq<string>)
    ensures ScanLines(st, a + b) == ScanLines(ScanLines(st, a), b)
    decreases |a|
  {
    if a == [] {
      assert a + b == b;
    } else {
      assert (a + b)[1..] == a[1..] + b;
      ScanLinesConcat(ScanText(Scan(st.quote, st.depth, false), a[0]), a[1..], b);
    }
  }

  lemma ScanLinesSnoc(a: seq<string>, line: string)
    ensures ScanLines(START, a + [line]) == AfterLine(ScanLines(START, a), line)
  {
    ScanLinesConcat(START, a, [line]);
    assert [line][1..] == [];
  }

  /* ---- The loop ---- */

  lemma {:induction false} NonBlankSnoc(groups: seq<seq<string>>, g: seq<string>)
    ensures NonBlank(groups + [g]) ==
      NonBlank(groups) + if TrimSpace(Join(g, '\n')) == [] then [] else [Join(g, '\n')]
  {
    if groups == [] {
      assert [g][1..] == [];
    } else {
      assert (groups + [g])[1..] == groups[1..] + [g];
      NonBlankSnoc(groups[1..], g);
    }
  }

  lemma {:induction false} JoinSnoc(parts: seq<string>, p: string)
    requires parts != []
    ensures Join(parts + [p], '\n') == Join(parts, '\n') + ['\n'] + p
  {
    if |parts| == 1 {
      assert (parts + [p])[1..] == [p];
    } else {
      assert (parts + [p])[1..] == parts[1..] + [p];
      JoinSnoc(parts[1..], p);
    }
  }

  /** One more line. */
  function Feed(g: Grouping, line: string): Grouping {
    var after := AfterLine(g.st, line);
    if Open(line, after) then Grouping(g.groups, g.open + [line], after)
    else Grouping(g.groups + [g.open + [line]], [], after)
  }

  lemma {:induction false} GroupsSnoc(lines: seq<string>, open: seq<string>, st: Scan, line: string)
    ensures GroupLines(lines + [line], open, st) == Feed(GroupLines(lines, open, st), line)
    decreases |lines|
  {
    if lines == [] {
      assert [] + [line] == [line] && [line][1..] == [];
    } else {
      assert (lines + [line])[0] == lines[0] && (lines + [line])[1..] == lines[1..] + [line];
      var after := AfterLine(st, lines[0]);
      if Open(lines[0], after) {
        GroupsSnoc(lines[1..], open + [lines[0]], after, line);
      } else {
        GroupsSnoc(lines[1..], [], after, line);
      }
    }
  }

  /** The builder's text: an open group always has some, so "text so far" and "lines so far" agree. */
  predicate Tracks(g: Grouping, current: string) {
    current == Join(g.open, '\n') && if g.open == [] then Balanced(g.st) else current != []
  }

  function Extend(current: string, line: string): string {
    (if current == [] then [] else current + ['\n']) + line
  }

  lemma FeedTracks(g: Grouping, current: string, line: string)
    requires Tracks(g, current)
    ensures Extend(current, line) == Join(g.open + [line], '\n')
    ensures Tracks(Feed(g, line), if Open(line, AfterLine(g.st, line)) then Extend(current, line) else "")
  {
    if g.open == [] {
      assert [] + [line] == [line];
      if line == [] { EmptyLineCloses(g.st); }
    } else {
      JoinSnoc(g.open, line);
    }
  }

  /** An empty line never opens a group. */
  lemma EmptyLineCloses(st: Scan)
    requires Balanced(st)
    ensures !Open("", AfterLine(st, ""))
  {
    assert TrimBlanks("") == [];
  }

  /** restoreStatements as the source runs it: a text builder, the scanner state and the statements so far. */
  method RestoreStatements(script: string) returns (r: Result<seq<string>>)
    ensures r == Statements(script)
  {
    var lines := Lines(script);
    var statements: seq<string> := [];
    var current := "";
    var quote, depth := NONE, 0;
    ghost var g := Grouping([], [], START);
    for i := 0 to |lines|
      invariant g == GroupLines(lines[..i], [], START)
      invariant quote == g.st.quote && depth == g.st.depth
      invariant statements == NonBlank(g.groups)
      invariant Tracks(g, current)
    {
      var line := lines[i];
      ghost var before := g;
      assert lines[..i + 1] == lines[..i] + [line];
      GroupsSnoc(lines[..i], [], START, line);
      FeedTracks(g, current, line);
      g := Feed(g, line);
      if |current| > 0 {
        current := current + ['\n'];
      }
      current := current + line;
      quote, depth := ScanLine(line, quote, depth);
      var continued := quote == NONE && HasSuffix(TrimBlanks(line), "\\");
      if quote != NONE || depth > 0 || continued {
        continue;
      }
      NonBlankSnoc(before.groups, before.open + [line]);
      if TrimSpace(current) != [] {
        statements := statements + [current];
      }
      current := "";
    }
    assert lines[..|lines|] == lines;
    assert g == GroupLines(lines, [], START);
    if quote != NONE || depth > 0 {
      return Err("unterminated restore script statement");
    }
    NonBlankSnoc(g.groups, g.open);
    if TrimSpace(current) != [] {
      statements := statements + [current];
    }
    assert statements == NonBlank(g.groups + [g.open]);
    r := Ok(statements);
  }
}
