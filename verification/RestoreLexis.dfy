/**
  What the statement scanner of the restore-script splitter recognises: braces, quotes, escapes and
  continuation lines, said without the scanner.
 */
module RestoreLexis {
  import opened Text
  import opened RestoreScript

  /* ---- Braces ---- */

  predicate Special(c: char) {
    c == '"' || c == '\'' || c == '\\'
  }

  /** No quotes and no escapes. */
  predicate Plain(s: string) {
    forall c :: c in s ==> !Special(c)
  }

  /** How many more opening than closing braces there are. */
  function Net(s: string): int {
    multiset(s)['{'] as int - multiset(s)['}'] as int
  }

  /** `d` is what is left open when closing braces without a partner are ignored, starting with `start` open ones. */
  ghost predicate LeftOpen(start: nat, s: string, d: nat) {
    && Net(s) + start <= d
    && (forall k :: 0 <= k <= |s| ==> Net(s[k..]) <= d)
    && (d == Net(s) + start || exists k :: 0 <= k <= |s| && Net(s[k..]) == d)
  }

  lemma NetSnoc(s: string, c: char)
    ensures Net(s + [c]) == Net(s) + (if c == '{' then 1 else if c == '}' then -1 else 0)
  {
  }

  lemma LeftOpenSnoc(start: nat, s: string, d: nat, c: char)
    requires LeftOpen(start, s, d)
    ensures LeftOpen(start, s + [c], if c == '{' then d + 1 else if c == '}' && d > 0 then d - 1 else d)
  {
    var t := s + [c];
    var e := if c == '{' then d + 1 else if c == '}' && d > 0 then d - 1 else d;
    NetSnoc(s, c);
    forall k | 0 <= k <= |t| ensures Net(t[k..]) <= e {
      if k <= |s| {
        assert t[k..] == s[k..] + [c];
        NetSnoc(s[k..], c);
      }
    }
    assert t[|t|..] == [] && Net([]) == 0;
    if d == Net(s) + start && (c != '}' || d > 0) {
    } else if c == '}' && d == 0 {
      assert Net(t[|t|..]) == e;
    } else {
      var k :| 0 <= k <= |s| && Net(s[k..]) == d;
      assert t[k..] == s[k..] + [c];
      NetSnoc(s[k..], c);
      assert Net(t[k..]) == e;
    }
  }

  /** Text without quotes and escapes changes nothing but the number of open braces. */
  lemma {:induction false} PlainTextCountsBraces(d: nat, s: string)
    requires Plain(s)
    ensures var st := ScanText(Scan(NONE, d, false), s); st.quote == NONE && !st.escaped && LeftOpen(d, s, st.depth)
    decreases |s|
  {
    if s != [] {
      var init, c := s[..|s| - 1], s[|s| - 1];
      assert s == init + [c] && c in s;
      PlainTextCountsBraces(d, init);
      ScanSnoc(Scan(NONE, d, false), init, c);
      LeftOpenSnoc(d, init, ScanText(Scan(NONE, d, false), init).depth, c);
    } else {
      assert s[0..] == [];
    }
  }

  /* ---- Escapes and quotes ---- */

  predicate IsQuote(c: char) {
    c == '"' || c == '\''
  }

  /** Outside and inside quotes a backslash takes the next byte with it, whatever that is. */
  lemma {:induction false} EscapeIsNeutral(st: Scan, c: char)
    requires !st.escaped
    ensures ScanText(st, ['\\', c]) == st
  {
    assert ['\\', c] == ['\\'] + [c];
    ScanConcat(st, ['\\'], [c]);
    ScanSnoc(st, [], '\\');
    assert ['\\'] == [] + ['\\'];
    ScanSnoc(Scan(st.quote, st.depth, true), [], c);
    assert [c] == [] + [c];
  }

  /** Between its quotes a string has neither its own quote nor a dangling backslash, except after a backslash. */
  predicate Body(q: char, s: string)
    decreases |s|
  {
    s == [] ||
    (if s[0] == '\\' then |s| >= 2 && Body(q, s[2..]) else s[0] != q && Body(q, s[1..]))
  }

  lemma {:induction false} SimpleBody(q: char, s: string)
    requires q !in s && '\\' !in s
    ensures Body(q, s)
    decreases |s|
  {
    if s != [] { SimpleBody(q, s[1..]); }
  }

  /** Inside a quote everything else is text: braces and the other quote too. */
  lemma {:induction false} BodyIsText(q: char, d: nat, s: string)
    requires IsQuote(q) && Body(q, s)
    ensures ScanText(Scan(q, d, false), s) == Scan(q, d, false)
    decreases |s|
  {
    if s != [] {
      if s[0] == '\\' {
        assert s == [s[0], s[1]] + s[2..];
        ScanConcat(Scan(q, d, false), [s[0], s[1]], s[2..]);
        EscapeIsNeutral(Scan(q, d, false), s[1]);
        BodyIsText(q, d, s[2..]);
      } else {
        BodyIsText(q, d, s[1..]);
      }
    }
  }

  lemma QuoteOpens(q: char, d: nat)
    requires IsQuote(q)
    ensures ScanText(Scan(NONE, d, false), [q]) == Scan(q, d, false)
    ensures ScanText(Scan(q, d, false), [q]) == Scan(NONE, d, false)
  {
    assert [q] == [] + [q];
    ScanSnoc(Scan(NONE, d, false), [], q);
    ScanSnoc(Scan(q, d, false), [], q);
  }

  /* ---- The lexical structure of a script ---- */

  /** A byte that is neither quote nor backslash, an escaped byte, or a quoted string. */
  datatype Lexeme = Bare(c: char) | Escape(c: char) | Quoted(q: char, body: string)

  predicate WellFormed(x: Lexeme) {
    match x
    case Bare(c) => !Special(c)
    case Escape(_) => true
    case Quoted(q, body) => IsQuote(q) && Body(q, body)
  }

  predicate AllWellFormed(xs: seq<Lexeme>) {
    forall x :: x in xs ==> WellFormed(x)
  }

  function Write(x: Lexeme): string {
    match x
    case Bare(c) => [c]
    case Escape(c) => ['\\', c]
    case Quoted(q, body) => [q] + body + [q]
  }

  function WriteAll(xs: seq<Lexeme>): string {
    if xs == [] then [] else WriteAll(xs[..|xs| - 1]) + Write(xs[|xs| - 1])
  }

  /** The bytes outside quotes and escapes. */
  function Bares(xs: seq<Lexeme>): string {
    if xs == [] then []
    else Bares(xs[..|xs| - 1]) + (if xs[|xs| - 1].Bare? then [xs[|xs| - 1].c] else [])
  }

  lemma {:induction false} LexemeScan(d: nat, x: Lexeme)
    requires WellFormed(x)
    ensures ScanText(Scan(NONE, d, false), Write(x)) ==
      (if x.Bare? then ScanText(Scan(NONE, d, false), [x.c]) else Scan(NONE, d, false))
  {
    match x {
      case Bare(_) =>
      case Escape(c) => EscapeIsNeutral(Scan(NONE, d, false), c);
      case Quoted(q, body) =>
        QuoteOpens(q, d);
        BodyIsText(q, d, body);
        ScanConcat(Scan(NONE, d, false), [q], body);
        ScanConcat(Scan(NONE, d, false), [q] + body, [q]);
    }
  }

  lemma BareStays(d: nat, c: char)
    requires !Special(c)
    ensures var st := ScanText(Scan(NONE, d, false), [c]); st.quote == NONE && !st.escaped
  {
    PlainTextCountsBraces(d, [c]);
  }

  /**
    The scanner ignores quoted strings and escaped bytes: after a script made of lexemes it is outside quotes,
    and the open braces are those that the bare bytes leave open.
   */
  lemma {:induction false} LexemesScan(d: nat, xs: seq<Lexeme>)
    requires AllWellFormed(xs)
    ensures var st := ScanText(Scan(NONE, d, false), WriteAll(xs));
      st == ScanText(Scan(NONE, d, false), Bares(xs)) && st.quote == NONE && !st.escaped &&
      Plain(Bares(xs)) && LeftOpen(d, Bares(xs), st.depth)
    decreases |xs|
  {
    if xs != [] {
      var init, x := xs[..|xs| - 1], xs[|xs| - 1];
      LexemesScan(d, init);
      var st := ScanText(Scan(NONE, d, false), WriteAll(init));
      ScanConcat(Scan(NONE, d, false), WriteAll(init), Write(x));
      LexemeScan(st.depth, x);
      if x.Bare? {
        ScanConcat(Scan(NONE, d, false), Bares(init), [x.c]);
      } else {
        assert Bares(xs) == Bares(init);
      }
    }
    PlainTextCountsBraces(d, Bares(xs));
  }

  lemma {:induction false} BodySnoc(q: char, s: string, t: string)
    requires Body(q, s) && ((|t| == 1 && t[0] != q && t[0] != '\\') || (|t| == 2 && t[0] == '\\'))
    ensures Body(q, s + t)
    decreases |s|
  {
    if s == [] {
      assert s + t == t;
      assert t[|t|..] == [];
    } else if s[0] == '\\' {
      assert (s + t)[2..] == s[2..] + t;
      BodySnoc(q, s[2..], t);
    } else {
      assert (s + t)[1..] == s[1..] + t;
      BodySnoc(q, s[1..], t);
    }
  }

  /** What the text read so far looks like, given where the scanner is. */
  ghost predicate ReadAs(s: string, st: Scan, xs: seq<Lexeme>, body: string) {
    var esc := if st.escaped then "\\" else "";
    if st.quote == NONE then s == WriteAll(xs) + esc
    else Body(st.quote, body) && s == (WriteAll(xs) + [st.quote] + body) + esc
  }

  lemma {:induction false} WriteSnoc(xs: seq<Lexeme>, x: Lexeme)
    requires AllWellFormed(xs) && WellFormed(x)
    ensures AllWellFormed(xs + [x]) && WriteAll(xs + [x]) == WriteAll(xs) + Write(x)
  {
    assert (xs + [x])[..|xs|] == xs;
  }

  lemma {:induction false} ReadOutside(init: string, c: char, st: Scan, xs: seq<Lexeme>) returns (ys: seq<Lexeme>)
    requires st.quote == NONE && AllWellFormed(xs) && ReadAs(init, st, xs, "")
    ensures AllWellFormed(ys) && ReadAs(init + [c], Advance(st, c), ys, "")
  {
    if st.escaped {
      ys := xs + [Escape(c)];
      WriteSnoc(xs, Escape(c));
      assert init + [c] == WriteAll(xs) + ['\\', c] == WriteAll(ys) + "";
    } else if Special(c) {
      ys := xs;
      assert init + [c] == WriteAll(xs) + [c] == WriteAll(xs) + [c] + "" + "";
    } else {
      ys := xs + [Bare(c)];
      WriteSnoc(xs, Bare(c));
      assert init + [c] == WriteAll(ys) + "";
    }
  }

  lemma Grows(a: string, body: string, t: string)
    ensures a + (body + t) == a + body + t
  {
  }

  lemma Wrapped(a: string, q: char, body: string)
    ensures a + ([q] + body + [q]) == a + [q] + body + [q]
  {
  }

  lemma {:induction false} Closes(xs: seq<Lexeme>, q: char, body: string)
    requires AllWellFormed(xs) && IsQuote(q) && Body(q, body)
    ensures var ys := xs + [Quoted(q, body)]; AllWellFormed(ys) && WriteAll(ys) == WriteAll(xs) + [q] + body + [q]
  {
    WriteSnoc(xs, Quoted(q, body));
    Wrapped(WriteAll(xs), q, body);
  }

  /** Within a string that is still open. */
  lemma {:induction false} ReadInside(init: string, c: char, st: Scan, xs: seq<Lexeme>, body: string)
      returns (ys: seq<Lexeme>, more: string)
    requires IsQuote(st.quote) && AllWellFormed(xs) && ReadAs(init, st, xs, body)
    ensures AllWellFormed(ys) && ReadAs(init + [c], Advance(st, c), ys, more)
  {
    var q := st.quote;
    var text := WriteAll(xs) + [q] + body;
    ys, more := xs, body;
    if st.escaped {
      more := body + ['\\', c];
      BodySnoc(q, body, ['\\', c]);
      Grows(WriteAll(xs) + [q], body, ['\\', c]);
      assert init + [c] == text + ['\\', c];
    } else {
      assert init == text;
      if c == '\\' {
      } else if c == q {
        ys := xs + [Quoted(q, body)];
        Closes(xs, q, body);
      } else {
        more := body + [c];
        BodySnoc(q, body, [c]);
        Grows(WriteAll(xs) + [q], body, [c]);
      }
    }
  }

  /** Every text is read as lexemes, followed by what has been read of an open string or escape. */
  lemma {:induction false} ReadText(s: string) returns (xs: seq<Lexeme>, body: string)
    ensures AllWellFormed(xs) && ReadAs(s, ScanText(START, s), xs, body)
    decreases |s|
  {
    if s == [] {
      xs, body := [], "";
    } else {
      var init, c := s[..|s| - 1], s[|s| - 1];
      assert s == init + [c];
      xs, body := ReadText(init);
      ScanSnoc(START, init, c);
      ScanProper(START, init);
      var st := ScanText(START, init);
      if st.quote == NONE {
        xs := ReadOutside(init, c, st, xs);
        body := "";
      } else {
        xs, body := ReadInside(init, c, st, xs, body);
      }
    }
  }

  /** Made of lexemes whose bare braces are all closed; a backslash at the very end escapes nothing. */
  ghost predicate Complete(s: string, xs: seq<Lexeme>) {
    AllWellFormed(xs) && (s == WriteAll(xs) || s == WriteAll(xs) + "\\") && LeftOpen(0, Bares(xs), 0)
  }

  lemma LeftOpenUnique(start: nat, s: string, d: nat, e: nat)
    requires LeftOpen(start, s, d) && LeftOpen(start, s, e)
    ensures d == e
  {
  }

  lemma {:induction false} BalancedIsComplete(s: string) returns (xs: seq<Lexeme>)
    requires Balanced(ScanText(START, s))
    ensures Complete(s, xs)
  {
    var body;
    xs, body := ReadText(s);
    LexemesScan(0, xs);
    if ScanText(START, s).escaped {
      ScanSnoc(START, WriteAll(xs), '\\');
      assert s == WriteAll(xs) + ['\\'];
    }
  }

  lemma {:induction false} CompleteIsBalanced(s: string, xs: seq<Lexeme>)
    requires Complete(s, xs)
    ensures Balanced(ScanText(START, s))
  {
    LexemesScan(0, xs);
    LeftOpenUnique(0, Bares(xs), ScanText(START, WriteAll(xs)).depth, 0);
    if s != WriteAll(xs) {
      ScanSnoc(START, WriteAll(xs), '\\');
      assert s == WriteAll(xs) + ['\\'];
    }
  }

  /** The scanner ends outside quotes and braces exactly on such texts. */
  lemma BalancedExactly(s: string)
    ensures Balanced(ScanText(START, s)) <==> exists xs :: Complete(s, xs)
  {
    if Balanced(ScanText(START, s)) { var xs := BalancedIsComplete(s); }
    if xs :| Complete(s, xs) { CompleteIsBalanced(s, xs); }
  }

  /** A script is refused unless its normalised text consists of lexemes whose bare braces are all closed. */
  lemma AcceptedExactly(script: string)
    ensures Statements(script).Ok? <==> exists xs :: Complete(ReplaceCr(ReplaceCrLf(script)), xs)
  {
    RefusedIffUnbalanced(script);
    BalancedExactly(ReplaceCr(ReplaceCrLf(script)));
  }

  /* ---- Where statements end ---- */

  /** The line ends in a backslash, apart from blanks and tabs. */
  ghost predicate Continues(line: string) {
    exists k :: 0 <= k < |line| && line[k] == '\\' && forall j :: k < j < |line| ==> line[j] == ' ' || line[j] == '\t'
  }

  lemma {:induction false} TrimBlanksCuts(line: string)
    ensures var t := TrimBlanks(line);
      |t| <= |line| && t == line[..|t|] && (forall j :: |t| <= j < |line| ==> line[j] == ' ' || line[j] == '\t') &&
      (t != [] ==> t[|t| - 1] != ' ' && t[|t| - 1] != '\t')
    decreases |line|
  {
    if line != [] && (line[|line| - 1] == ' ' || line[|line| - 1] == '\t') {
      TrimBlanksCuts(line[..|line| - 1]);
      var t := TrimBlanks(line);
      assert t == line[..|line| - 1][..|t|] == line[..|t|];
      forall j | |t| <= j < |line| ensures line[j] == ' ' || line[j] == '\t' {
        if j < |line| - 1 { assert line[j] == line[..|line| - 1][j]; }
      }
    }
  }

  lemma ContinuesExactly(line: string)
    ensures HasSuffix(TrimBlanks(line), "\\") <==> Continues(line)
  {
    TrimBlanksCuts(line);
    var t := TrimBlanks(line);
    if HasSuffix(t, "\\") {
      assert t[|t| - 1] == t[|t| - 1..][0];
      assert line[|t| - 1] == '\\';
    }
    if Continues(line) {
      var k :| 0 <= k < |line| && line[k] == '\\' && forall j :: k < j < |line| ==> line[j] == ' ' || line[j] == '\t';
      assert t[|t| - 1] == line[|t| - 1];
      assert t[|t| - 1..] == "\\";
    }
  }

  /** A statement may end after these lines: no open quote or brace, and the last line does not continue. */
  ghost predicate Ends(lines: seq<string>)
    requires lines != []
  {
    (exists xs :: Complete(Join(lines, '\n'), xs)) && !Continues(lines[|lines| - 1])
  }

  ghost predicate NoEarlierEnd(lines: seq<string>, n: nat)
    requires n <= |lines|
  {
    forall k :: 0 < k < n ==> !Ends(lines[..k])
  }

  lemma OpenExactly(lines: seq<string>)
    requires lines != []
    ensures Open(lines[|lines| - 1], ScanLines(START, lines)) <==> !Ends(lines)
  {
    ScanLinesIsScanText(START, lines);
    ContinuesExactly(lines[|lines| - 1]);
    BalancedExactly(Join(lines, '\n'));
  }

  lemma SameAfter(open: seq<string>, st: Scan, line: string)
    requires if open == [] then Balanced(st) else ScanLines(START, open) == st
    ensures ScanLines(START, open + [line]) == AfterLine(st, line)
  {
    ScanLinesSnoc(open, line);
  }

  /** The lines are grouped exactly where a statement can first end. */
  lemma {:induction false} GroupsEndFirst(lines: seq<string>, open: seq<string>, st: Scan)
    requires if open == [] then Balanced(st) else ScanLines(START, open) == st
    requires NoEarlierEnd(open, |open|) && (open != [] ==> !Ends(open))
    ensures var g := GroupLines(lines, open, st);
      (forall x :: x in g.groups ==> x != [] && Ends(x) && NoEarlierEnd(x, |x|)) &&
      NoEarlierEnd(g.open, |g.open|) && (g.open != [] ==> !Ends(g.open))
    decreases |lines|
  {
    if lines != [] {
      var more := open + [lines[0]];
      SameAfter(open, st, lines[0]);
      OpenExactly(more);
      forall k | 0 < k < |more| ensures !Ends(more[..k]) {
        assert more[..k] == open[..k];
        if k == |open| { assert open[..k] == open; }
      }
      if Open(lines[0], AfterLine(st, lines[0])) {
        GroupsEndFirst(lines[1..], more, AfterLine(st, lines[0]));
      } else {
        GroupsEndFirst(lines[1..], [], AfterLine(st, lines[0]));
      }
    }
  }

  /**
    The statements of a script: its lines, cut wherever a statement can first end, without the blank ones.
    With GroupsPartition this determines them.
   */
  lemma StatementsEndFirst(script: string) returns (groups: seq<seq<string>>, open: seq<string>)
    requires Statements(script).Ok?
    ensures Flatten(groups) + open == Lines(script)
    ensures forall x :: x in groups ==> x != [] && Ends(x) && NoEarlierEnd(x, |x|)
    ensures NoEarlierEnd(open, |open|) && (open != [] ==> !Ends(open))
    ensures Statements(script).value == NonBlank(groups + [open])
  {
    var g := GroupLines(Lines(script), [], START);
    GroupsPartition(Lines(script), [], START);
    GroupsEndFirst(Lines(script), [], START);
    groups, open := g.groups, g.open;
  }

  /* ---- Blocks over several lines ---- */

  lemma {:induction false} ReplaceKeeps(s: string)
    requires '\r' !in s
    ensures ReplaceCrLf(s) == s && ReplaceCr(s) == s
  {
    if s != [] { ReplaceKeeps(s[1..]); }
  }

  /** The first `k` parts of a split text are the text up to its `k`-th separator. */
  lemma {:induction false} SplitPrefix(s: string, sep: char, k: nat) returns (p: nat)
    requires 0 < k < |Split(s, sep)|
    ensures p < |s| && s[p] == sep && Join(Split(s, sep)[..k], sep) == s[..p]
    decreases |s|
  {
    var all, rest := Split(s, sep), Split(s[1..], sep);
    if s[0] == sep {
      if k == 1 {
        p := 0;
        assert all[..1] == [[]];
      } else {
        var m := SplitPrefix(s[1..], sep, k - 1);
        p := m + 1;
        assert all[..k] == [[]] + rest[..k - 1];
        assert all[..k][1..] == rest[..k - 1];
        assert s[..p] == [sep] + s[1..][..m];
      }
    } else {
      var m := SplitPrefix(s[1..], sep, k);
      p := m + 1;
      assert all[..k] == [[s[0]] + rest[0]] + rest[1..k];
      assert all[..k][1..] == rest[..k][1..];
      assert s[..p] == [s[0]] + s[1..][..m];
    }
  }

  /** A quote or brace is open after each of the first `n` lines. */
  ghost predicate OpenThrough(lines: seq<string>, n: nat)
    requires n <= |lines|
  {
    forall j :: 0 < j <= n ==> !Balanced(ScanText(START, Join(lines[..j], '\n')))
  }

  /** While no line ends a statement, all lines are in the open group. */
  lemma {:induction false} StillOpen(lines: seq<string>, k: nat)
    requires k <= |lines| && OpenThrough(lines, k)
    ensures GroupLines(lines[..k], [], START) == Grouping([], lines[..k], ScanLines(START, lines[..k]))
  {
    if k > 0 {
      StillOpen(lines, k - 1);
      assert lines[..k] == lines[..k - 1] + [lines[k - 1]];
      GroupSnoc(lines[..k - 1], ScanLines(START, lines[..k - 1]), lines[k - 1]);
      ScanLinesSnoc(lines[..k - 1], lines[k - 1]);
      ScanLinesIsScanText(START, lines[..k]);
    }
  }

  /** The last line closes the group, or leaves it open by a backslash; either way it is the only one. */
  lemma LastLine(lines: seq<string>, st: Scan, line: string, all: seq<string>)
    requires GroupLines(lines, [], START) == Grouping([], lines, st) && all == lines + [line]
    ensures var g := GroupLines(all, [], START); NonBlank(g.groups + [g.open]) == NonBlank([all])
  {
    GroupSnoc(lines, st, line);
    NonBlankSnoc([all], []);
    assert Join([], '\n') == "" && TrimSpace("") == [];
    assert [] + [all] == [all];
  }

  /** Lines that leave a quote or brace open up to the last one, which closes it, are one statement. */
  lemma {:induction false} OneGroupOfLines(lines: seq<string>)
    requires lines != [] && OpenThrough(lines, |lines| - 1)
    ensures var g := GroupLines(lines, [], START); NonBlank(g.groups + [g.open]) == NonBlank([lines])
  {
    var n := |lines| - 1;
    var init := lines[..n];
    var st := ScanLines(START, init);
    assert lines == init + [lines[n]];
    assert GroupLines(init, [], START) == Grouping([], init, st) by { StillOpen(lines, n); }
    LastLine(init, st, lines[n], lines);
  }

  /** Text that is inside a quote or brace at each of its newlines, and closed at its end, is one statement. */
  lemma {:induction false} OneStatement(text: string)
    requires '\r' !in text && TrimSpace(text) != []
    requires forall p :: 0 <= p < |text| && text[p] == '\n' ==> !Balanced(ScanText(START, text[..p]))
    requires Balanced(ScanText(START, text))
    ensures Statements(text) == Ok([text])
  {
    ReplaceKeeps(text);
    RefusedIffUnbalanced(text);
    var lines := Split(text, '\n');
    JoinSplit(text, '\n');
    forall j | 0 < j <= |lines| - 1 ensures !Balanced(ScanText(START, Join(lines[..j], '\n'))) {
      var p := SplitPrefix(text, '\n', j);
    }
    OneGroupOfLines(lines);
    SingleStatement(lines);
  }

  lemma SingleStatement(lines: seq<string>)
    requires TrimSpace(Join(lines, '\n')) != []
    ensures NonBlank([lines]) == [Join(lines, '\n')]
  {
    assert [lines][1..] == [];
  }

  lemma NetConcat(a: string, b: string)
    ensures Net(a + b) == Net(a) + Net(b)
  {
  }

  /** A `{ ... }` block, whatever lines it spans, is one statement with what stands around it. */
  lemma BraceBlockIsOneStatement(text: string)
    requires Plain(text) && '\r' !in text && TrimSpace(text) != []
    requires forall p :: 0 <= p <= |text| ==> Net(text[..p]) >= 0
    requires forall p :: 0 <= p < |text| && text[p] == '\n' ==> Net(text[..p]) > 0
    requires Net(text) == 0
    ensures Statements(text) == Ok([text])
  {
    forall p | 0 <= p < |text| && text[p] == '\n' ensures !Balanced(ScanText(START, text[..p])) {
      PlainTextCountsBraces(0, text[..p]);
    }
    PlainTextCountsBraces(0, text);
    forall k | 0 <= k <= |text| ensures Net(text[k..]) <= 0 {
      assert text == text[..k] + text[k..];
      NetConcat(text[..k], text[k..]);
    }
    OneStatement(text);
  }

  /** No quote, brace, backslash or line end. */
  predicate Simple(s: string) {
    forall c :: c in s ==> !Special(c) && c != '{' && c != '}' && c != '\n' && c != '\r'
  }

  lemma {:induction false} SimpleStays(s: string)
    requires Simple(s)
    ensures ScanText(START, s) == START
    decreases |s|
  {
    if s != [] {
      assert s[0] in s;
      SimpleStays(s[1..]);
    }
  }

  lemma {:induction false} BodyStaysOpen(q: char, s: string, k: nat)
    requires IsQuote(q) && Body(q, s) && k <= |s|
    ensures ScanText(Scan(q, 0, false), s[..k]).quote == q
    decreases |s|
  {
    if k > 0 {
      if s[0] != '\\' {
        assert s[..k][1..] == s[1..][..k - 1];
        BodyStaysOpen(q, s[1..], k - 1);
      } else if k == 1 {
        assert s[..1][1..] == [];
      } else {
        assert s[..k] == [s[0], s[1]] + s[2..][..k - 2];
        ScanConcat(Scan(q, 0, false), [s[0], s[1]], s[2..][..k - 2]);
        EscapeIsNeutral(Scan(q, 0, false), s[1]);
        BodyStaysOpen(q, s[2..], k - 2);
      }
    }
  }

  lemma QuotedBlockCloses(a: string, q: char, body: string, b: string)
    requires IsQuote(q) && Body(q, body) && Simple(a) && Simple(b)
    ensures ScanText(START, a + [q] + body + [q] + b) == START
  {
    SimpleStays(a);
    SimpleStays(b);
    QuoteOpens(q, 0);
    BodyIsText(q, 0, body);
    ScanConcat(START, a, [q]);
    ScanConcat(START, a + [q], body);
    ScanConcat(START, a + [q] + body, [q]);
    ScanConcat(START, a + [q] + body + [q], b);
  }

  lemma QuotedBlockIsOpen(a: string, q: char, body: string, b: string, p: nat)
    requires IsQuote(q) && Body(q, body) && Simple(a) && Simple(b)
    requires var text := a + [q] + body + [q] + b; p < |text| && text[p] == '\n'
    ensures !Balanced(ScanText(START, (a + [q] + body + [q] + b)[..p]))
  {
    NewlineInBody(a, q, body, b, p);
    assert (a + [q] + body + [q] + b)[..p] == a + [q] + body[..p - |a| - 1];
    OpenInBody(a, q, body, p - |a| - 1);
  }

  /** A quoted string, whatever lines it spans and braces it has, is one statement with what stands around it. */
  lemma {:induction false} QuotedBlockIsOneStatement(a: string, q: char, body: string, b: string)
    requires IsQuote(q) && Body(q, body) && '\r' !in body && Simple(a) && Simple(b)
    ensures var text := a + [q] + body + [q] + b; Statements(text) == Ok([text])
  {
    var text := a + [q] + body + [q] + b;
    QuotedBlockCloses(a, q, body, b);
    forall p | 0 <= p < |text| && text[p] == '\n' ensures !Balanced(ScanText(START, text[..p])) {
      QuotedBlockIsOpen(a, q, body, b, p);
    }
    assert !IsSpace(q) && text[|a|] == q;
    TrimSpaceCuts(text);
    OneStatement(text);
  }

  lemma OpenInBody(a: string, q: char, body: string, k: nat)
    requires IsQuote(q) && Body(q, body) && Simple(a) && k <= |body|
    ensures !Balanced(ScanText(START, a + [q] + body[..k]))
  {
    SimpleStays(a);
    QuoteOpens(q, 0);
    ScanConcat(START, a, [q]);
    ScanConcat(START, a + [q], body[..k]);
    BodyStaysOpen(q, body, k);
  }

  lemma NewlineInBody(a: string, q: char, body: string, b: string, p: nat)
    requires IsQuote(q) && Simple(a) && Simple(b)
    requires var text := a + [q] + body + [q] + b; p < |text| && text[p] == '\n'
    ensures |a| < p <= |a| + |body|
  {
    var text := a + [q] + body + [q] + b;
    forall i | 0 <= i < |a| ensures text[i] == a[i] != '\n' { assert a[i] in a; }
    forall i | 0 <= i < |b| ensures text[|a| + |body| + 2 + i] == b[i] != '\n' { assert b[i] in b; }
    assert p > |a| + |body| + 1 ==> p == |a| + |body| + 2 + (p - |a| - |body| - 2);
  }

  /* ---- Line ends ---- */

  predicate OneLine(s: string) {
    '\r' !in s && '\n' !in s
  }

  lemma {:induction false} CrLfAfter(line: string, more: string)
    requires OneLine(line)
    ensures ReplaceCrLf(line + more) == line + ReplaceCrLf(more)
    decreases |line|
  {
    if line == [] {
      assert line + more == more;
    } else {
      var s, rest := line + more, line[1..];
      assert line[0] in line && s[0] == line[0] && s[1..] == rest + more;
      CrLfAfter(rest, more);
      assert [line[0]] + (rest + ReplaceCrLf(more)) == line + ReplaceCrLf(more);
    }
  }

  lemma EndReplaced(end: string, rest: string)
    requires end == "\n" || end == "\r\n" || (end == "\r" && (rest == "" || rest[0] != '\n'))
    ensures ReplaceCrLf(end + rest) == (if end == "\r" then "\r" else "\n") + ReplaceCrLf(rest)
  {
    var s := end + rest;
    if end == "\r\n" { assert s[2..] == rest; } else { assert s[1..] == rest; }
  }

  lemma ReplaceFirst(line: string, end: string, rest: string)
    requires OneLine(line) && (end == "\n" || end == "\r\n" || (end == "\r" && (rest == "" || rest[0] != '\n')))
    ensures ReplaceCrLf(line + end + rest) == line + (if end == "\r" then "\r" else "\n") + ReplaceCrLf(rest)
  {
    assert line + end + rest == line + (end + rest);
    CrLfAfter(line, end + rest);
    EndReplaced(end, rest);
  }

  lemma {:induction false} ReplaceCrConcat(a: string, b: string)
    ensures ReplaceCr(a + b) == ReplaceCr(a) + ReplaceCr(b)
  {
    if a == [] {
      assert a + b == b;
    } else {
      assert (a + b)[1..] == a[1..] + b;
      ReplaceCrConcat(a[1..], b);
    }
  }

  lemma {:induction false} OneLineStays(s: string)
    requires OneLine(s)
    ensures ReplaceCr(s) == s && ReplaceCrLf(s) == s
  {
    if s != [] {
      assert s[0] in s && s == [s[0]] + s[1..];
      OneLineStays(s[1..]);
    }
  }

  /** A line ends at a newline, a carriage return, or the two together; a text without either is one line. */
  lemma LinesEnd(line: string, end: string, rest: string)
    requires OneLine(line) && (end == "\n" || end == "\r\n" || (end == "\r" && (rest == "" || rest[0] != '\n')))
    ensures Lines(line + end + rest) == [line] + Lines(rest) && Lines(line) == [line]
  {
    var mid := if end == "\r" then "\r" else "\n";
    var more := ReplaceCrLf(rest);
    ReplaceFirst(line, end, rest);
    ReplaceCrConcat(line + mid, more);
    ReplaceCrConcat(line, mid);
    OneLineStays(line);
    assert ReplaceCr(mid) == "\n" by { assert mid[1..] == []; }
    SplitAt(line, ReplaceCr(more), '\n');
    SplitOne(line, '\n');
  }
}
