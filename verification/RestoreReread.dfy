/**
  A chunk is sent as text, and the device groups its lines again.  When does it find the statements
  the chunk was made of?
 */
module RestoreReread {
  import opened Text
  import opened RestoreScript
  import opened RestoreChunks
  import opened RestoreMeaning

  /** The statements of a chunk, one after the other. */
  function Glue(texts: seq<string>): string {
    if texts == [] then [] else Newlined(texts[0]) + Glue(texts[1..])
  }

  lemma {:induction false} RenderIsGlue(pieces: seq<Piece>)
    ensures Render(pieces) == Glue(Texts(pieces))
  {
    if pieces != [] { RenderIsGlue(pieces[1..]); }
  }

  predicate EndsInNewline(s: string) {
    HasSuffix(s, "\n")
  }

  /** A non-blank text whose lines are one statement. */
  predicate Closed(s: string) {
    '\r' !in s && TrimSpace(s) != [] && OneGroup(Split(s, '\n'))
  }

  predicate Solid(s: string) {
    Closed(s) && !EndsInNewline(s)
  }

  /** All but the last are solid, and the last is closed. */
  predicate Rereadable(texts: seq<string>) {
    texts != [] && Closed(texts[|texts| - 1]) && forall i :: 0 <= i < |texts| - 1 ==> Solid(texts[i])
  }

  /* ---- Lines of a text ---- */

  lemma {:induction false} NoCarriageReturn(s: string)
    requires '\r' !in s
    ensures ReplaceCrLf(s) == s && ReplaceCr(s) == s
  {
    if s != [] {
      NoCarriageReturn(s[1..]);
      assert s[0] != '\r' && s == [s[0]] + s[1..];
    }
  }

  lemma {:induction false} GlueFree(texts: seq<string>)
    requires forall t :: t in texts ==> '\r' !in t
    ensures '\r' !in Glue(texts)
  {
    if texts != [] { GlueFree(texts[1..]); }
  }

  /* ---- Rereadable texts are read back ---- */

  lemma {:induction false} NonBlankConcat(a: seq<seq<string>>, b: seq<seq<string>>)
    ensures NonBlank(a + b) == NonBlank(a) + NonBlank(b)
  {
    if a == [] {
      assert a + b == b;
    } else {
      assert (a + b)[1..] == a[1..] + b;
      NonBlankConcat(a[1..], b);
    }
  }

  /** A closed group ends balanced. */
  lemma {:induction false} ClosedEndsBalanced(lines: seq<string>, open: seq<string>, st: Scan)
    requires lines != [] && GroupLines(lines, open, st).open == []
    ensures Balanced(GroupLines(lines, open, st).st)
    decreases |lines|
  {
    var after := AfterLine(st, lines[0]);
    if Open(lines[0], after) {
      if |lines| > 1 { ClosedEndsBalanced(lines[1..], open + [lines[0]], after); }
    } else {
      if |lines| > 1 { ClosedEndsBalanced(lines[1..], [], after); }
    }
  }

  /** The groups of a closed text followed by more lines. */
  lemma ClosedThen(t: string, more: seq<string>)
    requires Closed(t) && more != []
    ensures var g := GroupLines(more, [], START);
      GroupLines(Split(t, '\n') + more, [], START) == Grouping([Split(t, '\n')] + g.groups, g.open, g.st)
  {
    var lines := Split(t, '\n');
    GroupsAppend(lines, more, [], START);
    ClosedEndsBalanced(lines, [], START);
    var st := GroupLines(lines, [], START).st;
    assert AfterLine(st, more[0]) == AfterLine(START, more[0]);
    assert GroupLines(more, [], st) == GroupLines(more, [], START);
  }

  predicate ReadsAs(lines: seq<string>, texts: seq<string>) {
    var g := GroupLines(lines, [], START);
    g.open == [] && Balanced(g.st) && NonBlank(g.groups) == texts
  }

  lemma NonBlankOne(t: string)
    requires TrimSpace(t) != []
    ensures NonBlank([Split(t, '\n')]) == [t]
  {
    JoinSplit(t, '\n');
    assert [Split(t, '\n')][1..] == [];
  }

  lemma ReadsCons(t: string, more: seq<string>, texts: seq<string>)
    requires Closed(t) && more != [] && ReadsAs(more, texts)
    ensures ReadsAs(Split(t, '\n') + more, [t] + texts)
  {
    ClosedThen(t, more);
    NonBlankOne(t);
    NonBlankConcat([Split(t, '\n')], GroupLines(more, [], START).groups);
  }

  lemma BlankLineReadsAsNothing()
    ensures ReadsAs([""], [])
  {
    EmptyLineCloses(START);
    assert [""][1..] == [];
    assert Join([""], '\n') == "";
    assert [[""]][1..] == [];
    TrimSpaceCuts("");
    assert NonBlank([[""]]) == [];
  }

  lemma ClosedReads(t: string)
    requires Closed(t)
    ensures ReadsAs(Split(t, '\n'), [t])
  {
    NonBlankOne(t);
    ClosedEndsBalanced(Split(t, '\n'), [], START);
  }

  lemma GlueSolid(texts: seq<string>)
    requires texts != [] && !EndsInNewline(texts[0])
    ensures Split(Glue(texts), '\n') == Split(texts[0], '\n') + Split(Glue(texts[1..]), '\n')
  {
    assert Glue(texts) == texts[0] + ['\n'] + Glue(texts[1..]);
    SplitConcat(texts[0], Glue(texts[1..]), '\n');
  }

  lemma {:induction false} RereadableReads(texts: seq<string>)
    requires Rereadable(texts)
    ensures ReadsAs(Split(Glue(texts), '\n'), texts)
  {
    var t, rest := texts[0], texts[1..];
    assert [t] + rest == texts;
    if EndsInNewline(t) {
      assert rest == [] && Glue(texts) == t;
      ClosedReads(t);
    } else {
      GlueSolid(texts);
      if rest == [] {
        BlankLineReadsAsNothing();
      } else {
        RestRereadable(texts);
        RereadableReads(rest);
      }
      ReadsCons(t, Split(Glue(rest), '\n'), rest);
    }
  }

  lemma RestRereadable(texts: seq<string>)
    requires Rereadable(texts) && |texts| > 1
    ensures Rereadable(texts[1..]) && Solid(texts[0])
  {
    var rest := texts[1..];
    assert rest[|rest| - 1] == texts[|texts| - 1];
    assert forall i :: 0 <= i < |rest| - 1 ==> rest[i] == texts[i + 1];
  }

  /* ---- Only rereadable texts are read back ---- */

  function TotalLines(texts: seq<string>): nat {
    if texts == [] then 0 else |Split(texts[0], '\n')| + TotalLines(texts[1..])
  }

  function Endings(texts: seq<string>): nat {
    if texts == [] then 0 else (if EndsInNewline(texts[0]) then 1 else 0) + Endings(texts[1..])
  }

  function BlankLines(groups: seq<seq<string>>): nat {
    if groups == [] then 0
    else (if TrimSpace(Join(groups[0], '\n')) == [] then |groups[0]| else 0) + BlankLines(groups[1..])
  }

  /** Every text that already ends in a newline gets none of its own. */
  lemma {:induction false} GlueLines(texts: seq<string>)
    ensures |Split(Glue(texts), '\n')| == TotalLines(texts) + 1 - Endings(texts)
  {
    if texts != [] {
      var t, rest := texts[0], Glue(texts[1..]);
      GlueLines(texts[1..]);
      if EndsInNewline(t) {
        var u := t[..|t| - 1];
        assert t == u + ['\n'] && t == u + ['\n'] + [] && t + rest == u + ['\n'] + rest;
        SplitConcat(u, [], '\n');
        SplitConcat(u, rest, '\n');
      } else {
        assert Glue(texts) == t + ['\n'] + rest;
        SplitConcat(t, rest, '\n');
      }
    }
  }

  predicate Lined(group: seq<string>) {
    group != [] && forall line :: line in group ==> '\n' !in line
  }

  lemma {:induction false} GroupLineCount(groups: seq<seq<string>>)
    requires forall g :: g in groups ==> Lined(g)
    ensures TotalLines(NonBlank(groups)) + BlankLines(groups) == |Flatten(groups)|
  {
    if groups != [] {
      GroupLineCount(groups[1..]);
      assert groups[0] in groups && Lined(groups[0]);
      SplitJoin(groups[0], '\n');
      var text := Join(groups[0], '\n');
      if TrimSpace(text) != [] {
        assert NonBlank(groups) == [text] + NonBlank(groups[1..]);
        assert NonBlank(groups)[1..] == NonBlank(groups[1..]);
      } else {
        assert NonBlank(groups) == NonBlank(groups[1..]);
      }
    }
  }

  lemma {:induction false} LastIsNotBlank(groups: seq<seq<string>>)
    requires groups != [] && groups[|groups| - 1] != [] && BlankLines(groups) == 0
    ensures var g := groups[|groups| - 1]; var n := NonBlank(groups);
      n != [] && n[|n| - 1] == Join(g, '\n') && TrimSpace(Join(g, '\n')) != []
  {
    if |groups| == 1 {
      assert groups[1..] == [];
    } else {
      LastIsNotBlank(groups[1..]);
    }
  }

  lemma {:induction false} NoEndings(texts: seq<string>, i: nat)
    requires i < |texts| && Endings(texts) <= 1 && EndsInNewline(texts[i])
    ensures forall j :: 0 <= j < |texts| && j != i ==> !EndsInNewline(texts[j])
  {
    if i > 0 {
      NoEndings(texts[1..], i - 1);
      EndingCounts(texts[1..], i - 1);
      forall j | 0 <= j < |texts| && j != i ensures !EndsInNewline(texts[j]) {
        if j > 0 { assert texts[j] == texts[1..][j - 1]; }
      }
    } else {
      forall j | 0 < j < |texts| ensures !EndsInNewline(texts[j]) {
        if EndsInNewline(texts[1..][j - 1]) { EndingCounts(texts[1..], j - 1); }
      }
    }
  }

  lemma {:induction false} EndingCounts(texts: seq<string>, i: nat)
    requires i < |texts| && EndsInNewline(texts[i])
    ensures Endings(texts) >= 1
  {
    if i > 0 { EndingCounts(texts[1..], i - 1); }
  }

  /* ---- Lines have no line ends ---- */

  lemma {:induction false} SplitKeepsFree(s: string, sep: char, c: char)
    requires c !in s
    ensures forall p :: p in Split(s, sep) ==> c !in p
  {
    if s != [] { SplitKeepsFree(s[1..], sep, c); }
  }

  lemma {:induction false} JoinFree(parts: seq<string>, c: char)
    requires c != '\n' && forall p :: p in parts ==> c !in p
    ensures c !in Join(parts, '\n')
  {
    if |parts| > 1 { JoinFree(parts[1..], c); }
  }

  lemma {:induction false} ReplaceCrFree(s: string)
    ensures '\r' !in ReplaceCr(s)
  {
    if s != [] { ReplaceCrFree(s[1..]); }
  }

  lemma LinesAreFree(script: string)
    ensures forall line :: line in Lines(script) ==> '\r' !in line && '\n' !in line
  {
    var s := ReplaceCr(ReplaceCrLf(script));
    ReplaceCrFree(ReplaceCrLf(script));
    SplitKeepsFree(s, '\n', '\r');
    SplitFree(s, '\n');
  }

  lemma {:induction false} FlattenHas(groups: seq<seq<string>>, g: seq<string>)
    requires g in groups
    ensures forall line :: line in g ==> line in Flatten(groups)
  {
    if g != groups[0] { FlattenHas(groups[1..], g); }
  }

  /** Every closed group of a script is a non-empty list of lines that is one group of its own. */
  lemma GroupsOfScript(script: string)
    ensures forall g :: g in GroupLines(Lines(script), [], START).groups ==>
      OneGroup(g) && Lined(g) && '\r' !in Join(g, '\n') && Split(Join(g, '\n'), '\n') == g
  {
    var lines := Lines(script);
    var all := GroupLines(lines, [], START);
    LinesAreFree(script);
    GroupsPartition(lines, [], START);
    GroupsAreGroups(lines, [], START);
    forall g | g in all.groups
      ensures OneGroup(g) && Lined(g) && '\r' !in Join(g, '\n') && Split(Join(g, '\n'), '\n') == g
    {
      FlattenHas(all.groups, g);
      assert forall line :: line in g ==> line in Flatten(all.groups) + all.open;
      JoinFree(g, '\r');
      SplitJoin(g, '\n');
    }
  }

  /** A script that does not stop inside a continuation. */
  predicate Finished(script: string) {
    GroupLines(Lines(script), [], START).open == []
  }

  /** The statements of a finished script are closed. */
  lemma StatementsAreClosed(script: string)
    requires Statements(script).Ok? && Finished(script)
    ensures Statements(script).value == NonBlank(GroupLines(Lines(script), [], START).groups)
    ensures forall s :: s in Statements(script).value ==> Closed(s)
  {
    var g := GroupLines(Lines(script), [], START);
    GroupsOfScript(script);
    var none: seq<seq<string>> := [[]];
    assert NonBlank(none) == [] by { assert Join([], '\n') == ""; TrimSpaceCuts(""); assert none[1..] == []; }
    NonBlankConcat(g.groups, none);
    NonBlankFrom(g.groups);
    forall s | s in Statements(script).value ensures Closed(s) {
      var group :| group in g.groups && s == Join(group, '\n');
    }
  }

  /** The last group ends in an empty line. */
  predicate EndsEmpty(groups: seq<seq<string>>) {
    groups != [] && var g := groups[|groups| - 1]; g != [] && g[|g| - 1] == ""
  }

  /** A text that ends in a newline is finished or refused. */
  lemma NewlineFinishes(script: string, last: nat)
    requires last + 1 == |Lines(script)| && Lines(script)[last] == "" && Statements(script).Ok?
    ensures Finished(script)
    ensures EndsEmpty(GroupLines(Lines(script), [], START).groups)
  {
    var lines := Lines(script);
    assert lines == lines[..last] + [""];
    GroupsSnoc(lines[..last], [], START, "");
    assert TrimBlanks("") == [];
  }

  lemma {:induction false} GlueEnds(texts: seq<string>)
    requires texts != []
    ensures EndsInNewline(Glue(texts))
  {
    if |texts| > 1 { GlueEnds(texts[1..]); }
  }

  lemma NewlineIsLastLine(s: string)
    requires EndsInNewline(s)
    ensures var lines := Split(s, '\n'); lines[|lines| - 1] == ""
  {
    var u := s[..|s| - 1];
    assert s == u + ['\n'] + [];
    SplitConcat(u, [], '\n');
  }

  lemma {:induction false} JoinEnds(group: seq<string>)
    requires |group| > 1 && group[|group| - 1] == ""
    ensures EndsInNewline(Join(group, '\n'))
  {
    if |group| == 2 {
      assert group[1..] == [""];
    } else {
      JoinEnds(group[1..]);
    }
  }

  lemma StatementsAreFree(script: string)
    requires Statements(script).Ok?
    ensures forall s :: s in Statements(script).value ==> '\r' !in s
  {
    var lines := Lines(script);
    var g := GroupLines(lines, [], START);
    LinesAreFree(script);
    GroupsPartition(lines, [], START);
    var groups := g.groups + [g.open];
    forall group | group in groups ensures '\r' !in Join(group, '\n') {
      if group in g.groups { FlattenHas(g.groups, group); }
      assert forall line :: line in group ==> line in Flatten(g.groups) + g.open;
      JoinFree(group, '\r');
    }
    NonBlankFrom(groups);
  }

  lemma GlueLinesAre(texts: seq<string>)
    requires texts != [] && Statements(Glue(texts)) == Ok(texts)
    ensures var lines := Lines(Glue(texts)); lines == Split(Glue(texts), '\n') && lines != [] && lines[|lines| - 1] == ""
  {
    StatementsAreFree(Glue(texts));
    GlueFree(texts);
    NoCarriageReturn(Glue(texts));
    GlueEnds(texts);
    NewlineIsLastLine(Glue(texts));
  }

  /** Counting lines: a newline that no text got, or else one blank line at the end. */
  lemma ReadBackCounts(texts: seq<string>, groups: seq<seq<string>>)
    requires texts != [] && Statements(Glue(texts)) == Ok(texts) && Finished(Glue(texts)) && texts == NonBlank(groups)
    requires groups == GroupLines(Lines(Glue(texts)), [], START).groups
    ensures Endings(texts) + BlankLines(groups) == 1
  {
    GlueLinesAre(texts);
    ScriptLineCount(Glue(texts), groups);
    GlueLines(texts);
  }

  lemma ScriptLineCount(script: string, groups: seq<seq<string>>)
    requires Finished(script) && groups == GroupLines(Lines(script), [], START).groups
    ensures TotalLines(NonBlank(groups)) + BlankLines(groups) == |Lines(script)|
  {
    var lines := Lines(script);
    GroupsOfScript(script);
    GroupsPartition(lines, [], START);
    assert Flatten(groups) + [] == Flatten(groups) && [] + lines == lines;
    GroupLineCount(groups);
  }

  lemma ReadBackIsRereadable(texts: seq<string>)
    requires texts != [] && Statements(Glue(texts)) == Ok(texts)
    ensures Rereadable(texts)
  {
    var groups := GroupLines(Lines(Glue(texts)), [], START).groups;
    GlueLinesAre(texts);
    NewlineFinishes(Glue(texts), |Lines(Glue(texts))| - 1);
    StatementsAreClosed(Glue(texts));
    ReadBackCounts(texts, groups);
    OneEnding(texts, groups);
  }

  lemma OneEnding(texts: seq<string>, groups: seq<seq<string>>)
    requires texts != [] && texts == NonBlank(groups) && Endings(texts) + BlankLines(groups) == 1
    requires EndsEmpty(groups)
    ensures forall i :: 0 <= i < |texts| - 1 ==> !EndsInNewline(texts[i])
  {
    if BlankLines(groups) == 0 {
      LastEnds(groups, texts);
      NoEndings(texts, |texts| - 1);
    } else {
      NoneEnds(texts);
    }
  }

  lemma LastEnds(groups: seq<seq<string>>, texts: seq<string>)
    requires EndsEmpty(groups) && BlankLines(groups) == 0 && texts == NonBlank(groups)
    ensures texts != [] && EndsInNewline(texts[|texts| - 1])
  {
    LastIsNotBlank(groups);
    NonBlankEnds(groups[|groups| - 1]);
  }

  lemma NonBlankEnds(g: seq<string>)
    requires g != [] && g[|g| - 1] == "" && TrimSpace(Join(g, '\n')) != []
    ensures EndsInNewline(Join(g, '\n'))
  {
    LastLineCounts(g);
    JoinEnds(g);
  }

  lemma {:induction false} NoneEnds(texts: seq<string>)
    requires Endings(texts) == 0
    ensures forall i :: 0 <= i < |texts| ==> !EndsInNewline(texts[i])
  {
    if texts != [] {
      NoneEnds(texts[1..]);
      assert forall i :: 0 < i < |texts| ==> texts[i] == texts[1..][i - 1];
    }
  }

  lemma LastLineCounts(g: seq<string>)
    requires g != [] && g[|g| - 1] == "" && TrimSpace(Join(g, '\n')) != []
    ensures |g| > 1
  {
    TrimSpaceCuts("");
  }

  /** A chunk is read back as the statements it was made of exactly when all but the last are solid. */
  lemma RereadExactly(texts: seq<string>)
    requires texts != []
    ensures Statements(Glue(texts)) == Ok(texts) <==> Rereadable(texts)
  {
    if Statements(Glue(texts)) == Ok(texts) {
      ReadBackIsRereadable(texts);
    }
    if Rereadable(texts) {
      GlueFree(texts);
      NoCarriageReturn(Glue(texts));
      RereadableReads(texts);
      StatementsAreClosed(Glue(texts));
    }
  }

  /* ---- Whole scripts ---- */

  /** The device imports chunk after chunk, each from the root menu. */
  function Import(chunks: seq<string>): Result<seq<Effect>> {
    if chunks == [] then Ok([])
    else match Statements(chunks[0])
      case Err(e) => Err(e)
      case Ok(stmts) =>
        match Import(chunks[1..])
        case Err(e) => Err(e)
        case Ok(effects) => Ok(Run("", stmts) + effects)
  }

  predicate SolidPieces(pieces: seq<Piece>) {
    forall p :: p in pieces ==> Solid(p.text)
  }

  predicate Tidy(stmts: seq<string>) {
    forall s :: s in stmts ==> Solid(s) && (IsPath(s) ==> Solid(PathText(s)))
  }

  predicate SolidPath(path: string) {
    path != "" ==> Solid(path)
  }

  lemma TidyFirst(stmts: seq<string>, path: string, hasPath: bool)
    requires Tidy(stmts) && stmts != [] && SolidPath(path)
    ensures Tidy(stmts[1..]) && SolidPath(PathAfter(path, stmts[0]))
    ensures SolidPieces(Addition(stmts[0], PathAfter(path, stmts[0]), hasPath))
  {
    assert stmts[0] in stmts;
  }

  lemma {:induction false} PiecesAreSolid(stmts: seq<string>, max: int, path: string, cur: seq<Piece>, hasPath: bool)
    requires Tidy(stmts) && SolidPieces(cur) && SolidPath(path)
    ensures var r := Pack(stmts, max, path, cur, hasPath); r.Ok? ==> forall c :: c in r.value ==> SolidPieces(c)
    decreases |stmts|, |cur|
  {
    if stmts != [] {
      var here := PathAfter(path, stmts[0]);
      var addition := Addition(stmts[0], here, hasPath);
      TidyFirst(stmts, path, hasPath);
      if |Render(addition)| <= max {
        if |Render(cur)| + |Render(addition)| > max {
          PiecesAreSolid(stmts, max, here, [], false);
        } else {
          PiecesAreSolid(stmts[1..], max, here, cur + addition, HasPathAfter(stmts[0], here, hasPath));
        }
      }
    }
  }

  lemma {:induction false} TextsSolid(pieces: seq<Piece>)
    requires SolidPieces(pieces)
    ensures forall t :: t in Texts(pieces) ==> Solid(t)
  {
    if pieces != [] { TextsSolid(pieces[1..]); }
  }

  lemma SolidReads(texts: seq<string>)
    requires texts != [] && forall t :: t in texts ==> Solid(t)
    ensures Statements(Glue(texts)) == Ok(texts)
  {
    assert texts[|texts| - 1] in texts;
    assert forall i :: 0 <= i < |texts| ==> texts[i] in texts;
    assert Rereadable(texts);
    RereadExactly(texts);
  }

  lemma ChunkReads(c: seq<Piece>)
    requires c != [] && SolidPieces(c)
    ensures Statements(Render(c)) == Ok(Texts(c))
  {
    RenderIsGlue(c);
    TextsSolid(c);
    SolidReads(Texts(c));
  }

  lemma RenderAllCons(chunks: seq<seq<Piece>>)
    requires chunks != []
    ensures RenderAll(chunks) == [Render(chunks[0])] + RenderAll(chunks[1..])
  {
  }

  lemma ImportCons(first: string, rest: seq<string>, stmts: seq<string>, effects: seq<Effect>)
    requires Statements(first) == Ok(stmts) && Import(rest) == Ok(effects)
    ensures Import([first] + rest) == Ok(Run("", stmts) + effects)
  {
    assert ([first] + rest)[1..] == rest;
  }

  lemma RunChunksFirst(chunks: seq<seq<Piece>>)
    requires chunks != []
    ensures RunChunks(chunks) == Run("", Texts(chunks[0])) + RunChunks(chunks[1..])
  {
  }

  predicate GoodChunk(c: seq<Piece>) {
    c != [] && SolidPieces(c)
  }

  lemma {:induction false} ImportIsRun(chunks: seq<seq<Piece>>)
    requires forall c :: c in chunks ==> GoodChunk(c)
    ensures Import(RenderAll(chunks)) == Ok(RunChunks(chunks))
  {
    if chunks == [] {
      assert RenderAll(chunks) == [];
    } else {
      assert GoodChunk(chunks[0]);
      ChunkReads(chunks[0]);
      ImportIsRun(chunks[1..]);
      ImportCons(Render(chunks[0]), RenderAll(chunks[1..]), Texts(chunks[0]), RunChunks(chunks[1..]));
      RenderAllCons(chunks);
      RunChunksFirst(chunks);
    }
  }

  /** Path statements that the splitter can repeat: one line, not ending in a backslash. */
  predicate OneLiners(stmts: seq<string>) {
    forall s :: s in stmts && IsPath(s) ==> '\n' !in s && !HasSuffix(PathText(s), "\\")
  }

  lemma TidyStatements(script: string)
    requires Statements(script).Ok? && Finished(script) && OneLiners(Statements(script).value)
    requires forall s :: s in Statements(script).value ==> !EndsInNewline(s)
    ensures Tidy(Statements(script).value)
  {
    var stmts := Statements(script).value;
    StatementsAreClosed(script);
    forall s | s in stmts ensures Solid(s) && (IsPath(s) ==> Solid(PathText(s))) {
      if IsPath(s) { OneLinePath(s); }
    }
  }

  /**
    The device runs what the script says when the script does not stop inside a continuation, no
    continuation is followed by an empty line, and path lines stand on their own.
   */
  lemma ImportKeepsMeaning(script: string, max: int)
    requires Chunks(script, max).Ok? && Finished(script) && OneLiners(Statements(script).value)
    requires forall s :: s in Statements(script).value ==> !EndsInNewline(s)
    ensures Import(RenderAll(Chunks(script, max).value)) == Ok(Run("", Statements(script).value))
  {
    var chunks := Chunks(script, max).value;
    SplitKeepsScript(script, max);
    TidyStatements(script);
    PiecesAreSolid(Statements(script).value, max, "", [], false);
    assert forall c :: c in chunks ==> GoodChunk(c) by { assert Render([]) == []; }
    ImportIsRun(chunks);
  }

  lemma {:induction false} SpacesAreNeutral(st: Scan, s: string)
    requires Proper(st) && forall c :: c in s ==> IsSpace(c)
    ensures var end := ScanText(st, s); end.quote == st.quote && end.depth == st.depth && (!st.escaped ==> end == st)
    decreases |s|
  {
    if s != [] {
      assert IsSpace(s[0]);
      SpacesAreNeutral(Advance(st, s[0]), s[1..]);
    }
  }

  predicate AllSpace(s: string) {
    forall c :: c in s ==> IsSpace(c)
  }

  lemma LeadingSpaces(s: string, k: nat)
    requires k <= |s| && forall j :: 0 <= j < k ==> IsSpace(s[j])
    ensures AllSpace(s[..k])
  {
  }

  lemma TrailingSpaces(s: string, k: nat)
    requires k <= |s| && forall j :: k <= j < |s| ==> IsSpace(s[j])
    ensures AllSpace(s[k..])
  {
  }

  lemma TrimSplits(s: string) returns (left: string, right: string)
    ensures s == left + TrimSpace(s) + right && AllSpace(left) && AllSpace(right)
  {
    var k := Leading(s);
    var e := Kept(s[k..]);
    LeadingSpaces(s, k);
    TrailingSpaces(s[k..], e);
    left, right := s[..k], s[k..][e..];
    ThreeParts(s, k, e);
  }

  lemma ThreeParts(s: string, k: nat, e: nat)
    requires k <= |s| && e <= |s[k..]|
    ensures s == s[..k] + s[k..][..e] + s[k..][e..]
  {
  }

  lemma SpacedScan(left: string, s: string, right: string)
    requires AllSpace(left) && AllSpace(right)
    ensures var a, b := ScanText(START, s), ScanText(START, left + s + right); a.quote == b.quote && a.depth == b.depth
  {
    ScanConcat(START, left + s, right);
    ScanConcat(START, left, s);
    SpacesAreNeutral(START, left);
    ScanProper(START, s);
    SpacesAreNeutral(ScanText(START, s), right);
  }

  lemma TrimScan(s: string)
    ensures var a, b := ScanText(START, TrimSpace(s)), ScanText(START, s); a.quote == b.quote && a.depth == b.depth
  {
    var left, right := TrimSplits(s);
    SpacedScan(left, TrimSpace(s), right);
  }

  /** A path on one line that does not end in a backslash is a statement of its own. */
  lemma OneLinePath(s: string)
    requires Closed(s) && IsPath(s) && '\n' !in s && !HasSuffix(PathText(s), "\\")
    ensures Solid(PathText(s))
  {
    var p := PathText(s);
    SplitOne(s, '\n');
    TrimSpaceCuts(s);
    SplitOne(p, '\n');
    TrimTrimmed(p);
    TrimScan(s);
    SingleLine(s);
    assert TrimBlanks(p) == p;
    SingleLine(p);
  }

  lemma SingleLine(s: string)
    ensures OneGroup([s]) <==> !Open(s, ScanText(START, s))
  {
    var none: seq<string> := [];
    var after := AfterLine(START, s);
    assert [s][1..] == none && none + [s] == [s];
    assert GroupLines([s], [], START) ==
      if Open(s, after) then Grouping([], [s], after) else Grouping([[s]] + [], [], after);
  }

  /** A text that must not stand before another in a chunk. */
  lemma BadTextMerges(texts: seq<string>, i: nat)
    requires i + 1 < |texts| && !Solid(texts[i])
    ensures Statements(Glue(texts)) != Ok(texts)
  {
    RereadExactly(texts);
  }

  /* ---- A continuation before an empty line ---- */

  const CONTINUED := ['a', '\\']

  lemma ScanContinued()
    ensures var st := AfterLine(START, CONTINUED); Balanced(st) && Open(CONTINUED, st)
  {
    assert CONTINUED[1..] == ['\\'] && CONTINUED[1..][1..] == [];
    assert ScanText(Advance(START, 'a'), ['\\']) == Scan(NONE, 0, true);
    assert TrimBlanks(CONTINUED) == CONTINUED;
  }

  lemma ScanPlain(st: Scan)
    requires Balanced(st)
    ensures var after := AfterLine(st, "b"); Balanced(after) && !Open("b", after)
  {
    var now := Scan(st.quote, st.depth, false);
    assert "b"[1..] == "" && Advance(now, 'b') == now;
    assert ScanText(now, "b") == now;
    assert TrimBlanks("b") == "b";
  }

  lemma ContinuedLines()
    ensures Lines(CONTINUED + "\n\nb") == [CONTINUED, "", "b"]
  {
    var script := CONTINUED + "\n\nb";
    NoCarriageReturn(script);
    SplitAt(CONTINUED, "\nb", '\n');
    assert script == CONTINUED + ['\n'] + "\nb" && "\nb" == [] + ['\n'] + "b";
    SplitAt([], "b", '\n');
    SplitOne("b", '\n');
  }

  lemma ContinuedGroups()
    ensures var g := GroupLines([CONTINUED, "", "b"], [], START);
      g.groups == [[CONTINUED, ""], ["b"]] && g.open == [] && Balanced(g.st)
  {
    var start := GroupLines([], [], START);
    var first := Feed(start, CONTINUED);
    var second := Feed(first, "");
    GroupsSnoc([], [], START, CONTINUED);
    GroupsSnoc([CONTINUED], [], START, "");
    GroupsSnoc([CONTINUED, ""], [], START, "b");
    assert [] + [CONTINUED] == [CONTINUED] && [CONTINUED] + [""] == [CONTINUED, ""];
    assert [CONTINUED, ""] + ["b"] == [CONTINUED, "", "b"];
    ScanContinued();
    EmptyLineCloses(first.st);
    assert second == Grouping([[CONTINUED, ""]], [], AfterLine(first.st, ""));
    ScanPlain(second.st);
    assert Feed(second, "b").groups == [[CONTINUED, ""]] + [[] + ["b"]];
    assert [] + ["b"] == ["b"];
  }

  /** Two statements: the first is the continued line and the empty line after it. */
  lemma ContinuedThenEmpty()
    ensures Statements(CONTINUED + "\n\nb") == Ok([CONTINUED + "\n", "b"])
  {
    ContinuedLines();
    ContinuedGroups();
    ContinuedTexts();
    NonBlankTwo([CONTINUED, ""], ["b"]);
  }

  lemma ContinuedTexts()
    ensures Join([CONTINUED, ""], '\n') == CONTINUED + "\n" && TrimSpace(CONTINUED + "\n") != []
    ensures Join(["b"], '\n') == "b" && TrimSpace("b") != []
  {
    var first, second := [CONTINUED, ""], ["b"];
    assert |second| == 1 && Join(second, '\n') == second[0];
    JoinSnoc([CONTINUED], "");
    assert [CONTINUED] + [""] == first;
    NotBlank(CONTINUED + "\n", 0);
    NotBlank("b", 0);
  }

  lemma NotBlank(s: string, i: nat)
    requires i < |s| && !IsSpace(s[i])
    ensures TrimSpace(s) != []
  {
    TrimSpaceCuts(s);
  }

  lemma NonBlankTwo(a: seq<string>, b: seq<string>)
    requires TrimSpace(Join(a, '\n')) != [] && TrimSpace(Join(b, '\n')) != []
    ensures NonBlank([a, b] + [[]]) == [Join(a, '\n'), Join(b, '\n')]
  {
    NonBlankSnoc([a, b], []);
    NonBlankSnoc([a], b);
    NonBlankSnoc([], a);
    assert [a] + [b] == [a, b] && [] + [a] == [a];
    TrimSpaceCuts("");
  }

  /** The continued line and the next one, read as one statement. */
  const MERGED := CONTINUED + "\n" + "b"

  lemma MergedGroups()
    ensures OneGroup([CONTINUED, "b"])
  {
    var first := Feed(GroupLines([], [], START), CONTINUED);
    GroupsSnoc([], [], START, CONTINUED);
    GroupsSnoc([CONTINUED], [], START, "b");
    assert [] + [CONTINUED] == [CONTINUED] && [CONTINUED] + ["b"] == [CONTINUED, "b"];
    ScanContinued();
    ScanPlain(first.st);
    assert Feed(first, "b").groups == [] + [[CONTINUED] + ["b"]];
  }

  lemma MergedIsSolid()
    ensures Solid(MERGED)
  {
    MergedLines();
    MergedGroups();
    NotBlank(MERGED, 0);
    assert MERGED[|MERGED| - 1] == 'b';
  }

  lemma MergedLines()
    ensures Split(MERGED, '\n') == [CONTINUED, "b"]
  {
    assert "\n" == ['\n'];
    assert MERGED == CONTINUED + ['\n'] + "b";
    SplitAt(CONTINUED, "b", '\n');
    SplitOne("b", '\n');
    assert [CONTINUED] + ["b"] == [CONTINUED, "b"];
  }

  /** Two texts that read as the one statement `t`. */
  lemma TwoReadAsOne(a: string, b: string, t: string)
    requires Solid(t) && Newlined(a) + Newlined(b) == t + "\n"
    ensures Statements(Newlined(a) + Newlined(b)) == Ok([t])
  {
    SolidReads([t]);
    assert [t][1..] == [];
    assert Glue([t]) == Newlined(t) + Glue([]);
    assert Newlined(t) + [] == t + "\n";
  }

  lemma ImportTwo(a: string, b: string, t: string)
    requires Statements(Newlined(a) + Newlined(b)) == Ok([t]) && Effects("", t) == [Effect("", t)]
    ensures Import(RenderAll([[Own(a), Own(b)]])) == Ok([Effect("", t)])
  {
    var chunk := [Own(a), Own(b)];
    RenderTwo(a, b);
    RunOne("", t);
    ImportCons(Render(chunk), [], [t], []);
    assert RenderAll([chunk]) == [Render(chunk)] + [];
  }

  lemma RenderTwo(a: string, b: string)
    ensures Render([Own(a), Own(b)]) == Newlined(a) + Newlined(b)
  {
    assert [Own(a), Own(b)][1..] == [Own(b)] && [Own(b)][1..] == [];
    assert Render([Own(b)]) == Newlined(b) + Render([]);
  }

  lemma RunCommand(stmt: string, c: char)
    requires stmt != [] && stmt[0] == c && (c == 'a' || c == 'b')
    ensures Effects("", stmt) == [Effect("", stmt)] && PathAfter("", stmt) == ""
  {
    NotPath(stmt, c);
  }

  lemma RunCommands(a: string, b: string)
    requires a != [] && a[0] == 'a' && b != [] && b[0] == 'b'
    ensures Run("", [a, b]) == [Effect("", a), Effect("", b)]
  {
    RunTwo("", a, b);
    RunCommand(a, 'a');
    RunCommand(b, 'b');
  }

  lemma PackCommands(script: string, a: string, b: string, max: int)
    requires Statements(script) == Ok([a, b]) && a != [] && a[0] == 'a' && b != [] && b[0] == 'b'
    requires |Newlined(a)| + |Newlined(b)| <= max
    ensures Chunks(script, max) == Ok([[Own(a), Own(b)]])
  {
    NotPath(a, 'a');
    NotPath(b, 'b');
    PackTwo(a, b, max);
  }

  /** Two commands of a script that reach the device as the one command `t`. */
  ghost predicate Swallows(script: string, a: string, b: string, t: string, max: int) {
    && Statements(script) == Ok([a, b]) && Run("", [a, b]) == [Effect("", a), Effect("", b)]
    && Chunks(script, max) == Ok([[Own(a), Own(b)]])
    && Import(RenderAll([[Own(a), Own(b)]])) == Ok([Effect("", t)])
  }

  lemma SwallowsWhen(script: string, a: string, b: string, t: string, max: int)
    requires Statements(script) == Ok([a, b]) && a != [] && a[0] == 'a' && b != [] && b[0] == 'b'
    requires Solid(t) && Newlined(a) + Newlined(b) == t + "\n" && t[0] == 'a' && |t| < max
    ensures Swallows(script, a, b, t, max)
  {
    PackCommands(script, a, b, max);
    RunCommands(a, b);
    TwoReadAsOne(a, b, t);
    RunCommand(t, 'a');
    ImportTwo(a, b, t);
  }

  lemma NewlinesJoin(line: string, next: string)
    requires next != [] && next[|next| - 1] != '\n'
    ensures Newlined(line + "\n") + Newlined(next) == line + "\n" + next + "\n"
  {
    var s := line + "\n";
    assert s[|s| - 1..] == "\n";
    assert next[|next| - 1..][0] != '\n';
    assert s + (next + "\n") == s + next + "\n";
  }

  /**
    The splitter puts both statements into one chunk, where the first brings its own newline and so loses its empty
    line: the device runs one command where the script has two.
   */
  lemma ContinuationSwallowsNext(max: int)
    requires max >= 5
    ensures Swallows(CONTINUED + "\n\nb", CONTINUED + "\n", "b", MERGED, max)
  {
    ContinuedThenEmpty();
    MergedIsSolid();
    NewlinesJoin(CONTINUED, "b");
    SwallowsWhen(CONTINUED + "\n\nb", CONTINUED + "\n", "b", MERGED, max);
  }

  lemma TrimStarts(s: string)
    requires s != [] && !IsSpace(s[0])
    ensures TrimSpace(s) != [] && TrimSpace(s)[0] == s[0]
  {
    NotBlank(s, 0);
    assert Leading(s) == 0 && s[0..] == s;
  }

  lemma FirstLineStarts(s: string)
    requires s != [] && s[0] != '\n'
    ensures FirstLine(s) != [] && FirstLine(s)[0] == s[0]
  {
  }

  lemma NotPath(s: string, c: char)
    requires s != [] && s[0] == c && (c == 'a' || c == 'b')
    ensures !IsPath(s) && !IsComment(s)
  {
    FirstLineStarts(s);
    TrimStarts(FirstLine(s));
    assert PathText(s)[0] == c && !HasPrefix(PathText(s), "/");
    TrimStarts(s);
    assert TrimSpace(s)[0] == c && !HasPrefix(TrimSpace(s), "#");
  }

  lemma PackTwo(a: string, b: string, max: int)
    requires !IsPath(a) && !IsPath(b) && |Newlined(a)| + |Newlined(b)| <= max
    ensures Pack([a, b], max, "", [], false) == Ok([[Own(a), Own(b)]])
  {
    RenderAddition(a, "", false);
    RenderAddition(b, "", false);
    assert [] + [Own(a)] == [Own(a)] && [Own(a)] + [Own(b)] == [Own(a), Own(b)];
    assert [a, b][1..] == [b] && [b][1..] == [];
    assert Pack([b], max, "", [Own(a)], false) == Ok([[Own(a), Own(b)]]);
  }
}
