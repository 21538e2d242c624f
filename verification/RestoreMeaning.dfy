/** What splitting a restore script keeps: the size bound, the statements, and what running them does. */
module RestoreMeaning {
  import opened Text
  import opened RestoreScript
  import opened RestoreChunks

  /* ---- Bound and contents ---- */

  /** Every chunk is non-empty and within the bound. */
  lemma {:induction false} ChunksAreBounded(stmts: seq<string>, max: int, path: string, cur: seq<Piece>, hasPath: bool)
    requires |Render(cur)| <= max
    ensures var r := Pack(stmts, max, path, cur, hasPath);
      r.Ok? ==> forall c :: c in r.value ==> c != [] && 0 < |Render(c)| <= max
    decreases |stmts|, |cur|
  {
    if cur != [] { RenderEnds(cur); }
    if stmts != [] {
      var here := PathAfter(path, stmts[0]);
      var addition := Addition(stmts[0], here, hasPath);
      if |Render(addition)| <= max {
        if |Render(cur)| + |Render(addition)| > max {
          ChunksAreBounded(stmts, max, here, [], false);
        } else {
          RenderConcat(cur, addition);
          ChunksAreBounded(stmts[1..], max, here, cur + addition, HasPathAfter(stmts[0], here, hasPath));
        }
      }
    }
  }

  /** The script's own statements among some pieces. */
  function Owned(pieces: seq<Piece>): seq<string> {
    if pieces == [] then []
    else (if pieces[0].Own? then [pieces[0].text] else []) + Owned(pieces[1..])
  }

  function Joined(chunks: seq<seq<Piece>>): seq<Piece> {
    if chunks == [] then [] else chunks[0] + Joined(chunks[1..])
  }

  lemma {:induction false} OwnedConcat(a: seq<Piece>, b: seq<Piece>)
    ensures Owned(a + b) == Owned(a) + Owned(b)
  {
    if a == [] {
      assert a + b == b;
    } else {
      assert (a + b)[1..] == a[1..] + b;
      OwnedConcat(a[1..], b);
    }
  }

  lemma OwnedAddition(stmt: string, path: string, hasPath: bool)
    ensures Owned(Addition(stmt, path, hasPath)) == [stmt]
  {
    assert Owned([Own(stmt)]) == [stmt] by { assert [Own(stmt)][1..] == []; }
    assert [Injected(path), Own(stmt)][1..] == [Own(stmt)];
  }

  /** The chunks hold the statements `done` and then `more`. */
  predicate Holds(r: Result<seq<seq<Piece>>>, done: seq<string>, more: seq<string>) {
    r.Ok? ==> Owned(Joined(r.value)) == done + more
  }

  lemma JoinedCons(cur: seq<Piece>, rest: seq<seq<Piece>>)
    ensures Owned(Joined([cur] + rest)) == Owned(cur) + Owned(Joined(rest))
  {
    assert ([cur] + rest)[1..] == rest;
    OwnedConcat(cur, Joined(rest));
  }

  lemma HoldsFlush(r: Result<seq<seq<Piece>>>, cur: seq<Piece>, more: seq<string>)
    requires Holds(r, [], more)
    ensures Holds(Prepend([cur], r), Owned(cur), more)
  {
    if r.Ok? { JoinedCons(cur, r.value); }
  }

  lemma HoldsTake(r: Result<seq<seq<Piece>>>, done: seq<string>, stmts: seq<string>)
    requires stmts != [] && Holds(r, done + [stmts[0]], stmts[1..])
    ensures Holds(r, done, stmts)
  {
    assert done + [stmts[0]] + stmts[1..] == done + stmts;
  }

  /** Without the injected path lines the chunks are the statements in order: none lost, repeated or moved. */
  lemma {:induction false} ChunksKeepStatements(
    stmts: seq<string>, max: int, path: string, cur: seq<Piece>, hasPath: bool)
    ensures Holds(Pack(stmts, max, path, cur, hasPath), Owned(cur), stmts)
    decreases |stmts|, |cur|
  {
    if stmts == [] {
      JoinedCons(cur, []);
    } else {
      var here := PathAfter(path, stmts[0]);
      var addition := Addition(stmts[0], here, hasPath);
      if |Render(addition)| <= max {
        if |Render(cur)| + |Render(addition)| > max {
          ChunksKeepStatements(stmts, max, here, [], false);
          HoldsFlush(Pack(stmts, max, here, [], false), cur, stmts);
        } else {
          var hasPath' := HasPathAfter(stmts[0], here, hasPath);
          OwnedAddition(stmts[0], here, hasPath);
          OwnedConcat(cur, addition);
          ChunksKeepStatements(stmts[1..], max, here, cur + addition, hasPath');
          HoldsTake(Pack(stmts[1..], max, here, cur + addition, hasPath'), Owned(cur), stmts);
        }
      }
    }
  }

  /** The pieces of a chunk up to its first statement. */
  function Head(pieces: seq<Piece>): seq<Piece> {
    if pieces == [] then [] else if pieces[0].Own? then [pieces[0]] else [pieces[0]] + Head(pieces[1..])
  }

  predicate StartsWith(chunks: seq<seq<Piece>>, cur: seq<Piece>) {
    |chunks| > 0 && |cur| <= |chunks[0]| && chunks[0][..|cur|] == cur
  }

  lemma StartsShorter(chunks: seq<seq<Piece>>, cur: seq<Piece>, more: seq<Piece>)
    requires StartsWith(chunks, cur + more)
    ensures StartsWith(chunks, cur)
  {
    assert chunks[0][..|cur|] == chunks[0][..|cur + more|][..|cur|] == cur;
  }

  lemma {:induction false} FirstChunk(stmts: seq<string>, max: int, path: string, cur: seq<Piece>, hasPath: bool)
    requires cur != []
    ensures var r := Pack(stmts, max, path, cur, hasPath); r.Ok? ==> StartsWith(r.value, cur)
    decreases |stmts|
  {
    var r := Pack(stmts, max, path, cur, hasPath);
    if stmts != [] && r.Ok? {
      var here := PathAfter(path, stmts[0]);
      var addition := Addition(stmts[0], here, hasPath);
      if |Render(cur)| + |Render(addition)| <= max {
        FirstChunk(stmts[1..], max, here, cur + addition, HasPathAfter(stmts[0], here, hasPath));
        StartsShorter(r.value, cur, addition);
      } else {
        assert r.value[0] == cur;
      }
    }
  }

  lemma HeadOfAddition(c: seq<Piece>, stmt: string, path: string)
    requires var a := Addition(stmt, path, false); |a| <= |c| && c[..|a|] == a
    ensures Head(c) == Addition(stmt, path, false)
  {
    var a := Addition(stmt, path, false);
    assert c[0] == c[..|a|][0];
    if |a| == 2 {
      assert c[1] == c[..|a|][1] && c[1..][0] == c[1];
    }
  }

  predicate Forced(chunks: seq<seq<Piece>>, max: int) {
    forall k :: 0 < k < |chunks| ==> |Render(chunks[k - 1])| + |Render(Head(chunks[k]))| > max
  }

  /** A chunk is closed only when what opens the next one would not have fitted any more. */
  lemma {:induction false} ChunksAreForced(stmts: seq<string>, max: int, path: string, cur: seq<Piece>, hasPath: bool)
    ensures var r := Pack(stmts, max, path, cur, hasPath); r.Ok? ==> Forced(r.value, max)
    decreases |stmts|, |cur|
  {
    var r := Pack(stmts, max, path, cur, hasPath);
    if stmts != [] && r.Ok? {
      var here := PathAfter(path, stmts[0]);
      var addition := Addition(stmts[0], here, hasPath);
      if |Render(cur)| + |Render(addition)| > max {
        ChunksAreForced(stmts, max, here, [], false);
        var rest := Pack(stmts, max, here, [], false).value;
        var a := Addition(stmts[0], here, false);
        assert [] + a == a;
        FirstChunk(stmts[1..], max, here, a, HasPathAfter(stmts[0], here, false));
        HeadOfAddition(rest[0], stmts[0], here);
        RenderAddition(stmts[0], here, false);
        RenderAddition(stmts[0], here, hasPath);
        forall k | 0 < k < |r.value| ensures |Render(r.value[k - 1])| + |Render(Head(r.value[k]))| > max {
          if k > 1 {
            assert r.value[k] == rest[k - 1] && r.value[k - 1] == rest[k - 2];
          } else {
            assert r.value[1] == rest[0] && r.value[0] == cur;
          }
        }
      } else {
        ChunksAreForced(stmts[1..], max, here, cur + addition, HasPathAfter(stmts[0], here, hasPath));
      }
    }
  }

  /* ---- When splitting succeeds ---- */

  /** Every statement fits in a chunk of its own, with its menu path in front where it needs one. */
  predicate AllFit(stmts: seq<string>, max: int, path: string)
    decreases |stmts|
  {
    stmts == [] ||
    var here := PathAfter(path, stmts[0]);
    |Render(Addition(stmts[0], here, false))| <= max && AllFit(stmts[1..], max, here)
  }

  lemma {:induction false} FittingScriptsSplit(stmts: seq<string>, max: int, path: string, cur: seq<Piece>, hasPath: bool)
    requires AllFit(stmts, max, path)
    ensures Pack(stmts, max, path, cur, hasPath).Ok?
    decreases |stmts|, |cur|
  {
    if stmts != [] {
      var here := PathAfter(path, stmts[0]);
      var addition := Addition(stmts[0], here, hasPath);
      RenderAddition(stmts[0], here, false);
      RenderAddition(stmts[0], here, hasPath);
      if |Render(cur)| + |Render(addition)| > max {
        FittingScriptsSplit(stmts, max, here, [], false);
      } else {
        FittingScriptsSplit(stmts[1..], max, here, cur + addition, HasPathAfter(stmts[0], here, hasPath));
      }
    }
  }

  /** A statement that is too long on its own is always refused. */
  lemma {:induction false} SplitScriptsFit(stmts: seq<string>, max: int, path: string, cur: seq<Piece>, hasPath: bool)
    requires Pack(stmts, max, path, cur, hasPath).Ok?
    ensures forall s :: s in stmts ==> |Newlined(s)| <= max
    decreases |stmts|, |cur|
  {
    if stmts != [] {
      var here := PathAfter(path, stmts[0]);
      var addition := Addition(stmts[0], here, hasPath);
      RenderAddition(stmts[0], here, hasPath);
      if |Render(cur)| + |Render(addition)| > max {
        SplitScriptsFit(stmts, max, here, [], false);
      } else {
        SplitScriptsFit(stmts[1..], max, here, cur + addition, HasPathAfter(stmts[0], here, hasPath));
      }
    }
  }

  /* ---- Meaning ---- */

  /** One command run in a menu. */
  datatype Effect = Effect(path: string, command: string)

  function LaterLines(stmt: string): string {
    Join(Split(stmt, '\n')[1..], '\n')
  }

  /** A path line moves to its menu, and runs whatever lines follow it there; a comment does nothing. */
  function Effects(path: string, stmt: string): seq<Effect> {
    if IsPath(stmt) then
      if TrimSpace(LaterLines(stmt)) == [] then [] else [Effect(PathText(stmt), LaterLines(stmt))]
    else if IsComment(stmt) then []
    else [Effect(path, stmt)]
  }

  function Run(path: string, stmts: seq<string>): seq<Effect>
    decreases |stmts|
  {
    if stmts == [] then [] else Effects(path, stmts[0]) + Run(PathAfter(path, stmts[0]), stmts[1..])
  }

  function EndPath(path: string, stmts: seq<string>): string
    decreases |stmts|
  {
    if stmts == [] then path else EndPath(PathAfter(path, stmts[0]), stmts[1..])
  }

  function Texts(pieces: seq<Piece>): seq<string> {
    if pieces == [] then [] else [pieces[0].text] + Texts(pieces[1..])
  }

  /** The chunks one after the other, each starting at the root menu. */
  function RunChunks(chunks: seq<seq<Piece>>): seq<Effect> {
    if chunks == [] then [] else Run("", Texts(chunks[0])) + RunChunks(chunks[1..])
  }

  lemma {:induction false} RunConcat(path: string, a: seq<string>, b: seq<string>)
    ensures Run(path, a + b) == Run(path, a) + Run(EndPath(path, a), b)
    ensures EndPath(path, a + b) == EndPath(EndPath(path, a), b)
    decreases |a|
  {
    if a == [] {
      assert a + b == b;
    } else {
      assert (a + b)[1..] == a[1..] + b;
      RunConcat(PathAfter(path, a[0]), a[1..], b);
    }
  }

  lemma {:induction false} TextsConcat(a: seq<Piece>, b: seq<Piece>)
    ensures Texts(a + b) == Texts(a) + Texts(b)
  {
    if a == [] {
      assert a + b == b;
    } else {
      assert (a + b)[1..] == a[1..] + b;
      TextsConcat(a[1..], b);
    }
  }

  /** A menu path: empty at the root, else a one-line path statement that is its own path. */
  predicate IsMenu(path: string) {
    path != "" ==> IsPath(path) && PathText(path) == path && LaterLines(path) == []
  }

  lemma PathTextIsMenu(stmt: string)
    requires IsPath(stmt)
    ensures PathText(stmt) != "" && IsMenu(PathText(stmt))
  {
    SplitFree(stmt, '\n');
    var line := FirstLine(stmt);
    TrimSpaceCuts(line);
    SplitOne(PathText(stmt), '\n');
    TrimTrimmed(PathText(stmt));
  }

  lemma RunOne(path: string, stmt: string)
    ensures Run(path, [stmt]) == Effects(path, stmt) && EndPath(path, [stmt]) == PathAfter(path, stmt)
  {
    assert [stmt][1..] == [];
  }

  lemma RunTwo(path: string, first: string, stmt: string)
    ensures Run(path, [first, stmt]) == Effects(path, first) + Effects(PathAfter(path, first), stmt)
    ensures EndPath(path, [first, stmt]) == PathAfter(PathAfter(path, first), stmt)
  {
    RunOne(PathAfter(path, first), stmt);
    assert [first, stmt][1..] == [stmt];
  }

  /** The chunk so far leaves the menu in force if it mentions it, and the root otherwise. */
  predicate Coherent(path: string, cur: seq<Piece>, hasPath: bool) {
    IsMenu(path) && EndPath("", Texts(cur)) == Standing(path, hasPath)
  }

  function Standing(path: string, hasPath: bool): string {
    if hasPath then path else ""
  }

  lemma TextsAddition(stmt: string, path: string, hasPath: bool)
    ensures var a := Addition(stmt, path, hasPath); Texts(a) == if |a| == 2 then [path, stmt] else [stmt]
  {
    assert Texts([Own(stmt)]) == [stmt] by { assert [Own(stmt)][1..] == []; }
    assert [Injected(path), Own(stmt)][1..] == [Own(stmt)];
  }

  lemma MenuRunsNothing(at: string, path: string)
    requires IsMenu(path) && path != ""
    ensures Effects(at, path) == [] && PathAfter(at, path) == path
  {
    assert TrimSpace([]) == [];
  }

  /** An addition runs as its statement would have run in the menu in force. */
  lemma AdditionRuns(stmt: string, path: string, hasPath: bool)
    requires IsMenu(path)
    ensures var here := PathAfter(path, stmt); var texts := Texts(Addition(stmt, here, hasPath));
      && Run(Standing(path, hasPath), texts) == Effects(path, stmt)
      && EndPath(Standing(path, hasPath), texts) == Standing(here, HasPathAfter(stmt, here, hasPath))
  {
    var here := PathAfter(path, stmt);
    var at := Standing(path, hasPath);
    TextsAddition(stmt, here, hasPath);
    if |Addition(stmt, here, hasPath)| == 2 {
      RunTwo(at, here, stmt);
      MenuRunsNothing(at, here);
    } else {
      RunOne(at, stmt);
    }
  }

  lemma AdditionMeaning(stmt: string, path: string, cur: seq<Piece>, hasPath: bool, next: seq<Piece>)
    requires Coherent(path, cur, hasPath) && next == cur + Addition(stmt, PathAfter(path, stmt), hasPath)
    ensures Run("", Texts(next)) == Run("", Texts(cur)) + Effects(path, stmt)
    ensures var here := PathAfter(path, stmt); Coherent(here, next, HasPathAfter(stmt, here, hasPath))
  {
    var addition := Addition(stmt, PathAfter(path, stmt), hasPath);
    MenuAfter(path, stmt);
    TextsConcat(cur, addition);
    RunConcat("", Texts(cur), Texts(addition));
    AdditionRuns(stmt, path, hasPath);
  }

  lemma MenuAfter(path: string, stmt: string)
    requires IsMenu(path)
    ensures IsMenu(PathAfter(path, stmt))
  {
    if IsPath(stmt) { PathTextIsMenu(stmt); }
  }

  lemma RunChunksCons(cur: seq<Piece>, rest: seq<seq<Piece>>)
    ensures RunChunks([cur] + rest) == Run("", Texts(cur)) + RunChunks(rest)
  {
    assert ([cur] + rest)[1..] == rest;
  }

  /** A retried path statement has moved the menu already; running it again changes nothing. */
  lemma RunRetry(path: string, stmts: seq<string>)
    requires stmts != []
    ensures Run(PathAfter(path, stmts[0]), stmts) == Run(path, stmts)
  {
  }

  /** The chunks have the effects `done` and then `more`. */
  predicate Means(r: Result<seq<seq<Piece>>>, done: seq<Effect>, more: seq<Effect>) {
    r.Ok? ==> RunChunks(r.value) == done + more
  }

  lemma MeansFlush(r: Result<seq<seq<Piece>>>, cur: seq<Piece>, effects: seq<Effect>)
    requires Means(r, [], effects)
    ensures Means(Prepend([cur], r), Run("", Texts(cur)), effects)
  {
    if r.Ok? {
      assert [] + effects == effects;
      RunChunksCons(cur, r.value);
      assert Prepend([cur], r).value == [cur] + r.value;
    }
  }

  lemma MeansTake(r: Result<seq<seq<Piece>>>, done: seq<Effect>, now: seq<Effect>, more: seq<Effect>)
    requires Means(r, done + now, more)
    ensures Means(r, done, now + more)
  {
    assert done + now + more == done + (now + more);
  }

  /** Running the chunks runs the same commands in the same menus in the same order as running the script once. */
  lemma {:induction false} ChunksKeepMeaning(
    stmts: seq<string>, max: int, path: string, cur: seq<Piece>, hasPath: bool)
    requires Coherent(path, cur, hasPath)
    ensures Means(Pack(stmts, max, path, cur, hasPath), Run("", Texts(cur)), Run(path, stmts))
    decreases |stmts|, |cur|
  {
    if stmts == [] {
      RunChunksCons(cur, []);
    } else {
      var here := PathAfter(path, stmts[0]);
      var addition := Addition(stmts[0], here, hasPath);
      if |Render(addition)| <= max {
        MenuAfter(path, stmts[0]);
        if |Render(cur)| + |Render(addition)| > max {
          ChunksKeepMeaning(stmts, max, here, [], false);
          RunRetry(path, stmts);
          MeansFlush(Pack(stmts, max, here, [], false), cur, Run(path, stmts));
        } else {
          var next := cur + addition;
          var hasPath' := HasPathAfter(stmts[0], here, hasPath);
          AdditionMeaning(stmts[0], path, cur, hasPath, next);
          ChunksKeepMeaning(stmts[1..], max, here, next, hasPath');
          var r := Pack(stmts[1..], max, here, next, hasPath');
          MeansTake(r, Run("", Texts(cur)), Effects(path, stmts[0]), Run(here, stmts[1..]));
        }
      }
    }
  }

  /** All of it for a whole script. */
  lemma SplitKeepsScript(script: string, max: int)
    requires Chunks(script, max).Ok?
    ensures Statements(script).Ok?
    ensures var chunks := Chunks(script, max).value; var stmts := Statements(script).value;
      && RunChunks(chunks) == Run("", stmts)
      && Owned(Joined(chunks)) == stmts
      && Forced(chunks, max)
      && forall c :: c in chunks ==> 0 < |Render(c)| <= max
  {
    var stmts := Statements(script).value;
    ChunksKeepMeaning(stmts, max, "", [], false);
    ChunksKeepStatements(stmts, max, "", [], false);
    ChunksAreForced(stmts, max, "", [], false);
    ChunksAreBounded(stmts, max, "", [], false);
  }

  /* ---- Injected path lines ---- */

  /** A command: neither a menu path nor a comment. */
  predicate IsCommand(text: string) {
    !IsPath(text) && !IsComment(text)
  }

  /** A path line stands only right before a command of the script, with nothing but comments before it. */
  predicate Injects(chunk: seq<Piece>, k: int)
    requires 0 <= k < |chunk| && chunk[k].Injected?
  {
    && k + 1 < |chunk| && chunk[k + 1].Own? && IsCommand(chunk[k + 1].text) && chunk[k].text != ""
    && forall i :: 0 <= i < k ==> chunk[i].Own? && IsComment(chunk[i].text) && !IsPath(chunk[i].text)
  }

  predicate InjectsWell(chunk: seq<Piece>) {
    forall k :: 0 <= k < |chunk| && chunk[k].Injected? ==> Injects(chunk, k)
  }

  /** What a chunk without a menu path holds so far, with the menu path in force. */
  predicate Bare(chunk: seq<Piece>, path: string) {
    forall i :: 0 <= i < |chunk| ==> chunk[i].Own? && !IsPath(chunk[i].text) && (path != "" ==> IsComment(chunk[i].text))
  }

  lemma InjectsMore(cur: seq<Piece>, stmt: string, path: string, hasPath: bool)
    requires InjectsWell(cur) && (!hasPath ==> Bare(cur, path))
    ensures var here := PathAfter(path, stmt); var next := cur + Addition(stmt, here, hasPath);
      InjectsWell(next) && (!HasPathAfter(stmt, here, hasPath) ==> Bare(next, here))
  {
    var here := PathAfter(path, stmt);
    var a := Addition(stmt, here, hasPath);
    var next := cur + a;
    forall k | 0 <= k < |next| && next[k].Injected? ensures Injects(next, k) {
      if k < |cur| {
        assert Injects(cur, k) && next[k + 1] == cur[k + 1];
      } else {
        assert k == |cur| && |a| == 2 && next[k + 1] == Own(stmt);
      }
    }
  }

  /** In every chunk, path lines are injected only where a command would otherwise run in the wrong menu. */
  lemma {:induction false} InjectionsAreNeeded(stmts: seq<string>, max: int, path: string, cur: seq<Piece>, hasPath: bool)
    requires InjectsWell(cur) && (!hasPath ==> Bare(cur, path))
    ensures var r := Pack(stmts, max, path, cur, hasPath); r.Ok? ==> forall c :: c in r.value ==> InjectsWell(c)
    decreases |stmts|, |cur|
  {
    var r := Pack(stmts, max, path, cur, hasPath);
    if stmts != [] && r.Ok? {
      var here := PathAfter(path, stmts[0]);
      var addition := Addition(stmts[0], here, hasPath);
      if |Render(cur)| + |Render(addition)| > max {
        InjectionsAreNeeded(stmts, max, here, [], false);
      } else {
        InjectsMore(cur, stmts[0], path, hasPath);
        InjectionsAreNeeded(stmts[1..], max, here, cur + addition, HasPathAfter(stmts[0], here, hasPath));
      }
    }
  }
}
