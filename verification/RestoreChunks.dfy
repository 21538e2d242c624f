/**
  The packer of the restore-script splitter (internal/routeros/export.go): statements go into bounded
  chunks, and a chunk that starts in the middle of a menu gets the menu's path line again.
 */
module RestoreChunks {
  import opened Text
  import opened RestoreScript

  /* ---- Classifying statements ---- */

  function FirstLine(stmt: string): string {
    Split(stmt, '\n')[0]
  }

  function PathText(stmt: string): string {
    TrimSpace(FirstLine(stmt))
  }

  /** How many characters of `s` come before its first white space. */
  function WordLength(s: string): (k: nat)
    ensures k <= |s| && (s != [] && !IsSpace(s[0]) ==> k > 0)
  {
    if s != [] && !IsSpace(s[0]) then 1 + WordLength(s[1..]) else 0
  }

  /** strings.Fields. */
  function Fields(s: string): seq<string>
    decreases |s|
  {
    var t := s[Leading(s)..];
    if t == [] then [] else [t[..WordLength(t)]] + Fields(t[WordLength(t)..])
  }

  function TrimLeftSlash(s: string): string {
    if s != [] && s[0] == '/' then TrimLeftSlash(s[1..]) else s
  }

  function TrimRightSlash(s: string): string {
    if s != [] && s[|s| - 1] == '/' then TrimRightSlash(s[..|s| - 1]) else s
  }

  predicate IsVerb(token: string) {
    token in {"add", "set", "remove", "move", "enable", "disable", "comment", "reset", "print"}
  }

  /** restoreLineVerb(line) is not empty. */
  predicate HasVerb(line: string) {
    var fields := Fields(line);
    fields != [] &&
    var parts := Split(TrimRightSlash(TrimLeftSlash(fields[0])), '/');
    IsVerb(parts[|parts| - 1]) || exists i :: 0 < i < |fields| && IsVerb(fields[i])
  }

  predicate IsPath(stmt: string) {
    HasPrefix(PathText(stmt), "/") && !HasVerb(PathText(stmt))
  }

  predicate IsComment(stmt: string) {
    HasPrefix(TrimSpace(stmt), "#")
  }

  /** ensureTrailingNewline. */
  function Newlined(s: string): string {
    if HasSuffix(s, "\n") then s else s + "\n"
  }

  /* ---- Packing ---- */

  /** A statement of the script, or a menu path put in front of one. */
  datatype Piece = Own(text: string) | Injected(text: string)

  function Render(pieces: seq<Piece>): string {
    if pieces == [] then [] else Newlined(pieces[0].text) + Render(pieces[1..])
  }

  function RenderAll(chunks: seq<seq<Piece>>): seq<string> {
    seq(|chunks|, i requires 0 <= i < |chunks| => Render(chunks[i]))
  }

  function PathAfter(path: string, stmt: string): string {
    if IsPath(stmt) then PathText(stmt) else path
  }

  /** What a statement adds to the chunk, given the menu path in force and whether the chunk has it. */
  function Addition(stmt: string, path: string, hasPath: bool): seq<Piece> {
    if !hasPath && path != "" && !IsPath(stmt) && !IsComment(stmt) then [Injected(path), Own(stmt)] else [Own(stmt)]
  }

  predicate HasPathAfter(stmt: string, path: string, hasPath: bool) {
    hasPath || IsPath(stmt) || (path != "" && !IsComment(stmt))
  }

  const TOO_BIG := "restore statement exceeds RouterOS file contents limit"

  function Pack(stmts: seq<string>, max: int, path: string, cur: seq<Piece>, hasPath: bool): Result<seq<seq<Piece>>>
    decreases |stmts|, |cur|
  {
    if stmts == [] then Ok(if cur == [] then [] else [cur])
    else
      var here := PathAfter(path, stmts[0]);
      var addition := Addition(stmts[0], here, hasPath);
      if |Render(addition)| > max then Err(TOO_BIG)
      else if |Render(cur)| + |Render(addition)| > max then Prepend([cur], Pack(stmts, max, here, [], false))
      else Pack(stmts[1..], max, here, cur + addition, HasPathAfter(stmts[0], here, hasPath))
  }

  function Prepend(chunks: seq<seq<Piece>>, r: Result<seq<seq<Piece>>>): Result<seq<seq<Piece>>> {
    if r.Err? then r else Ok(chunks + r.value)
  }

  /** splitRestoreScript, on pieces. */
  function Chunks(script: string, max: int): Result<seq<seq<Piece>>> {
    if max <= 0 then Err("restore chunk size must be positive")
    else match Statements(script)
      case Err(e) => Err(e)
      case Ok(stmts) =>
        match Pack(stmts, max, "", [], false)
        case Err(e) => Err(e)
        case Ok(chunks) => if chunks == [] then Err("empty script") else Ok(chunks)
  }

  lemma {:induction false} RenderConcat(a: seq<Piece>, b: seq<Piece>)
    ensures Render(a + b) == Render(a) + Render(b)
  {
    if a == [] {
      assert a + b == b;
    } else {
      assert (a + b)[1..] == a[1..] + b;
      RenderConcat(a[1..], b);
    }
  }

  /** A chunk ends in a newline already. */
  lemma {:induction false} RenderEnds(a: seq<Piece>)
    requires a != []
    ensures HasSuffix(Render(a), "\n")
  {
    if |a| > 1 { RenderEnds(a[1..]); }
  }

  lemma RenderAddition(stmt: string, path: string, hasPath: bool)
    ensures Render(Addition(stmt, path, hasPath)) ==
      (if !hasPath && path != "" && !IsPath(stmt) && !IsComment(stmt) then Newlined(path) else "") + Newlined(stmt)
  {
    assert Render([Own(stmt)]) == Newlined(stmt) by { assert [Own(stmt)][1..] == []; }
    assert [Injected(path), Own(stmt)][1..] == [Own(stmt)];
  }

  lemma RenderAllSnoc(chunks: seq<seq<Piece>>, c: seq<Piece>)
    ensures RenderAll(chunks + [c]) == RenderAll(chunks) + [Render(c)]
  {
  }

  /** Packing from statement `i` on, after the chunks `done`. */
  function PackFrom(
    stmts: seq<string>, max: int, i: nat, path: string, hasPath: bool, cur: seq<Piece>, done: seq<seq<Piece>>)
    : Result<seq<seq<Piece>>>
    requires i <= |stmts|
    decreases |stmts| - i, |cur|
  {
    if i == |stmts| then Ok(if cur == [] then done else done + [cur])
    else
      var here := PathAfter(path, stmts[i]);
      var addition := Addition(stmts[i], here, hasPath);
      if |Render(addition)| > max then Err(TOO_BIG)
      else if |Render(cur)| + |Render(addition)| > max then PackFrom(stmts, max, i, here, false, [], done + [cur])
      else PackFrom(stmts, max, i + 1, here, HasPathAfter(stmts[i], here, hasPath), cur + addition, done)
  }

  lemma {:induction false} PackFromIsPack(
    stmts: seq<string>, max: int, i: nat, path: string, hasPath: bool, cur: seq<Piece>, done: seq<seq<Piece>>)
    requires i <= |stmts|
    ensures PackFrom(stmts, max, i, path, hasPath, cur, done) == Prepend(done, Pack(stmts[i..], max, path, cur, hasPath))
    decreases |stmts| - i, |cur|
  {
    if i == |stmts| {
      assert done + [] == done;
    } else {
      assert stmts[i..][0] == stmts[i] && stmts[i..][1..] == stmts[i + 1..];
      var here := PathAfter(path, stmts[i]);
      var addition := Addition(stmts[i], here, hasPath);
      if |Render(addition)| <= max {
        if |Render(cur)| + |Render(addition)| > max {
          PackFromIsPack(stmts, max, i, here, false, [], done + [cur]);
          var rest := Pack(stmts[i..], max, here, [], false);
          assert rest.Ok? ==> done + ([cur] + rest.value) == done + [cur] + rest.value;
        } else {
          PackFromIsPack(stmts, max, i + 1, here, HasPathAfter(stmts[i], here, hasPath), cur + addition, done);
        }
      }
    }
  }

  lemma PackTurn(
    stmts: seq<string>, max: int, i: nat, path: string, hasPath: bool, cur: seq<Piece>, done: seq<seq<Piece>>,
    here: string, addition: seq<Piece>)
    requires i < |stmts| && here == PathAfter(path, stmts[i]) && addition == Addition(stmts[i], here, hasPath)
    ensures PackFrom(stmts, max, i, path, hasPath, cur, done) ==
      if |Render(addition)| > max then Err(TOO_BIG)
      else if |Render(cur)| + |Render(addition)| > max then PackFrom(stmts, max, i, here, false, [], done + [cur])
      else PackFrom(stmts, max, i + 1, here, HasPathAfter(stmts[i], here, hasPath), cur + addition, done)
  {
  }

  /** The packing loop of splitRestoreScript: a retry after a flush visits the same statement again. */
  method PackStatements(stmts: seq<string>, max: int) returns (r: Result<seq<string>>)
    requires max > 0
    ensures var all := Prepend([], Pack(stmts, max, "", [], false));
      r == if all.Err? then Err(all.error) else Ok(RenderAll(all.value))
  {
    var chunks: seq<string> := [];
    var current, path, hasPath := "", "", false;
    ghost var done: seq<seq<Piece>>, cur: seq<Piece> := [], [];
    ghost var all := PackFrom(stmts, max, 0, "", false, [], []);
    PackFromIsPack(stmts, max, 0, "", false, [], []);
    assert stmts[0..] == stmts;
    var i := 0;
    while i < |stmts|
      invariant 0 <= i <= |stmts|
      invariant current == Render(cur) && chunks == RenderAll(done)
      invariant all == PackFrom(stmts, max, i, path, hasPath, cur, done)
      decreases |stmts| - i, |cur|
    {
      var stmt := stmts[i];
      var isPath := IsPath(stmt);
      var here := if isPath then PathText(stmt) else path;
      ghost var pieces := Addition(stmt, here, hasPath);
      PackTurn(stmts, max, i, path, hasPath, cur, done, here, pieces);
      RenderAddition(stmt, here, hasPath);
      path := here;
      var inject := !hasPath && path != "" && !isPath && !IsComment(stmt);
      var addition := (if inject then Newlined(path) else "") + Newlined(stmt);
      assert addition == Render(pieces);
      if |addition| > max {
        return Err(TOO_BIG);
      }
      if |current| + |addition| > max {
        assert all == PackFrom(stmts, max, i, path, false, [], done + [cur]);
        RenderEnds(cur);
        RenderAllSnoc(done, cur);
        chunks := chunks + [Newlined(current)];
        done, cur := done + [cur], [];
        current, hasPath := "", false;
        continue;
      }
      hasPath := hasPath || isPath || (path != "" && !IsComment(stmt));
      assert all == PackFrom(stmts, max, i + 1, path, hasPath, cur + pieces, done);
      RenderConcat(cur, pieces);
      current, cur := current + addition, cur + pieces;
      i := i + 1;
    }
    if cur != [] { RenderEnds(cur); }
    if |current| > 0 {
      RenderAllSnoc(done, cur);
      chunks := chunks + [Newlined(current)];
    }
    r := Ok(chunks);
  }

  /** splitRestoreScript. */
  method SplitRestoreScript(script: string, max: int) returns (r: Result<seq<string>>)
    ensures var chunks := Chunks(script, max);
      r == if chunks.Err? then Err(chunks.error) else Ok(RenderAll(chunks.value))
  {
    if max <= 0 {
      return Err("restore chunk size must be positive");
    }
    var statements := RestoreStatements(script);
    if statements.Err? {
      return Err(statements.error);
    }
    ghost var all := Pack(statements.value, max, "", [], false);
    assert all.Ok? ==> [] + all.value == all.value;
    r := PackStatements(statements.value, max);
    if r.Ok? && |r.value| == 0 {
      return Err("empty script");
    }
  }
}
