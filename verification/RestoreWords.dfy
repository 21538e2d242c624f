/**
  What makes a statement a menu path or a comment (internal/routeros/export.go), in terms of the words of its first
  line, and the text helpers behind it in terms of positions.
 */
module RestoreWords {
  import opened Text
  import opened RestoreScript
  import opened RestoreChunks

  /* ---- Words ---- */

  /** White space from `i` up to `j`. */
  predicate Blank(s: string, i: int, j: int)
    requires 0 <= i <= j <= |s|
  {
    forall k :: i <= k < j ==> IsSpace(s[k])
  }

  /** No white space from `i` up to `j`. */
  predicate Solid(s: string, i: int, j: int)
    requires 0 <= i <= j <= |s|
  {
    forall k :: i <= k < j ==> !IsSpace(s[k])
  }

  /** `s` from `i` up to `j` is a word: free of white space, with white space or an end on both sides. */
  predicate WordAt(s: string, i: int, j: int) {
    && 0 <= i < j <= |s| && Solid(s, i, j)
    && (i == 0 || IsSpace(s[i - 1])) && (j == |s| || IsSpace(s[j]))
  }

  /** Trimming takes the white space off both ends, and nothing else. */
  lemma TrimmedPart(s: string) returns (a: string, b: string)
    ensures s == a + TrimSpace(s) + b && Blank(a, 0, |a|) && Blank(b, 0, |b|) && Trimmed(TrimSpace(s))
  {
    var t := s[Leading(s)..];
    a, b := s[..Leading(s)], t[Kept(t)..];
    TailIsBlank(t);
    TrimSpaceCuts(s);
  }

  lemma TailIsBlank(t: string)
    ensures Blank(t[Kept(t)..], 0, |t| - Kept(t))
  {
    assert forall k :: Kept(t) <= k < |t| ==> t[Kept(t)..][k - Kept(t)] == t[k];
  }

  lemma {:induction false} WordEnds(s: string)
    ensures Solid(s, 0, WordLength(s)) && (WordLength(s) < |s| ==> IsSpace(s[WordLength(s)]))
  {
    if s != [] && !IsSpace(s[0]) {
      WordEnds(s[1..]);
      assert forall n :: 0 < n < |s| ==> s[n] == s[1..][n - 1];
    }
  }

  /** Where the first field starts and ends. */
  predicate HeadAt(s: string, a: int, k: int) {
    0 <= a < k <= |s| && Blank(s, 0, a) && Solid(s, a, k) && (k == |s| || IsSpace(s[k]))
  }

  lemma HeadOf(s: string, t: string, a: int, n: int)
    requires 0 <= a <= |s| && t == s[a..] && Blank(s, 0, a) && 0 < n <= |t| && Solid(t, 0, n) && (n < |t| ==> IsSpace(t[n]))
    ensures HeadAt(s, a, a + n) && t[..n] == s[a..a + n] && t[n..] == s[a + n..]
  {
    assert forall k :: a <= k < |s| ==> s[k] == t[k - a];
  }

  lemma FieldsStart(s: string)
    requires Fields(s) != []
    ensures var t := s[Leading(s)..]; t != [] && Fields(s) == [t[..WordLength(t)]] + Fields(t[WordLength(t)..])
  {
  }

  lemma HeadAtStart(s: string)
    requires s[Leading(s)..] != []
    ensures var a := Leading(s); var t := s[a..]; var n := WordLength(t);
      HeadAt(s, a, a + n) && t[..n] == s[a..a + n] && t[n..] == s[a + n..]
  {
    var t := s[Leading(s)..];
    assert t[0] == s[Leading(s)];
    WordEnds(t);
    HeadOf(s, t, Leading(s), WordLength(t));
  }

  lemma FirstWord(s: string) returns (a: int, k: int)
    requires Fields(s) != []
    ensures HeadAt(s, a, k) && Fields(s) == [s[a..k]] + Fields(s[k..])
  {
    FieldsStart(s);
    HeadAtStart(s);
    a, k := Leading(s), Leading(s) + WordLength(s[Leading(s)..]);
  }

  /** A word is the first field, or a word of what follows it. */
  lemma WordsSplit(s: string, a: int, k: int, i: int, j: int)
    requires HeadAt(s, a, k)
    ensures WordAt(s, i, j) <==> (i == a && j == k) || (i >= k && WordAt(s[k..], i - k, j - k))
  {
    if WordAt(s, i, j) { WordStarts(s, a, k, i, j); }
    if i >= k { WordMoves(s, k, i, j); }
    assert WordAt(s, a, k);
  }

  lemma WordStarts(s: string, a: int, k: int, i: int, j: int)
    requires HeadAt(s, a, k) && WordAt(s, i, j)
    ensures i >= a && (i < k ==> i == a && j == k) && i != k
  {
    assert !IsSpace(s[i]);
    assert i > 0 ==> IsSpace(s[i - 1]);
    assert j < |s| ==> IsSpace(s[j]);
  }

  /** The words after a position, seen from there. */
  lemma WordMoves(s: string, k: int, i: int, j: int)
    requires 0 <= k <= |s| && k <= i
    ensures WordAt(s[k..], i - k, j - k) <==>
      && 0 <= i < j <= |s| && Solid(s, i, j) && (i == k || IsSpace(s[i - 1])) && (j == |s| || IsSpace(s[j]))
  {
    var t := s[k..];
    assert forall n :: 0 <= n < |t| ==> t[n] == s[k + n];
    assert forall n :: k <= n < |s| ==> s[n] == t[n - k];
  }

  lemma NoFields(s: string)
    requires Fields(s) == []
    ensures Blank(s, 0, |s|)
  {
    assert s[Leading(s)..] == [];
  }

  lemma NoWord(s: string, i: int, j: int)
    requires Blank(s, 0, |s|)
    ensures !WordAt(s, i, j)
  {
    assert 0 <= i < |s| ==> IsSpace(s[i]);
  }

  ghost predicate HasWord(s: string, w: string) {
    exists i, j :: WordAt(s, i, j) && s[i..j] == w
  }

  lemma WordAfter(s: string, a: int, k: int, w: string)
    requires HeadAt(s, a, k)
    ensures HasWord(s[k..], w) <==> exists i, j :: i >= k && WordAt(s, i, j) && s[i..j] == w
  {
    if i, j :| i >= k && WordAt(s, i, j) && s[i..j] == w {
      WordsSplit(s, a, k, i, j);
      assert s[k..][i - k..j - k] == w;
    }
    if i, j :| WordAt(s[k..], i, j) && s[k..][i..j] == w {
      WordsSplit(s, a, k, k + i, k + j);
      assert s[k + i..k + j] == w;
    }
  }

  /** The fields of a text are its words. */
  lemma {:induction false} FieldsAreWords(s: string, w: string)
    ensures w in Fields(s) <==> HasWord(s, w)
    decreases |s|
  {
    if Fields(s) == [] {
      NoFields(s);
      forall i, j ensures !WordAt(s, i, j) { NoWord(s, i, j); }
    } else {
      var a, k := FirstWord(s);
      FieldsAreWords(s[k..], w);
      WordAfter(s, a, k, w);
      WordsSplit(s, a, k, a, k);
      if i, j :| WordAt(s, i, j) && s[i..j] == w { WordsSplit(s, a, k, i, j); }
    }
  }

  /** No word comes before position `i`. */
  predicate First(s: string, i: int)
    requires 0 <= i <= |s|
  {
    Blank(s, 0, i)
  }

  lemma FirstIsHead(s: string, a: int, k: int, i: int, j: int)
    requires HeadAt(s, a, k) && WordAt(s, i, j)
    ensures First(s, i) <==> i == a
    ensures i == a ==> j == k
    ensures i != a ==> i >= k
  {
    WordStarts(s, a, k, i, j);
    assert i > a ==> !IsSpace(s[a]);
  }

  /** The first field is the first word. */
  lemma FirstField(s: string, w: string)
    requires Fields(s) != []
    ensures Fields(s)[0] == w <==> exists i, j :: WordAt(s, i, j) && First(s, i) && s[i..j] == w
  {
    var a, k := FirstWord(s);
    WordsSplit(s, a, k, a, k);
    FirstIsHead(s, a, k, a, k);
    if i, j :| WordAt(s, i, j) && First(s, i) && s[i..j] == w { FirstIsHead(s, a, k, i, j); }
  }

  /** The other fields are the other words. */
  lemma LaterFields(s: string, w: string)
    requires Fields(s) != []
    ensures w in Fields(s)[1..] <==> exists i, j :: WordAt(s, i, j) && !First(s, i) && s[i..j] == w
  {
    var a, k := FirstWord(s);
    assert Fields(s)[1..] == Fields(s[k..]);
    FieldsAreWords(s[k..], w);
    WordAfter(s, a, k, w);
    if i, j :| WordAt(s, i, j) && !First(s, i) && s[i..j] == w { FirstIsHead(s, a, k, i, j); }
    if i, j :| i >= k && WordAt(s, i, j) && s[i..j] == w { FirstIsHead(s, a, k, i, j); }
  }

  /* ---- The last part of a menu path ---- */

  predicate Slashes(s: string) {
    forall c :: c in s ==> c == '/'
  }

  /** `w` ends in the path component `v`, whatever slashes follow. */
  ghost predicate EndsIn(w: string, v: string) {
    exists front, back :: w == front + v + back && Slashes(back) && (front == "" || front[|front| - 1] == '/')
  }

  lemma {:induction false} LeftTrimmed(w: string) returns (front: string)
    ensures w == front + TrimLeftSlash(w) && Slashes(front)
    ensures TrimLeftSlash(w) != [] ==> TrimLeftSlash(w)[0] != '/'
  {
    if w != [] && w[0] == '/' {
      front := LeftTrimmed(w[1..]);
      front := [w[0]] + front;
    } else {
      front := [];
    }
  }

  lemma {:induction false} RightTrimmed(w: string) returns (back: string)
    ensures w == TrimRightSlash(w) + back && Slashes(back)
    ensures TrimRightSlash(w) != [] ==> TrimRightSlash(w)[|TrimRightSlash(w)| - 1] != '/'
  {
    if w != [] && w[|w| - 1] == '/' {
      back := RightTrimmed(w[..|w| - 1]);
      back := back + [w[|w| - 1]];
    } else {
      back := [];
    }
  }

  /** The last part of a split text, and what is before it. */
  lemma {:induction false} LastPart(s: string) returns (front: string)
    ensures var parts := Split(s, '/'); var v := parts[|parts| - 1];
      s == front + v && '/' !in v && (front == "" || front[|front| - 1] == '/')
  {
    if s == [] {
      front := [];
    } else {
      var parts := Split(s, '/');
      front := LastPart(s[1..]);
      if s[0] == '/' {
        front := [s[0]] + front;
      } else if front != [] {
        OnePart(s[1..]);
        assert front[|front| - 1] in s[1..];
        front := [s[0]] + front;
      } else {
        assert '/' !in s[1..];
        SplitOne(s, '/') by { assert s == [s[0]] + s[1..]; }
      }
    }
  }

  lemma OnePart(s: string)
    ensures |Split(s, '/')| == 1 ==> '/' !in s
  {
    JoinSplit(s, '/');
    SplitFree(s, '/');
  }

  /** After the cut there is no slash, and before it stands one. */
  lemma CutAt(front: string, v: string)
    requires '/' !in v && (front == "" || front[|front| - 1] == '/')
    ensures var s := front + v;
      (forall k :: |front| <= k < |s| ==> s[k] != '/') && (front != "" ==> s[|front| - 1] == '/')
  {
  }

  /** Two ways to cut off the last component agree. */
  lemma SameLast(front: string, v: string, front': string, v': string)
    requires front + v == front' + v' && '/' !in v && '/' !in v'
    requires (front == "" || front[|front| - 1] == '/') && (front' == "" || front'[|front'| - 1] == '/')
    ensures v == v'
  {
    var s := front + v;
    CutAt(front, v);
    CutAt(front', v');
    assert |front| == |front'|;
    assert v == s[|front|..] && v' == s[|front'|..];
  }

  function LastComponent(w: string): string {
    LastOf(TrimRightSlash(TrimLeftSlash(w)))
  }

  /** After the text only slashes follow, and it does not end in one. */
  lemma BackAt(a: string, back: string)
    requires Slashes(back) && a != "" && a[|a| - 1] != '/'
    ensures var s := a + back; (forall k :: |a| <= k < |s| ==> s[k] == '/') && s[|a| - 1] != '/'
  {
    var s := a + back;
    forall k | |a| <= k < |s| ensures s[k] == '/' { assert s[k] == back[k - |a|] && back[k - |a|] in back; }
  }

  lemma BackIsSame(a: string, back: string, a': string, back': string)
    requires a + back == a' + back' && Slashes(back) && Slashes(back')
    requires a != "" && a[|a| - 1] != '/' && a' != "" && a'[|a'| - 1] != '/'
    ensures a == a'
  {
    var s := a + back;
    BackAt(a, back);
    BackAt(a', back');
    assert |a| == |a'|;
    assert a == s[..|a|] && a' == s[..|a'|];
  }

  function LastOf(path: string): string {
    var parts := Split(path, '/');
    parts[|parts| - 1]
  }

  lemma Regroup(a: string, b: string, c: string, d: string)
    ensures a + ((b + c) + d) == a + b + c + d
  {
  }

  lemma LastOfPath(path: string) returns (front: string)
    requires path != "" ==> path[|path| - 1] != '/'
    ensures path == front + LastOf(path) && '/' !in LastOf(path) && (front == "" || front[|front| - 1] == '/')
    ensures LastOf(path) == "" ==> front == ""
  {
    front := LastPart(path);
    if LastOf(path) == "" { assert path == front; }
  }

  /** A word cut into slashes, a path that does not end in one, cut before its last component, and slashes. */
  lemma Parts(w: string) returns (left: string, front: string, right: string)
    ensures w == left + front + LastComponent(w) + right && Slashes(left) && Slashes(right)
    ensures '/' !in LastComponent(w) && (front == "" || front[|front| - 1] == '/')
    ensures LastComponent(w) == "" ==> front == ""
  {
    left := LeftTrimmed(w);
    right := RightTrimmed(TrimLeftSlash(w));
    front := LastOfPath(TrimRightSlash(TrimLeftSlash(w)));
    Regroup(left, front, LastComponent(w), right);
  }

  /** The component the source looks at is the last one of the word that is not empty. */
  lemma LastComponentEnds(w: string, v: string)
    requires v != "" && '/' !in v
    ensures LastComponent(w) == v <==> EndsIn(w, v)
  {
    var left, front, right := Parts(w);
    SlashFront(left, front);
    var before, last := left + front, LastComponent(w);
    assert w == before + last + right;
    if last == v { assert EndsIn(w, v); }
    if EndsIn(w, v) { OnlyEnd(w, before, last, right, v); }
  }

  lemma OnlyEnd(w: string, before: string, last: string, right: string, v: string)
    requires w == before + last + right && Slashes(right) && '/' !in last && v != "" && '/' !in v && EndsIn(w, v)
    requires (before == "" || before[|before| - 1] == '/') && (last == "" ==> Slashes(before))
    ensures last == v
  {
    var front, back :| w == front + v + back && Slashes(back) && (front == "" || front[|front| - 1] == '/');
    EndsOnce(before, last, right, front, v, back);
  }

  lemma SlashFront(left: string, front: string)
    requires Slashes(left) && (front == "" || front[|front| - 1] == '/')
    ensures left + front == "" || (left + front)[|left + front| - 1] == '/'
    ensures front == "" ==> Slashes(left + front)
  {
    if front == "" {
      assert left + front == left;
      if left != "" { assert left[|left| - 1] in left; }
    }
  }

  lemma SlashesConcat(a: string, b: string)
    requires Slashes(a) && Slashes(b)
    ensures forall k :: 0 <= k < |a + b| ==> (a + b)[k] == '/'
  {
    assert forall c :: c in a + b ==> c in a || c in b;
    assert forall k :: 0 <= k < |a + b| ==> (a + b)[k] in a + b;
  }

  /** Two ways to read a word as a path that ends in a component agree on the component. */
  lemma EndsOnce(front: string, v: string, back: string, front': string, v': string, back': string)
    requires front + v + back == front' + v' + back' && Slashes(back) && Slashes(back') && '/' !in v && '/' !in v' && v' != ""
    requires (front == "" || front[|front| - 1] == '/') && (front' == "" || front'[|front'| - 1] == '/')
    requires v == "" ==> Slashes(front)
    ensures v == v'
  {
    var w := front + v + back;
    assert w[|front'|] == v'[0] && v'[0] in v' && v'[|v'| - 1] in v';
    if v == "" {
      assert w == front + back;
      SlashesConcat(front, back);
    } else {
      assert v[|v| - 1] in v;
      BackIsSame(front + v, back, front' + v', back');
      SameLast(front, v, front', v');
    }
  }

  /* ---- Menu paths and comments ---- */

  predicate Verb(w: string) {
    || w == "add" || w == "set" || w == "remove" || w == "move" || w == "enable" || w == "disable"
    || w == "comment" || w == "reset" || w == "print"
  }

  /** A word of the line is a verb; in the first one, which may be a whole path, its last component counts. */
  ghost predicate Commands(line: string) {
    exists i, j :: WordAt(line, i, j) &&
      exists v :: Verb(v) && if First(line, i) then EndsIn(line[i..j], v) else line[i..j] == v
  }

  lemma VerbsAreWords(v: string)
    requires Verb(v)
    ensures v != "" && '/' !in v && IsVerb(v)
  {
  }

  lemma CommandsExactly(line: string)
    ensures HasVerb(line) <==> Commands(line)
  {
    if HasVerb(line) { VerbCommands(line); }
    if Commands(line) { CommandHasVerb(line); }
  }

  lemma VerbCommands(line: string)
    requires HasVerb(line)
    ensures Commands(line)
  {
    var fields := Fields(line);
    var last := LastComponent(fields[0]);
    if IsVerb(last) {
      assert Verb(last);
      VerbsAreWords(last);
      LastComponentEnds(fields[0], last);
      FirstField(line, fields[0]);
      var i, j :| WordAt(line, i, j) && First(line, i) && line[i..j] == fields[0];
    } else {
      var n :| 0 < n < |fields| && IsVerb(fields[n]);
      var w := fields[n];
      assert fields[1..][n - 1] == w && Verb(w);
      LaterFields(line, w);
      var i, j :| WordAt(line, i, j) && !First(line, i) && line[i..j] == w;
    }
  }

  lemma FirstHasVerb(line: string, i: int, j: int, v: string)
    requires WordAt(line, i, j) && First(line, i) && Verb(v) && EndsIn(line[i..j], v)
    ensures HasVerb(line)
  {
    VerbsAreWords(v);
    FieldsAreWords(line, line[i..j]);
    FirstField(line, line[i..j]);
    LastComponentEnds(line[i..j], v);
  }

  lemma LaterHasVerb(line: string, i: int, j: int)
    requires WordAt(line, i, j) && !First(line, i) && Verb(line[i..j])
    ensures HasVerb(line)
  {
    var w := line[i..j];
    VerbsAreWords(w);
    FieldsAreWords(line, w);
    LaterFields(line, w);
    var n :| 0 <= n < |Fields(line)[1..]| && Fields(line)[1..][n] == w;
    assert Fields(line)[n + 1] == w;
  }

  lemma CommandHasVerb(line: string)
    requires Commands(line)
    ensures HasVerb(line)
  {
    var i, j :| WordAt(line, i, j) &&
      exists v :: Verb(v) && if First(line, i) then EndsIn(line[i..j], v) else line[i..j] == v;
    var v :| Verb(v) && if First(line, i) then EndsIn(line[i..j], v) else line[i..j] == v;
    if First(line, i) { FirstHasVerb(line, i, j, v); } else { LaterHasVerb(line, i, j); }
  }

  lemma FirstLineOf(stmt: string, first: string, rest: string)
    requires '\n' !in first && (stmt == first || stmt == first + "\n" + rest)
    ensures FirstLine(stmt) == first
  {
    if stmt == first {
      SplitOne(first, '\n');
    } else {
      assert stmt == first + ['\n'] + rest;
      SplitAt(first, rest, '\n');
    }
  }

  /** A statement is a menu path exactly if its first line starts with a slash and none of its words is a verb. */
  lemma PathsExactly(stmt: string, first: string, rest: string)
    requires '\n' !in first && (stmt == first || stmt == first + "\n" + rest)
    ensures PathText(stmt) == TrimSpace(first)
    ensures IsPath(stmt) <==>
      var line := TrimSpace(first); line != "" && line[0] == '/' && !Commands(line)
  {
    FirstLineOf(stmt, first, rest);
    var line := TrimSpace(first);
    CommandsExactly(line);
    SlashFirst(line);
  }

  lemma SlashFirst(line: string)
    ensures HasPrefix(line, "/") <==> line != "" && line[0] == '/'
  {
    if line != "" { assert line[..1] == [line[0]]; }
  }

  /** The first character that is not white space comes right after the white space at the front. */
  lemma FirstOther(s: string, a: string, t: string, b: string, k: int)
    requires s == a + t + b && Blank(a, 0, |a|) && Blank(b, 0, |b|) && (t != "" ==> !IsSpace(t[0]))
    requires 0 <= k < |s| && !IsSpace(s[k]) && Blank(s, 0, k)
    ensures t != "" && k == |a|
  {
    assert forall n :: 0 <= n < |a| ==> s[n] == a[n];
    assert forall n :: |a| + |t| <= n < |s| ==> s[n] == b[n - |a| - |t|];
    assert t != "" ==> s[|a|] == t[0];
  }

  /** A statement is a comment exactly if the first character that is not white space is a hash. */
  lemma CommentsExactly(stmt: string)
    ensures IsComment(stmt) <==> exists k :: 0 <= k < |stmt| && stmt[k] == '#' && Blank(stmt, 0, k)
  {
    var a, b := TrimmedPart(stmt);
    var t := TrimSpace(stmt);
    if IsComment(stmt) {
      assert stmt[|a|] == t[0] && forall n :: 0 <= n < |a| ==> stmt[n] == a[n];
    }
    if k :| 0 <= k < |stmt| && stmt[k] == '#' && Blank(stmt, 0, k) {
      FirstOther(stmt, a, t, b, k);
      assert stmt[|a|] == t[0];
    }
  }
}
