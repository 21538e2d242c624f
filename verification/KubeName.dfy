/** The name field of the web UI (web/ui/src/utils/k8sName.ts).  A `char` stands for one UTF-16 unit. */
module KubeName {
  import opened Text

  const MAX_LENGTH := 253

  predicate Alnum(c: char) {
    'a' <= c <= 'z' || '0' <= c <= '9'
  }

  predicate Allowed(c: char) {
    Alnum(c) || c == '-' || c == '.'
  }

  predicate AllAllowed(s: string) {
    forall c :: c in s ==> Allowed(c)
  }

  /* ---- Valid names: the regular expression DNS1123_SUBDOMAIN, label by label ---- */

  predicate Label(l: string) {
    l != [] && Alnum(l[0]) && Alnum(l[|l| - 1]) && forall c :: c in l ==> Alnum(c) || c == '-'
  }

  predicate Subdomain(s: string) {
    forall i :: 0 <= i < |Split(s, '.')| ==> Label(Split(s, '.')[i])
  }

  datatype NameError = NoError | Required | TooLong | Malformed

  /** kubernetesNameError. */
  function ErrorOf(name: string): NameError {
    if name == "" then Required
    else if |name| > MAX_LENGTH then TooLong
    else if !Subdomain(name) then Malformed
    else NoError
  }

  /* ---- The rewriting steps ---- */

  /** replace(/[^a-z0-9.-]+/g, '-'). */
  function ReplaceRuns(s: string): string {
    if s == [] then []
    else if Allowed(s[0]) then [s[0]] + ReplaceRuns(s[1..])
    else if |s| > 1 && !Allowed(s[1]) then ReplaceRuns(s[1..])
    else ['-'] + ReplaceRuns(s[1..])
  }

  /** replace(/c{2,}/g, c). */
  function Collapse(s: string, c: char): string {
    if s == [] then []
    else if |s| > 1 && s[0] == c && s[1] == c then Collapse(s[1..], c)
    else [s[0]] + Collapse(s[1..], c)
  }

  /** Hyphens, if any, and then a dot. */
  predicate LeadsToDot(s: string) {
    s != [] && (s[0] == '.' || (s[0] == '-' && LeadsToDot(s[1..])))
  }

  /** replace(/-+\./g, '.'). */
  function DropBefore(s: string): string {
    if s == [] then []
    else if s[0] == '-' && LeadsToDot(s[1..]) then DropBefore(s[1..])
    else [s[0]] + DropBefore(s[1..])
  }

  function SkipHyphens(s: string): (r: string)
    ensures |r| <= |s| && (r != [] ==> r[0] != '-')
  {
    if s != [] && s[0] == '-' then SkipHyphens(s[1..]) else s
  }

  /** replace(/\.-+/g, '.'). */
  function DropAfter(s: string): string
    decreases |s|
  {
    if s == [] then []
    else if s[0] == '.' then ['.'] + DropAfter(SkipHyphens(s[1..]))
    else [s[0]] + DropAfter(s[1..])
  }

  predicate Edge(c: char) {
    c == '-' || c == '.'
  }

  /** replace(/^[-.]+/, ''). */
  function StripLeft(s: string): string {
    if s != [] && Edge(s[0]) then StripLeft(s[1..]) else s
  }

  /** replace(/[-.]+$/, ''). */
  function StripRight(s: string): string {
    if s != [] && Edge(s[|s| - 1]) then StripRight(s[..|s| - 1]) else s
  }

  function Rewritten(lowered: string): string {
    var hyphens := Collapse(ReplaceRuns(lowered), '-');
    var dots := Collapse(hyphens, '.');
    Collapse(DropAfter(DropBefore(dots)), '.')
  }

  function Truncate(s: string): string {
    if |s| > MAX_LENGTH then s[..MAX_LENGTH] else s
  }

  function Sanitize(lower: string -> string, raw: string, finalize: bool): string {
    var value := StripLeft(Rewritten(lower(raw)));
    if finalize then StripRight(Truncate(StripRight(value))) else Truncate(value)
  }

  /** sanitizeKubernetesName, as it reassigns its value. */
  method SanitizeName(lower: string -> string, raw: string, finalize: bool) returns (value: string)
    ensures value == Sanitize(lower, raw, finalize) && |value| <= 253
  {
    StripRightShortens(StripLeft(Rewritten(lower(raw))));
    value := ReplaceRuns(lower(raw));
    value := Collapse(Collapse(value, '-'), '.');
    value := DropAfter(DropBefore(value));
    value := Collapse(value, '.');
    value := StripLeft(value);
    if finalize {
      value := StripRight(value);
    }
    if |value| > MAX_LENGTH {
      value := value[..MAX_LENGTH];
      StripRightShortens(value);
      if finalize {
        value := StripRight(value);
      }
    } else if finalize {
      StripRightTwice(StripLeft(Rewritten(lower(raw))));
    }
  }

  lemma {:induction false} StripRightShortens(s: string)
    ensures |StripRight(s)| <= |s| && StripRight(s) == s[..|StripRight(s)|]
    ensures StripRight(s) != [] ==> !Edge(StripRight(s)[|StripRight(s)| - 1])
  {
    if s != [] && Edge(s[|s| - 1]) {
      StripRightShortens(s[..|s| - 1]);
    }
  }

  lemma StripRightTwice(s: string)
    ensures StripRight(StripRight(s)) == StripRight(s)
  {
    StripRightShortens(s);
  }

  lemma {:induction false} StripLeftShortens(s: string)
    ensures |StripLeft(s)| <= |s| && StripLeft(s) == s[|s| - |StripLeft(s)|..]
    ensures StripLeft(s) != [] ==> !Edge(StripLeft(s)[0])
  {
    if s != [] && Edge(s[0]) {
      StripLeftShortens(s[1..]);
    }
  }

  /* ---- Adjacent characters ---- */

  /** Nowhere does `b` follow `a`. */
  predicate NoPair(s: string, a: char, b: char) {
    forall i :: 0 < i < |s| ==> !(s[i - 1] == a && s[i] == b)
  }

  lemma NoPairCons(c: char, s: string, a: char, b: char)
    requires NoPair(s, a, b) && (s != [] && c == a ==> s[0] != b)
    ensures NoPair([c] + s, a, b)
  {
  }

  lemma NoPairSlice(s: string, i: nat, j: nat, a: char, b: char)
    requires i <= j <= |s| && NoPair(s, a, b)
    ensures NoPair(s[i..j], a, b)
  {
    forall k | 0 < k < |s[i..j]| ensures !(s[i..j][k - 1] == a && s[i..j][k] == b) {
      assert s[i..j][k] == s[i + k] && s[i..j][k - 1] == s[i + k - 1];
    }
  }

  lemma NoPairTail(s: string, a: char, b: char)
    requires s != [] && NoPair(s, a, b)
    ensures NoPair(s[1..], a, b) && (|s| > 1 && s[0] == a ==> s[1] != b)
  {
    NoPairSlice(s, 1, |s|, a, b);
  }

  lemma {:induction false} ReplacedAllowed(s: string)
    ensures AllAllowed(ReplaceRuns(s)) && (AllAllowed(s) ==> ReplaceRuns(s) == s)
  {
    if s != [] {
      assert AllAllowed(s) ==> Allowed(s[0]) && AllAllowed(s[1..]);
      ReplacedAllowed(s[1..]);
    }
  }

  lemma {:induction false} Collapsed(s: string, c: char)
    ensures NoPair(Collapse(s, c), c, c) && (NoPair(s, c, c) ==> Collapse(s, c) == s)
    ensures (s != [] ==> Collapse(s, c) != [] && Collapse(s, c)[0] == s[0])
    ensures AllAllowed(s) ==> AllAllowed(Collapse(s, c))
  {
    if s != [] {
      assert AllAllowed(s) ==> Allowed(s[0]) && AllAllowed(s[1..]);
      Collapsed(s[1..], c);
      if NoPair(s, c, c) { NoPairTail(s, c, c); }
      if !(|s| > 1 && s[0] == c && s[1] == c) {
        NoPairCons(s[0], Collapse(s[1..], c), c, c);
      }
    }
  }

  lemma {:induction false} CollapseKeeps(s: string, c: char, a: char, b: char)
    requires NoPair(s, a, b)
    ensures NoPair(Collapse(s, c), a, b)
  {
    if s != [] {
      NoPairTail(s, a, b);
      CollapseKeeps(s[1..], c, a, b);
      Collapsed(s[1..], c);
      if !(|s| > 1 && s[0] == c && s[1] == c) {
        NoPairCons(s[0], Collapse(s[1..], c), a, b);
      }
    }
  }

  lemma {:induction false} DroppedBefore(s: string)
    ensures NoPair(DropBefore(s), '-', '.')
    ensures s != [] ==> DropBefore(s) != [] && DropBefore(s)[0] == if LeadsToDot(s) then '.' else s[0]
    ensures NoPair(s, '-', '-') ==> NoPair(DropBefore(s), '-', '-')
    ensures NoPair(s, '-', '-') && NoPair(s, '-', '.') ==> DropBefore(s) == s
    ensures AllAllowed(s) ==> AllAllowed(DropBefore(s))
  {
    if s != [] {
      assert AllAllowed(s) ==> Allowed(s[0]) && AllAllowed(s[1..]);
      var rest := DropBefore(s[1..]);
      DroppedBefore(s[1..]);
      if NoPair(s, '-', '-') { NoPairTail(s, '-', '-'); }
      if NoPair(s, '-', '.') { NoPairTail(s, '-', '.'); }
      if !(s[0] == '-' && LeadsToDot(s[1..])) {
        NoPairCons(s[0], rest, '-', '.');
        if NoPair(s, '-', '-') { NoPairCons(s[0], rest, '-', '-'); }
      }
    }
  }

  lemma {:induction false} Skipped(s: string)
    ensures SkipHyphens(s) == s[|s| - |SkipHyphens(s)|..]
  {
    if s != [] && s[0] == '-' { Skipped(s[1..]); }
  }

  lemma {:induction false} DroppedAfter(s: string)
    ensures NoPair(DropAfter(s), '.', '-')
    ensures s != [] ==> DropAfter(s) != [] && DropAfter(s)[0] == s[0]
    ensures AllAllowed(s) ==> AllAllowed(DropAfter(s))
    decreases |s|
  {
    if s != [] {
      var next := if s[0] == '.' then SkipHyphens(s[1..]) else s[1..];
      Skipped(s[1..]);
      assert AllAllowed(s) ==> Allowed(s[0]) && AllAllowed(next);
      DroppedAfter(next);
      assert DropAfter(s) == [s[0]] + DropAfter(next);
      NoPairCons(s[0], DropAfter(next), '.', '-');
    }
  }

  /** What is left of `s` once its first character is dealt with. */
  function AfterFirst(s: string): (next: string)
    requires s != []
    ensures |next| < |s| && DropAfter(s) == [s[0]] + DropAfter(next)
  {
    if s[0] == '.' then SkipHyphens(s[1..]) else s[1..]
  }

  lemma AfterFirstKeeps(s: string, a: char, b: char)
    requires s != [] && NoPair(s, a, b)
    ensures NoPair(AfterFirst(s), a, b)
    ensures a != '.' && AfterFirst(s) != [] && s[0] == a ==> AfterFirst(s)[0] != b
  {
    var next := AfterFirst(s);
    Skipped(s[1..]);
    NoPairSlice(s, |s| - |next|, |s|, a, b);
    assert s[|s| - |next|..|s|] == next;
    NoPairTail(s, a, b);
  }

  lemma {:induction false} DropAfterKeeps(s: string, a: char, b: char)
    requires NoPair(s, a, b) && a != '.'
    ensures NoPair(DropAfter(s), a, b)
    decreases |s|
  {
    if s != [] {
      AfterFirstKeeps(s, a, b);
      DropAfterKeeps(AfterFirst(s), a, b);
      DroppedAfter(AfterFirst(s));
      NoPairCons(s[0], DropAfter(AfterFirst(s)), a, b);
    }
  }

  lemma {:induction false} NothingToDrop(s: string)
    requires NoPair(s, '.', '-')
    ensures DropAfter(s) == s
    decreases |s|
  {
    if s != [] {
      NoPairTail(s, '.', '-');
      NothingToDrop(s[1..]);
    }
  }

  /** No dot has a dot or a hyphen beside it, and no two hyphens are adjacent. */
  predicate Tidy(s: string) {
    AllAllowed(s) && NoPair(s, '.', '.') && NoPair(s, '-', '.') && NoPair(s, '.', '-') && NoPair(s, '-', '-')
  }

  lemma RewrittenIsTidy(s: string)
    ensures Tidy(Rewritten(s))
  {
    var a := ReplaceRuns(s);
    var b := Collapse(a, '-');
    var c := Collapse(b, '.');
    var d := DropBefore(c);
    var e := DropAfter(d);
    ReplacedAllowed(s);
    Collapsed(a, '-');
    Collapsed(b, '.');
    CollapseKeeps(b, '.', '-', '-');
    DroppedBefore(c);
    DroppedAfter(d);
    DropAfterKeeps(d, '-', '.');
    DropAfterKeeps(d, '-', '-');
    Collapsed(e, '.');
    CollapseKeeps(e, '.', '-', '.');
    CollapseKeeps(e, '.', '.', '-');
    CollapseKeeps(e, '.', '-', '-');
  }

  lemma TidyIsRewritten(s: string)
    requires Tidy(s)
    ensures Rewritten(s) == s
  {
    ReplacedAllowed(s);
    Collapsed(s, '-');
    Collapsed(s, '.');
    DroppedBefore(s);
    NothingToDrop(s);
  }

  lemma TidySlice(s: string, i: nat, j: nat)
    requires i <= j <= |s| && Tidy(s)
    ensures Tidy(s[i..j])
  {
    NoPairSlice(s, i, j, '.', '.');
    NoPairSlice(s, i, j, '-', '.');
    NoPairSlice(s, i, j, '.', '-');
    NoPairSlice(s, i, j, '-', '-');
  }

  /* ---- Tidy names with alphanumeric ends are valid ---- */

  /** Reads a name that has already started. */
  predicate Flows(s: string) {
    s == [] ||
    (Flows(s[1..]) &&
     if s[0] == '.' then |s| > 1 && Alnum(s[1])
     else if s[0] == '-' then |s| > 1 && s[1] != '.'
     else Alnum(s[0]))
  }

  predicate LabelTail(l: string) {
    (l == [] || Alnum(l[|l| - 1])) && forall c :: c in l ==> Alnum(c) || c == '-'
  }

  predicate TailLabels(parts: seq<string>) {
    parts != [] && LabelTail(parts[0]) && forall i :: 0 < i < |parts| ==> Label(parts[i])
  }

  lemma LabelTailCons(c: char, l: string)
    requires c != '.'
    ensures LabelTail([c] + l) <==> LabelTail(l) && (Alnum(c) || (c == '-' && l != []))
  {
    var s := [c] + l;
    assert c in s && forall x :: x in l ==> x in s;
    if l != [] { assert s[|s| - 1] == l[|l| - 1]; }
  }

  lemma {:induction false} FlowsIsLabels(s: string)
    ensures Flows(s) <==> TailLabels(Split(s, '.'))
    ensures Split(s, '.')[0] == [] <==> s == [] || s[0] == '.'
    ensures s != [] && s[0] != '.' ==> Split(s, '.')[0][0] == s[0]
  {
    if s != [] {
      var parts := Split(s[1..], '.');
      FlowsIsLabels(s[1..]);
      if s[0] == '.' {
        assert Split(s, '.') == [[]] + parts;
        assert TailLabels([[]] + parts) <==> Label(parts[0]) && TailLabels(parts) by { TailLabelsCons(parts); }
      } else {
        LabelTailCons(s[0], parts[0]);
        TailLabelsPush(s[0], parts);
      }
    }
  }

  lemma TailLabelsCons(parts: seq<string>)
    requires parts != []
    ensures TailLabels([[]] + parts) <==> Label(parts[0]) && TailLabels(parts)
  {
    var more := [[]] + parts;
    assert forall i :: 0 < i < |more| ==> more[i] == parts[i - 1];
    if Label(parts[0]) && TailLabels(parts) {
      forall i | 0 < i < |more| ensures Label(more[i]) { assert more[i] == parts[i - 1]; }
    }
    if TailLabels(more) {
      assert Label(more[1]);
      forall i | 0 < i < |parts| ensures Label(parts[i]) { assert more[i + 1] == parts[i]; }
    }
  }

  lemma TailLabelsPush(c: char, parts: seq<string>)
    requires parts != []
    ensures TailLabels([[c] + parts[0]] + parts[1..]) <==>
      LabelTail([c] + parts[0]) && forall i :: 0 < i < |parts| ==> Label(parts[i])
  {
    var more := [[c] + parts[0]] + parts[1..];
    assert forall i :: 0 < i < |more| ==> more[i] == parts[i];
  }

  lemma SubdomainFlows(s: string)
    ensures Subdomain(s) <==> s != [] && Alnum(s[0]) && Flows(s)
  {
    FlowsIsLabels(s);
    var parts := Split(s, '.');
    if Subdomain(s) { assert Label(parts[0]); }
    if s != [] && Alnum(s[0]) && Flows(s) {
      forall i | 0 <= i < |parts| ensures Label(parts[i]) {}
    }
  }

  lemma {:induction false} TidyFlows(s: string)
    requires Tidy(s) && (s != [] ==> Alnum(s[|s| - 1]))
    ensures Flows(s)
  {
    if s != [] {
      TidySlice(s, 1, |s|);
      assert s[1..|s|] == s[1..];
      assert s[0] in s;
      if |s| > 1 { assert s[1] in s; }
      TidyFlows(s[1..]);
    }
  }

  lemma {:induction false} FlowsTidy(s: string)
    requires Flows(s) && NoPair(s, '-', '-')
    ensures Tidy(s) && (s != [] ==> Alnum(s[|s| - 1]))
  {
    if s != [] {
      NoPairTail(s, '-', '-');
      FlowsTidy(s[1..]);
      assert s == [s[0]] + s[1..];
      NoPairCons(s[0], s[1..], '.', '.');
      NoPairCons(s[0], s[1..], '-', '.');
      NoPairCons(s[0], s[1..], '.', '-');
    }
  }

  lemma TidyIsSubdomain(s: string)
    requires Tidy(s) && s != [] && !Edge(s[0]) && !Edge(s[|s| - 1])
    ensures Subdomain(s)
  {
    assert s[0] in s && s[|s| - 1] in s;
    TidyFlows(s);
    SubdomainFlows(s);
  }

  /* ---- The sanitizer ---- */

  /** Lowering leaves names alone; what it makes of other characters does not matter. */
  ghost predicate Lowers(lower: string -> string) {
    forall s :: AllAllowed(s) ==> lower(s) == s
  }

  lemma StripLeftTidy(s: string)
    requires Tidy(s)
    ensures Tidy(StripLeft(s))
  {
    StripLeftShortens(s);
    var r := StripLeft(s);
    TidySlice(s, |s| - |r|, |s|);
    assert s[|s| - |r|..|s|] == r;
  }

  /** A tidy name that starts with a letter or digit, or is empty. */
  predicate Started(s: string) {
    Tidy(s) && (s != [] ==> !Edge(s[0]))
  }

  lemma PrefixStarted(s: string, k: nat)
    requires Started(s) && k <= |s|
    ensures Started(s[..k])
  {
    TidySlice(s, 0, k);
    assert s[0..k] == s[..k];
  }

  lemma StripRightStarted(s: string)
    requires Started(s)
    ensures Started(StripRight(s))
  {
    StripRightShortens(s);
    PrefixStarted(s, |StripRight(s)|);
  }

  lemma FinalIsTidy(lower: string -> string, raw: string)
    ensures var r := Sanitize(lower, raw, true);
      Started(r) && |r| <= MAX_LENGTH && (r != [] ==> !Edge(r[|r| - 1]))
  {
    var value := StripLeft(Rewritten(lower(raw)));
    RewrittenIsTidy(lower(raw));
    StripLeftTidy(Rewritten(lower(raw)));
    StripLeftShortens(Rewritten(lower(raw)));
    StripRightStarted(value);
    var cut := Truncate(StripRight(value));
    PrefixStarted(StripRight(value), |cut|);
    assert StripRight(value)[..|cut|] == cut;
    StripRightStarted(cut);
    StripRightShortens(cut);
  }

  /** A finished name is empty or passes the validation. */
  lemma SanitizedIsValid(lower: string -> string, raw: string)
    ensures var r := Sanitize(lower, raw, true); ErrorOf(r) == if r == "" then Required else NoError
  {
    var r := Sanitize(lower, raw, true);
    FinalIsTidy(lower, raw);
    if r != [] { TidyIsSubdomain(r); }
  }

  lemma TidyIsFinal(lower: string -> string, s: string)
    requires Lowers(lower) && Started(s) && |s| <= MAX_LENGTH && (s != [] ==> !Edge(s[|s| - 1]))
    ensures Sanitize(lower, s, true) == s
  {
    TidyIsRewritten(s);
  }

  lemma SanitizeTwice(lower: string -> string, raw: string)
    requires Lowers(lower)
    ensures Sanitize(lower, Sanitize(lower, raw, true), true) == Sanitize(lower, raw, true)
  {
    FinalIsTidy(lower, raw);
    TidyIsFinal(lower, Sanitize(lower, raw, true));
  }

  /** The names left as they are: the empty one, and the valid ones without two hyphens in a row. */
  lemma UnchangedExactly(lower: string -> string, s: string)
    requires Lowers(lower)
    ensures Sanitize(lower, s, true) == s <==> s == "" || (Subdomain(s) && |s| <= 253 && NoPair(s, '-', '-'))
  {
    if Sanitize(lower, s, true) == s {
      SanitizedIsValid(lower, s);
      FinalIsTidy(lower, s);
    }
    if s != "" && Subdomain(s) && |s| <= 253 && NoPair(s, '-', '-') {
      SubdomainFlows(s);
      FlowsTidy(s);
      TidyIsFinal(lower, s);
    }
    if s == "" { TidyIsFinal(lower, s); }
  }

  /** A valid name that the sanitizer changes. */
  lemma DoubleHyphenIsValid()
    ensures ErrorOf("a--b") == NoError && !NoPair("a--b", '-', '-')
  {
    SplitOne("a--b", '.');
    assert "a--b"[1] == '-' && "a--b"[2] == '-';
  }

  /* ---- The rewriting steps, in terms of the runs they replace ---- */

  predicate NoneAllowed(s: string) {
    forall c :: c in s ==> !Allowed(c)
  }

  lemma {:induction false} RunAlone(run: string, rest: string)
    requires run != [] && NoneAllowed(run) && (rest != [] ==> Allowed(rest[0]))
    ensures ReplaceRuns(run + rest) == "-" + ReplaceRuns(rest)
    decreases |run|
  {
    var s := run + rest;
    assert s[0] in run && s[1..] == run[1..] + rest;
    if |run| > 1 {
      assert s[1] == run[1] && run[1] in run;
      RunAlone(run[1..], rest);
    } else {
      assert s[1..] == rest;
    }
  }

  /** A longest run of forbidden characters becomes one hyphen; what is before it stays. */
  lemma {:induction false} RunBecomesHyphen(front: string, run: string, rest: string)
    requires AllAllowed(front) && run != [] && NoneAllowed(run) && (rest != [] ==> Allowed(rest[0]))
    ensures ReplaceRuns(front + run + rest) == front + "-" + ReplaceRuns(rest)
    decreases |front|
  {
    if front == [] {
      RunAlone(run, rest);
      assert front + run + rest == run + rest;
    } else {
      var s, more := front + run + rest, front[1..];
      assert front[0] in front && s[0] == front[0] && s[1..] == more + run + rest;
      RunBecomesHyphen(more, run, rest);
      assert [front[0]] + (more + "-" + ReplaceRuns(rest)) == front + "-" + ReplaceRuns(rest);
    }
  }

  function Repeat(c: char, n: nat): string {
    seq(n, _ => c)
  }

  /** A longest run of the character becomes one of it; what is before it, without such a pair, stays. */
  lemma {:induction false} RunCollapses(front: string, c: char, n: nat, rest: string)
    requires NoPair(front, c, c) && (front != [] ==> front[|front| - 1] != c) && n > 0 && (rest != [] ==> rest[0] != c)
    ensures Collapse(front + Repeat(c, n) + rest, c) == front + [c] + Collapse(rest, c)
    decreases |front| + n
  {
    var s := front + Repeat(c, n) + rest;
    if front != [] {
      assert s[1..] == front[1..] + Repeat(c, n) + rest;
      NoPairTail(front, c, c);
      RunCollapses(front[1..], c, n, rest);
    } else if n > 1 {
      assert s[1..] == [] + Repeat(c, n - 1) + rest;
      RunCollapses([], c, n - 1, rest);
    } else {
      assert s[1..] == rest && s[0] == c;
    }
  }

  /** Hyphens before a dot go; what is before them, without such a place, stays. */
  lemma {:induction false} HyphensBeforeDotGo(front: string, n: nat, rest: string)
    requires NoPair(front, '-', '.') && (front != [] ==> front[|front| - 1] != '-')
    ensures DropBefore(front + Repeat('-', n) + "." + rest) == front + "." + DropBefore(rest)
    decreases |front| + n
  {
    var s := front + Repeat('-', n) + "." + rest;
    if front != [] {
      assert s[1..] == front[1..] + Repeat('-', n) + "." + rest;
      NoPairTail(front, '-', '.');
      HyphensBeforeDotGo(front[1..], n, rest);
      if front[0] == '-' {
        NoLead(front[1..], Repeat('-', n) + "." + rest);
        assert s[1..] == front[1..] + (Repeat('-', n) + "." + rest);
      }
    } else if n > 0 {
      assert s[1..] == [] + Repeat('-', n - 1) + "." + rest;
      assert s == Repeat('-', n) + "." + rest;
      LeadsOver(n - 1, rest);
      assert s[1..] == Repeat('-', n - 1) + "." + rest;
      HyphensBeforeDotGo([], n - 1, rest);
    } else {
      assert s[1..] == rest;
    }
  }

  lemma {:induction false} LeadsOver(n: nat, rest: string)
    ensures LeadsToDot(Repeat('-', n) + "." + rest)
  {
    if n > 0 {
      assert (Repeat('-', n) + "." + rest)[1..] == Repeat('-', n - 1) + "." + rest;
      LeadsOver(n - 1, rest);
    }
  }

  /** What comes after a hyphen that stays does not lead to a dot. */
  lemma {:induction false} NoLead(front: string, more: string)
    requires front != [] && NoPair(front, '-', '.') && front[0] != '.' && front[|front| - 1] != '-'
    ensures !LeadsToDot(front + more)
  {
    if front[0] == '-' {
      NoPairTail(front, '-', '.');
      assert (front + more)[1..] == front[1..] + more;
      NoLead(front[1..], more);
    }
  }

  lemma {:induction false} SkipsAll(n: nat, rest: string)
    requires rest != [] ==> rest[0] != '-'
    ensures SkipHyphens(Repeat('-', n) + rest) == rest
  {
    if n > 0 {
      assert (Repeat('-', n) + rest)[1..] == Repeat('-', n - 1) + rest;
      SkipsAll(n - 1, rest);
    } else {
      assert Repeat('-', 0) + rest == rest;
    }
  }

  /** Hyphens after a dot go; what is before the dot, without such a place, stays. */
  lemma {:induction false} HyphensAfterDotGo(front: string, n: nat, rest: string)
    requires NoPair(front, '.', '-') && (rest != [] ==> rest[0] != '-')
    ensures DropAfter(front + "." + Repeat('-', n) + rest) == front + "." + DropAfter(rest)
    decreases |front|
  {
    var s := front + "." + Repeat('-', n) + rest;
    if front != [] {
      assert s[1..] == front[1..] + "." + Repeat('-', n) + rest;
      NoPairTail(front, '.', '-');
      HyphensAfterDotGo(front[1..], n, rest);
      assert SkipHyphens(s[1..]) == s[1..] || s[0] != '.';
    } else {
      assert s[1..] == Repeat('-', n) + rest;
      SkipsAll(n, rest);
    }
  }

  predicate AllEdge(s: string) {
    forall c :: c in s ==> Edge(c)
  }

  /** Hyphens and dots at an end go, and nothing else. */
  lemma {:induction false} EndsGo(left: string, name: string, right: string)
    requires AllEdge(left) && AllEdge(right) && (name != [] ==> !Edge(name[0]) && !Edge(name[|name| - 1]))
    ensures name != [] ==> StripLeft(left + name) == name && StripRight(name + right) == name
    ensures StripLeft(left) == "" && StripRight(right) == ""
    decreases |left| + |right|
  {
    if left != [] {
      assert left[0] in left && (left + name)[1..] == left[1..] + name;
      EndsGo(left[1..], name, right);
    } else if right != [] {
      var n := |right| - 1;
      assert right[n] in right && (name + right)[..|name| + n] == name + right[..n];
      EndsGo(left, name, right[..n]);
      assert left + name == name;
    } else {
      assert left + name == name && name + right == name;
    }
  }

  /** A part of a name between dots: not empty, and no dot inside. */
  predicate Part(name: string, i: int, j: int) {
    && 0 <= i <= j <= |name| && (i == 0 || name[i - 1] == '.') && (j == |name| || name[j] == '.')
    && forall k :: i <= k < j ==> name[k] != '.'
  }

  lemma FirstPart(name: string, d: nat, i: int, j: int)
    requires d <= |name| && (d < |name| ==> name[d] == '.') && forall k :: 0 <= k < d ==> name[k] != '.'
    ensures Part(name, i, j) ==> if i == 0 then j == d else d < i
    ensures Part(name, 0, d)
  {
  }

  /** The parts after the first dot, seen from there. */
  lemma LaterPart(name: string, d: nat, i: int, j: int)
    requires d < |name| && name[d] == '.' && d < i
    ensures Part(name, i, j) <==> Part(name[d + 1..], i - d - 1, j - d - 1)
    ensures Part(name, i, j) ==> name[i..j] == name[d + 1..][i - d - 1..j - d - 1]
  {
    var rest := name[d + 1..];
    assert forall k :: 0 <= k < |rest| ==> rest[k] == name[k + d + 1];
    assert forall k :: d < k < |name| ==> name[k] == rest[k - d - 1];
  }

  ghost predicate PartsAre(name: string, good: string -> bool) {
    forall i, j :: Part(name, i, j) ==> good(name[i..j])
  }

  lemma PartsCut(name: string, d: nat, good: string -> bool)
    requires d < |name| && name[d] == '.' && forall k :: 0 <= k < d ==> name[k] != '.'
    ensures PartsAre(name, good) <==> good(name[..d]) && PartsAre(name[d + 1..], good)
  {
    var rest := name[d + 1..];
    if PartsAre(name, good) {
      FirstPart(name, d, 0, d);
      assert name[0..d] == name[..d];
      forall i, j | Part(rest, i, j) ensures good(rest[i..j]) { LaterPart(name, d, i + d + 1, j + d + 1); }
    }
    if good(name[..d]) && PartsAre(rest, good) {
      forall i, j | Part(name, i, j) ensures good(name[i..j]) {
        FirstPart(name, d, i, j);
        if i == 0 { assert name[i..j] == name[..d]; } else { LaterPart(name, d, i, j); }
      }
    }
  }

  lemma {:induction false} PartsAreLabels(name: string, good: string -> bool)
    ensures (forall l :: l in Split(name, '.') ==> good(l)) <==> PartsAre(name, good)
    decreases |name|
  {
    var d := FirstDot(name);
    if d == |name| {
      SplitOne(name, '.');
      FirstPart(name, d, 0, d);
      assert name[0..d] == name;
      forall i, j | Part(name, i, j) ensures name[i..j] == name { FirstPart(name, d, i, j); }
    } else {
      var first, rest := name[..d], name[d + 1..];
      assert name == first + ['.'] + rest;
      SplitAt(first, rest, '.');
      PartsAreLabels(rest, good);
      PartsCut(name, d, good);
      assert forall l :: l in Split(name, '.') <==> l == first || l in Split(rest, '.');
    }
  }

  lemma {:induction false} FirstDot(name: string) returns (d: nat)
    ensures d <= |name| && (d < |name| ==> name[d] == '.') && forall k :: 0 <= k < d ==> name[k] != '.'
  {
    if name == "" || name[0] == '.' {
      d := 0;
    } else {
      d := FirstDot(name[1..]);
      d := d + 1;
    }
  }

  /** A letter or digit at both ends, and letters, digits and hyphens between. */
  predicate GoodLabel(l: string) {
    l != [] && Alnum(l[0]) && Alnum(l[|l| - 1]) && forall k :: 0 <= k < |l| ==> l[k] == '-' || Alnum(l[k])
  }

  /** A name is accepted exactly if it has 1 to 253 characters and every part between dots is a good label. */
  lemma AcceptedExactly(name: string)
    ensures ErrorOf(name) == NoError <==>
      1 <= |name| <= 253 && PartsAre(name, GoodLabel)
    ensures ErrorOf(name) == Required <==> |name| == 0
    ensures ErrorOf(name) == TooLong <==> |name| > 253
  {
    PartsAreLabels(name, GoodLabel);
    var parts := Split(name, '.');
    assert forall l :: GoodLabel(l) <==> Label(l);
    assert Subdomain(name) <==> forall l :: l in parts ==> Label(l);
  }
}
