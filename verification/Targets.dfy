/**
  Router references and the durable router-targets annotation
  (internal/controller/router_helpers.go and router_controller.go).
 */
module Targets {
  import opened Text

  /** A namespaced object key. */
  datatype Key = Key(ns: string, name: string)

  /** Kubernetes names: non-empty, and free of '/', ',' and white space. */
  predicate ValidName(s: string) {
    s != [] && forall c :: c in s ==> c != '/' && c != ',' && !IsSpace(c)
  }

  predicate ValidKey(k: Key) {
    ValidName(k.ns) && ValidName(k.name)
  }

  function IndexOf(s: string, c: char): (i: nat)
    ensures i <= |s| && (i < |s| ==> s[i] == c) && forall j :: 0 <= j < i ==> s[j] != c
  {
    if s == [] || s[0] == c then 0 else 1 + IndexOf(s[1..], c)
  }

  /** splitRouterReference: an optional namespace hint and a name. */
  function SplitReference(reference: string): Key {
    var r := TrimSpace(reference);
    var i := IndexOf(r, '/');
    if r == [] then Key([], [])
    else if i == |r| then Key([], r)
    else Key(r[..i], r[i + 1..])
  }

  /** routerRefStorage. */
  function RefStorage(ns: string, key: Key): string {
    if key.ns == [] || key.ns == ns then key.name else key.ns + "/" + key.name
  }

  /** routerKeyFromRef. */
  function KeyFromRef(ns: string, reference: string): Key {
    var k := SplitReference(reference);
    if k.name == [] then Key([], [])
    else if k.ns == [] then Key(ns, k.name)
    else k
  }

  /** A target the annotation can carry. */
  predicate Clean(t: string) {
    t != [] && Trimmed(t) && ',' !in t
  }

  lemma {:induction false} FirstSlash(a: string, b: string)
    requires '/' !in a
    ensures IndexOf(a + ['/'] + b, '/') == |a|
  {
    if a != [] {
      FirstSlash(a[1..], b);
      assert (a + ['/'] + b)[1..] == a[1..] + ['/'] + b;
    }
  }

  lemma JoinedIsClean(a: string, b: string, r: string)
    requires ValidName(a) && ValidName(b) && r == a + ['/'] + b
    ensures Clean(r)
  {
    assert a[0] in a && b[|b| - 1] in b;
    assert r[0] == a[0] && r[|r| - 1] == b[|b| - 1];
  }

  /** Cutting at the first slash undoes joining two slash-free parts. */
  lemma CutJoined(a: string, b: string)
    requires ValidName(a) && ValidName(b)
    ensures SplitReference(a + "/" + b) == Key(a, b)
    ensures Clean(a + "/" + b)
  {
    var r := a + ['/'] + b;
    assert a + "/" + b == r;
    JoinedIsClean(a, b, r);
    TrimTrimmed(r);
    FirstSlash(a, b);
    assert r[..|a|] == a && r[|a| + 1..] == b;
  }

  lemma CutSingle(a: string)
    requires ValidName(a)
    ensures SplitReference(a) == Key([], a)
    ensures Clean(a)
  {
    assert a[0] in a && a[|a| - 1] in a;
    TrimTrimmed(a);
    assert forall j :: 0 <= j < |a| ==> a[j] in a;
    assert IndexOf(a, '/') == |a|;
  }

  /** A stored reference leads back to the router it was made from, and the annotation can carry it. */
  lemma RefRoundTrip(ns: string, key: Key)
    requires ValidKey(key)
    ensures KeyFromRef(ns, RefStorage(ns, key)) == key
    ensures Clean(RefStorage(ns, key))
  {
    if key.ns == ns { CutSingle(key.name); } else { CutJoined(key.ns, key.name); }
  }

  /** The trimmed, non-empty elements of a list of raw targets. */
  function Tokens(parts: seq<string>): set<string> {
    set p | p in parts && TrimSpace(p) != [] :: TrimSpace(p)
  }

  /** The targets recorded by an annotation value; the empty value stands for no annotation. */
  function Decode(annotation: string): set<string> {
    Tokens(Split(annotation, ','))
  }

  /** durableRouterTargets as a set. */
  function TargetSet(annotation: string, additional: seq<string>): set<string> {
    Decode(annotation) + Tokens(additional)
  }

  lemma DecodeClean(annotation: string)
    ensures forall t :: t in Decode(annotation) ==> Clean(t)
  {
    var parts := Split(annotation, ',');
    SplitFree(annotation, ',');
    forall t | t in Decode(annotation) ensures Clean(t) {
      var p :| p in parts && TrimSpace(p) != [] && t == TrimSpace(p);
      TrimSpaceCuts(p);
    }
  }

  predicate Sorted(q: seq<string>) {
    forall i, j :: 0 <= i < j < |q| ==> Less(q[i], q[j])
  }

  function Elements(q: seq<string>): set<string> {
    set x | x in q
  }

  lemma NoElements(q: seq<string>)
    ensures Elements(q) == {} ==> q == []
  {
    if q != [] { assert q[0] in Elements(q); }
  }

  lemma {:induction false} SortedUnique(a: seq<string>, b: seq<string>)
    requires Sorted(a) && Sorted(b) && Elements(a) == Elements(b)
    ensures a == b
  {
    if a == [] {
      NoElements(b);
    } else {
      assert a[0] in Elements(b) && b[0] in Elements(a);
      var i :| 0 <= i < |b| && b[i] == a[0];
      var j :| 0 <= j < |a| && a[j] == b[0];
      LeqTotal(a[0], a[0]);
      assert Leq(b[0], b[i]) && Leq(a[0], a[j]);
      LeqTotal(a[0], b[0]);
      assert Elements(a[1..]) == Elements(a) - {a[0]} by { TailElements(a); }
      assert Elements(b[1..]) == Elements(b) - {b[0]} by { TailElements(b); }
      SortedUnique(a[1..], b[1..]);
      assert a == [a[0]] + a[1..] && b == [b[0]] + b[1..];
    }
  }

  lemma TailElements(a: seq<string>)
    requires a != [] && Sorted(a)
    ensures Elements(a[1..]) == Elements(a) - {a[0]}
  {
    assert a == [a[0]] + a[1..];
    assert a[0] !in a[1..];
  }

  /** One step of an insertion sort. */
  function Insert(q: seq<string>, x: string): (r: seq<string>)
    requires Sorted(q) && x !in q
    ensures Elements(r) == Elements(q) + {x}
    ensures Sorted(r)
  {
    if q == [] then [x]
    else if Leq(x, q[0]) then
      InsertFront(q, x);
      [x] + q
    else
      LeqTotal(x, q[0]);
      assert q == [q[0]] + q[1..];
      var r := Insert(q[1..], x);
      InsertBehind(q, x, r);
      [q[0]] + r
  }

  lemma InsertFront(q: seq<string>, x: string)
    requires q != [] && Sorted(q) && x !in q && Leq(x, q[0])
    ensures Sorted([x] + q)
  {
    forall j | 0 <= j < |q| ensures Less(x, q[j]) {
      if j > 0 { LeqTransitive(x, q[0], q[j]); }
    }
  }

  lemma InsertBehind(q: seq<string>, x: string, r: seq<string>)
    requires q != [] && Sorted(q) && Sorted(r) && Less(q[0], x) && Elements(r) == Elements(q[1..]) + {x}
    ensures Sorted([q[0]] + r)
  {
    forall j | 0 <= j < |r| ensures Less(q[0], r[j]) {
      assert r[j] in Elements(r);
      if r[j] != x {
        assert r[j] in q[1..];
        var i :| 0 <= i < |q[1..]| && q[1..][i] == r[j];
        assert q[i + 1] == r[j];
      }
    }
  }

  /** The sorted sequence of a finite set of strings. */
  ghost function SortedSeq(s: set<string>): (q: seq<string>)
    ensures Sorted(q) && Elements(q) == s
  {
    if s == {} then []
    else
      var x :| x in s;
      var q := SortedSeq(s - {x});
      assert x in q <==> x in Elements(q);
      Insert(q, x)
  }

  /** The annotation value that records exactly the targets `s`. */
  ghost function Encode(s: set<string>): string {
    Join(SortedSeq(s), ',')
  }

  /** The annotation loses nothing: what is encoded is what is read back. */
  lemma EncodeRoundTrip(s: set<string>)
    requires forall t :: t in s ==> Clean(t)
    ensures Decode(Encode(s)) == s
  {
    var q := SortedSeq(s);
    if s == {} {
      NoElements(q);
      EmptyDecodes();
    } else {
      assert q != [];
      forall t | t in q ensures ',' !in t && TrimSpace(t) == t && t != [] {
        assert t in Elements(q);
        TrimTrimmed(t);
      }
      SplitJoin(q, ',');
      assert Tokens(q) == Elements(q);
    }
  }

  lemma EmptyDecodes()
    ensures Decode("") == {}
  {
    assert Split("", ',') == [[]];
    assert TrimSpace([]) == [];
  }

  /** A compacted annotation, holding one bare reference, records exactly that reference. */
  lemma SingleRoundTrip(t: string)
    requires Clean(t)
    ensures Decode(t) == {t}
    ensures Encode({t}) == t
  {
    SplitOne(t, ',');
    TrimTrimmed(t);
    var q := SortedSeq({t});
    assert Sorted([t]) && Elements([t]) == {t};
    SortedUnique(q, [t]);
  }

  /** sort.Strings on a list without repetitions. */
  method SortStrings(targets: seq<string>) returns (r: seq<string>)
    requires NoRepeats(targets)
    ensures r == SortedSeq(Elements(targets))
  {
    r := [];
    for i := 0 to |targets|
      invariant Sorted(r) && Elements(r) == Elements(targets[..i])
    {
      assert targets[i] !in targets[..i];
      assert targets[..i + 1] == targets[..i] + [targets[i]];
      assert targets[i] in r <==> targets[i] in Elements(r);
      r := Insert(r, targets[i]);
    }
    assert targets[..|targets|] == targets;
    SortedUnique(r, SortedSeq(Elements(targets)));
  }

  predicate NoRepeats(q: seq<string>) {
    forall i, j :: 0 <= i < j < |q| ==> q[i] != q[j]
  }

  lemma ElementsSnoc(q: seq<string>, x: string)
    ensures Elements(q + [x]) == Elements(q) + {x}
    ensures NoRepeats(q) && x !in q ==> NoRepeats(q + [x])
    ensures x in q <==> x in Elements(q)
  {
  }

  lemma TokensSnoc(raw: seq<string>, i: nat)
    requires i < |raw|
    ensures var target := TrimSpace(raw[i]);
      Tokens(raw[..i + 1]) == if target == [] then Tokens(raw[..i]) else Tokens(raw[..i]) + {target}
  {
    var target := TrimSpace(raw[i]);
    var a, b := raw[..i], raw[..i + 1];
    assert b == a + [raw[i]];
    forall t ensures t in Tokens(b) <==> t in Tokens(a) || (target != [] && t == target) {
      if target != [] && t == target { assert raw[i] in b; }
      if t in Tokens(a) {
        var x :| x in a && TrimSpace(x) == t && t != [];
        assert x in b;
      }
      if t in Tokens(b) {
        var x :| x in b && TrimSpace(x) == t && t != [];
        assert x in a || x == raw[i];
      }
    }
  }

  /** The closure `add`, run over a list: appends the new non-empty trimmed targets. */
  method AddAll(targets: seq<string>, raw: seq<string>) returns (r: seq<string>)
    requires NoRepeats(targets)
    ensures NoRepeats(r)
    ensures Elements(r) == Elements(targets) + Tokens(raw)
  {
    r := targets;
    ghost var seen := Elements(targets);
    assert Tokens(raw[..0]) == {};
    for i := 0 to |raw|
      invariant NoRepeats(r)
      invariant Elements(r) == seen && seen == Elements(targets) + Tokens(raw[..i])
    {
      var target := TrimSpace(raw[i]);
      TokensSnoc(raw, i);
      ElementsSnoc(r, target);
      if target != [] && target !in r {
        r := r + [target];
      }
      seen := if target == [] then seen else seen + {target};
      assert seen == Elements(targets) + Tokens(raw[..i + 1]);
    }
    assert raw[..|raw|] == raw;
  }

  /** durableRouterTargets: the sorted targets of the annotation and of `additional`. */
  method DurableRouterTargets(annotation: string, additional: seq<string>) returns (targets: seq<string>)
    ensures targets == SortedSeq(TargetSet(annotation, additional))
  {
    var recorded := AddAll([], Split(annotation, ','));
    var all := AddAll(recorded, additional);
    assert Elements(all) == TargetSet(annotation, additional);
    targets := SortStrings(all);
  }

  /** The value persistDurableRouterTarget stores, and whether it differs from the stored one. */
  method PersistTargets(annotation: string, additional: seq<string>) returns (updated: bool, value: string)
    ensures value == Encode(TargetSet(annotation, additional))
    ensures updated == (annotation != value)
  {
    var targets := DurableRouterTargets(annotation, additional);
    value := Join(targets, ',');
    updated := annotation != value;
  }
}
