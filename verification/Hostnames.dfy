/**
  Hostnames of listeners and routes (internal/controller/router_controller.go), under the matching of
  HTTPRouteSpec.hostnames in Gateway API v1.
 */
module Hostnames {
  import opened Text

  datatype Option<T> = None | Some(value: T)

  function TrimDot(s: string): string {
    if HasSuffix(s, ".") then s[..|s| - 1] else s
  }

  function Normal(s: string): string {
    Lower(TrimDot(s))
  }

  predicate IsWildcard(p: string) {
    HasPrefix(p, "*.")
  }

  /* ---- Matching, label by label ---- */

  /** A host name: no empty label. */
  predicate IsHost(host: string) {
    forall l :: l in Split(host, '.') ==> l != []
  }

  /** A first label "*" with others after it stands for one or more labels; any other label stands for itself. */
  predicate Matches(p: string, host: string) {
    var ps, hs := Split(p, '.'), Split(host, '.');
    if |ps| > 1 && ps[0] == "*" then |hs| >= |ps| && hs[|hs| - |ps| + 1..] == ps[1..] else hs == ps
  }

  /* ---- Matching, as the source does it ---- */

  predicate TextMatches(p: string, host: string) {
    if IsWildcard(p) then WildcardMatches(p, host) else host == p
  }

  /** wildcardHostnameMatches, for a pattern that starts with '*'. */
  predicate WildcardMatches(p: string, host: string)
    requires HasPrefix(p, "*")
  {
    |host| > |p[1..]| && HasSuffix(host, p[1..])
  }

  /** The wildcard prefix is the label "*" with others after it. */
  lemma WildcardLabels(p: string)
    ensures var ps := Split(p, '.'); IsWildcard(p) <==> |ps| > 1 && ps[0] == "*"
    ensures IsWildcard(p) ==> Split(p, '.') == ["*"] + Split(p[2..], '.')
  {
    var ps := Split(p, '.');
    if IsWildcard(p) {
      assert p == "*" + ['.'] + p[2..];
      SplitAt("*", p[2..], '.');
    }
    if |ps| > 1 && ps[0] == "*" {
      JoinSplit(p, '.');
      assert p == "*" + ['.'] + Join(ps[1..], '.');
    }
  }

  lemma {:induction false} JoinConcat(a: seq<string>, b: seq<string>)
    requires a != [] && b != []
    ensures Join(a + b, '.') == Join(a, '.') + ['.'] + Join(b, '.')
  {
    if |a| == 1 {
      assert (a + b)[1..] == b;
    } else {
      assert (a + b)[1..] == a[1..] + b && (a + b)[0] == a[0];
      JoinConcat(a[1..], b);
    }
  }

  lemma JoinNonEmpty(parts: seq<string>)
    requires parts != [] && parts[0] != []
    ensures Join(parts, '.') != []
  {
  }

  lemma WildcardIsTail(p: string, host: string)
    requires IsWildcard(p) && WildcardMatches(p, host)
    ensures Matches(p, host)
  {
    var k := |host| - |p[1..]|;
    var front, rest := host[..k], p[2..];
    assert p[1..] == ['.'] + rest;
    assert host == front + host[k..] && host[k..] == ['.'] + rest;
    assert host == front + ['.'] + rest;
    SplitConcat(front, rest, '.');
    WildcardLabels(p);
    var hs, tail := Split(host, '.'), Split(rest, '.');
    assert hs[|hs| - |tail|..] == tail;
  }

  lemma TailIsWildcard(p: string, host: string)
    requires IsWildcard(p) && IsHost(host) && Matches(p, host)
    ensures WildcardMatches(p, host)
  {
    WildcardLabels(p);
    var hs, tail := Split(host, '.'), Split(p[2..], '.');
    var front := hs[..|hs| - |tail|];
    assert hs == front + tail;
    assert front[0] == hs[0] && hs[0] in hs;
    JoinSplit(host, '.');
    JoinSplit(p[2..], '.');
    JoinConcat(front, tail);
    JoinNonEmpty(front);
    EndsWith(p, host, Join(front, '.'));
  }

  lemma EndsWith(p: string, host: string, front: string)
    requires IsWildcard(p) && front != [] && host == front + ['.'] + p[2..]
    ensures WildcardMatches(p, host)
  {
    assert p[1..] == ['.'] + p[2..];
    assert host[|front|..] == p[1..];
  }

  /** On host names the source's text comparison is the label-wise one. */
  lemma TextIsLabels(p: string, host: string)
    requires IsHost(host)
    ensures TextMatches(p, host) <==> Matches(p, host)
  {
    WildcardLabels(p);
    if IsWildcard(p) {
      if WildcardMatches(p, host) { WildcardIsTail(p, host); }
      if Matches(p, host) { TailIsWildcard(p, host); }
    } else {
      JoinSplit(p, '.');
      JoinSplit(host, '.');
    }
  }

  /** As text: a wildcard stands for anything in front of its tail, but not for nothing. */
  lemma TextMatchesExactly(p: string, host: string)
    ensures TextMatches(p, host) <==>
      if |p| >= 2 && p[0] == '*' && p[1] == '.' then exists front :: front != "" && host == front + p[1..] else host == p
  {
    assert IsWildcard(p) <==> |p| >= 2 && p[0] == '*' && p[1] == '.';
    if IsWildcard(p) {
      if WildcardMatches(p, host) {
        var front := host[..|host| - |p[1..]|];
        assert front != "" && host == front + p[1..];
      }
      if front :| front != "" && host == front + p[1..] { assert host[|front|..] == p[1..]; }
    }
  }

  /** effectiveHostnameIntersection. */
  function Intersection(x: string, y: string): Option<string> {
    Intersect(Normal(x), Normal(y))
  }

  function Intersect(a: string, b: string): Option<string> {
    if a == b then Some(a)
    else if IsWildcard(a) && IsWildcard(b) then
      if HasSuffix(a[1..], b[1..]) then Some(a)
      else if HasSuffix(b[1..], a[1..]) then Some(b)
      else None
    else if IsWildcard(a) && WildcardMatches(a, b) then Some(b)
    else if IsWildcard(b) && WildcardMatches(b, a) then Some(a)
    else None
  }

  lemma SuffixOfSuffix(host: string, long: string, short: string)
    requires HasSuffix(host, long) && |short| <= |long|
    ensures HasSuffix(host, short) <==> HasSuffix(long, short)
  {
    var k := |host| - |long|;
    assert long == host[k..];
    assert long[|long| - |short|..] == host[|host| - |short|..];
  }

  /** The narrower of two wildcards is their intersection. */
  lemma NarrowWildcard(a: string, b: string, host: string)
    requires IsWildcard(a) && IsWildcard(b) && HasSuffix(a[1..], b[1..])
    ensures TextMatches(a, host) ==> TextMatches(b, host)
  {
    if TextMatches(a, host) { SuffixOfSuffix(host, a[1..], b[1..]); }
  }

  lemma CrossedWildcards(a: string, b: string, host: string)
    requires IsWildcard(a) && IsWildcard(b) && !HasSuffix(a[1..], b[1..]) && !HasSuffix(b[1..], a[1..])
    ensures !(TextMatches(a, host) && TextMatches(b, host))
  {
    if |a| >= |b| {
      if TextMatches(a, host) { SuffixOfSuffix(host, a[1..], b[1..]); }
    } else {
      if TextMatches(b, host) { SuffixOfSuffix(host, b[1..], a[1..]); }
    }
  }

  lemma IntersectIsExact(a: string, b: string, host: string)
    ensures TextMatches(a, host) && TextMatches(b, host) <==>
      match Intersect(a, b) case None => false case Some(p) => TextMatches(p, host)
  {
    if a != b && IsWildcard(a) && IsWildcard(b) {
      if HasSuffix(a[1..], b[1..]) {
        NarrowWildcard(a, b, host);
      } else if HasSuffix(b[1..], a[1..]) {
        NarrowWildcard(b, a, host);
      } else {
        CrossedWildcards(a, b, host);
      }
    }
  }

  /** The intersection matches exactly the hosts both patterns match; no intersection means no such host. */
  lemma IntersectionIsExact(x: string, y: string, host: string)
    requires IsHost(host)
    ensures Matches(Normal(x), host) && Matches(Normal(y), host) <==>
      match Intersection(x, y) case None => false case Some(p) => Matches(p, host)
  {
    IntersectIsExact(Normal(x), Normal(y), host);
    TextIsLabels(Normal(x), host);
    TextIsLabels(Normal(y), host);
    match Intersection(x, y) {
      case None =>
      case Some(p) => TextIsLabels(p, host);
    }
  }

  /** The order of the two patterns does not matter. */
  lemma IntersectionCommutes(x: string, y: string)
    ensures Intersection(x, y) == Intersection(y, x)
  {
    IntersectCommutes(Normal(x), Normal(y));
  }

  lemma IntersectCommutes(a: string, b: string)
    ensures Intersect(a, b) == Intersect(b, a)
  {
    if IsWildcard(a) && IsWildcard(b) { SameWildcard(a, b); }
  }

  lemma SameWildcard(a: string, b: string)
    requires IsWildcard(a) && IsWildcard(b)
    ensures HasSuffix(a[1..], b[1..]) && HasSuffix(b[1..], a[1..]) ==> a == b
  {
    assert a == ['*'] + a[1..] && b == ['*'] + b[1..];
  }

  /** A host that a pattern without empty labels matches. */
  function Example(p: string): string {
    if IsWildcard(p) then "h" + p[1..] else p
  }

  lemma ExampleMatches(p: string)
    requires IsHost(p)
    ensures IsHost(Example(p)) && Matches(p, Example(p))
  {
    var host := Example(p);
    if IsWildcard(p) {
      assert host[1..] == p[1..] && host == "h" + ['.'] + p[2..];
      SplitAt("h", p[2..], '.');
      WildcardLabels(p);
      assert forall l :: l in Split(p[2..], '.') ==> l in Split(p, '.');
    }
    TextIsLabels(p, host);
  }

  lemma IntersectionIsOneOfThem(x: string, y: string)
    ensures Intersection(x, y).Some? ==> Intersection(x, y).value == Normal(x) || Intersection(x, y).value == Normal(y)
  {
  }

  /** For patterns without empty labels, no intersection is reported exactly when no host matches both. */
  lemma NoneMeansDisjoint(x: string, y: string)
    requires IsHost(Normal(x)) && IsHost(Normal(y))
    ensures Intersection(x, y).None? <==>
      forall host :: IsHost(host) ==> !(Matches(Normal(x), host) && Matches(Normal(y), host))
  {
    forall host | IsHost(host)
      ensures Intersection(x, y).None? ==> !(Matches(Normal(x), host) && Matches(Normal(y), host))
    {
      IntersectionIsExact(x, y, host);
    }
    if Intersection(x, y).Some? {
      IntersectionIsOneOfThem(x, y);
      var host := Example(Intersection(x, y).value);
      ExampleMatches(Intersection(x, y).value);
      IntersectionIsExact(x, y, host);
      assert Matches(Normal(x), host) && Matches(Normal(y), host);
    }
  }

  predicate AnyMatches(ps: seq<string>, host: string) {
    exists i :: 0 <= i < |ps| && Matches(ps[i], host)
  }

  function Normals(ps: seq<string>): seq<string> {
    seq(|ps|, i requires 0 <= i < |ps| => Normal(ps[i]))
  }

  /** The accepted names match the hosts that the listener and one of the route's names match. */
  ghost predicate Accepts(accepted: seq<string>, listener: string, route: seq<string>) {
    forall host :: IsHost(host) ==>
      (AnyMatches(accepted, host) <==> Matches(Normal(listener), host) && AnyMatches(Normals(route), host))
  }

  lemma AcceptsOneMore(listener: string, route: seq<string>, i: nat, before: seq<string>, after: seq<string>)
    requires i < |route| && Accepts(before, listener, route[..i])
    requires var p := Intersection(listener, route[i]); after == if p.Some? then before + [p.value] else before
    ensures Accepts(after, listener, route[..i + 1])
  {
    forall host | IsHost(host)
      ensures AnyMatches(after, host) <==> Matches(Normal(listener), host) && AnyMatches(Normals(route[..i + 1]), host)
    {
      HostOneMore(listener, route, i, before, after, host);
    }
  }

  lemma HostOneMore(listener: string, route: seq<string>, i: nat, before: seq<string>, after: seq<string>, host: string)
    requires i < |route| && IsHost(host)
    requires AnyMatches(before, host) <==> Matches(Normal(listener), host) && AnyMatches(Normals(route[..i]), host)
    requires var p := Intersection(listener, route[i]); after == if p.Some? then before + [p.value] else before
    ensures AnyMatches(after, host) <==> Matches(Normal(listener), host) && AnyMatches(Normals(route[..i + 1]), host)
  {
    var p := Intersection(listener, route[i]);
    IntersectionIsExact(listener, route[i], host);
    assert Normals(route[..i + 1]) == Normals(route[..i]) + [Normal(route[i])];
    AnyMatchesSnoc(Normals(route[..i]), Normal(route[i]), host);
    if p.Some? { AnyMatchesSnoc(before, p.value, host); }
  }

  /**
    acceptedRouteHostnames.  Without a listener hostname the route's own names stand, without route names the
    listener's stands, and otherwise a host is accepted exactly when the listener and the route both match it.
   */
  method AcceptedHostnames(listener: Option<string>, route: seq<string>) returns (accepted: seq<string>)
    ensures listener.None? || listener.value == "" ==> accepted == route
    ensures listener.Some? && listener.value != "" && route == [] ==> accepted == [listener.value]
    ensures listener.Some? && listener.value != "" && route != [] ==>
      forall host :: IsHost(host) ==>
        (AnyMatches(accepted, host) <==> Matches(Normal(listener.value), host) && AnyMatches(Normals(route), host))
  {
    if listener.None? || listener.value == "" {
      return route;
    }
    if |route| == 0 {
      return [listener.value];
    }
    accepted := [];
    for i := 0 to |route|
      invariant Accepts(accepted, listener.value, route[..i])
    {
      var effective := Intersection(listener.value, route[i]);
      ghost var before := accepted;
      if effective.Some? {
        accepted := accepted + [effective.value];
      }
      AcceptsOneMore(listener.value, route, i, before, accepted);
    }
    assert route[..|route|] == route;
  }

  lemma AnyMatchesSnoc(ps: seq<string>, p: string, host: string)
    ensures AnyMatches(ps + [p], host) <==> AnyMatches(ps, host) || Matches(p, host)
  {
    var more := ps + [p];
    assert more[|ps|] == p;
    assert forall i :: 0 <= i < |ps| ==> more[i] == ps[i];
    if AnyMatches(ps, host) {
      var i :| 0 <= i < |ps| && Matches(ps[i], host);
      assert Matches(more[i], host);
    }
  }

  /* ---- The normalisation ---- */

  predicate HasUpper(s: string) {
    exists i :: 0 <= i < |s| && 'A' <= s[i] <= 'Z'
  }

  /** Letter by letter the same, whatever the case. */
  predicate SameButCase(x: string, y: string) {
    |x| == |y| && forall i :: 0 <= i < |x| ==> SameLetter(x[i], y[i])
  }

  predicate SameLetter(c: char, d: char) {
    || c == d
    || ('A' <= c <= 'Z' && 'a' <= d <= 'z' && c - 'A' == d - 'a')
    || ('A' <= d <= 'Z' && 'a' <= c <= 'z' && d - 'A' == c - 'a')
  }

  /** Lower-casing leaves no capital, leaves a text without capitals alone, and makes equal exactly what differs in case. */
  lemma LowerIsCaseBlind(x: string, y: string)
    ensures !HasUpper(Lower(x)) && (!HasUpper(x) ==> Lower(x) == x)
    ensures Lower(x) == Lower(y) <==> SameButCase(x, y)
  {
    if Lower(x) == Lower(y) {
      assert |Lower(x)| == |x| && |Lower(y)| == |y|;
      forall i | 0 <= i < |x| ensures SameLetter(x[i], y[i]) { assert Lower(x)[i] == Lower(y)[i]; }
    }
  }

  /** A trailing dot and the case of letters do not matter to an intersection; the result has no capitals. */
  lemma CaseAndDotDoNotMatter(x: string, x': string, y: string)
    requires SameButCase(x, x') && !HasSuffix(x, ".")
    ensures Intersection(x', y) == Intersection(x, y) && Intersection(x' + ".", y) == Intersection(x, y)
    ensures Intersection(x, y).Some? ==> !HasUpper(Intersection(x, y).value)
  {
    LowerIsCaseBlind(x, x');
    LowerIsCaseBlind(TrimDot(y), y);
    assert (x' + ".")[..|x'|] == x';
    assert x != [] ==> SameLetter(x[|x| - 1], x'[|x| - 1]);
    assert HasSuffix(x', ".") <==> x' != [] && x'[|x'| - 1] == '.';
    assert HasSuffix(x, ".") <==> x != [] && x[|x| - 1] == '.';
    IntersectionIsOneOfThem(x, y);
  }

  /** A name without capitals and without a trailing dot stands for itself. */
  lemma PlainNamesStay(x: string)
    requires !HasUpper(x) && !HasSuffix(x, ".")
    ensures Normal(x) == x
  {
    LowerIsCaseBlind(x, x);
  }
}
