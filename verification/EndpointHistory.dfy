/** durableRouterEndpointUnion as the source runs it (internal/controller/router_controller.go). */
module EndpointHistory {
  import opened Cluster

  predicate DistinctKeys(es: seq<Endpoint>) {
    forall i, j :: 0 <= i < j < |es| ==> es[i].key != es[j].key
  }

  /** The index map points at the one endpoint of every key. */
  predicate Indexed(es: seq<Endpoint>, indexes: map<Ep, nat>) {
    && (forall k :: k in indexes ==> indexes[k] < |es| && es[indexes[k]].key == k)
    && (forall i :: 0 <= i < |es| ==> es[i].key in indexes && indexes[es[i].key] == i)
  }

  lemma {:induction false} UpsertNew(es: seq<Endpoint>, e: Endpoint)
    requires forall i :: 0 <= i < |es| ==> es[i].key != e.key
    ensures Upsert(es, e) == es + [e]
  {
    if es != [] {
      UpsertNew(es[1..], e);
      assert es == [es[0]] + es[1..];
    }
  }

  lemma {:induction false} UpsertAt(es: seq<Endpoint>, e: Endpoint, i: nat)
    requires i < |es| && es[i].key == e.key && forall k :: 0 <= k < i ==> es[k].key != e.key
    ensures Upsert(es, e) == es[i := e]
  {
    if i > 0 {
      UpsertAt(es[1..], e, i - 1);
      assert es == [es[0]] + es[1..];
    }
  }

  lemma {:induction false} UpsertAllSnoc(es: seq<Endpoint>, more: seq<Endpoint>, e: Endpoint)
    ensures UpsertAll(es, more + [e]) == Upsert(UpsertAll(es, more), e)
    decreases |more|
  {
    if more == [] {
      assert [] + [e] == [e] && [e][1..] == [];
    } else {
      assert (more + [e])[0] == more[0] && (more + [e])[1..] == more[1..] + [e];
      UpsertAllSnoc(Upsert(es, more[0]), more[1..], e);
    }
  }

  lemma Replaced(es: seq<Endpoint>, indexes: map<Ep, nat>, e: Endpoint)
    requires Indexed(es, indexes) && e.key in indexes
    ensures Upsert(es, e) == es[indexes[e.key] := e] && Indexed(es[indexes[e.key] := e], indexes)
  {
    UpsertAt(es, e, indexes[e.key]);
  }

  lemma Appended(es: seq<Endpoint>, indexes: map<Ep, nat>, e: Endpoint)
    requires Indexed(es, indexes) && e.key !in indexes
    ensures Upsert(es, e) == es + [e] && Indexed(es + [e], indexes[e.key := |es|])
  {
    UpsertNew(es, e);
  }

  lemma UpsertOneMore(es: seq<Endpoint>, more: seq<Endpoint>, i: nat)
    requires i < |more|
    ensures UpsertAll(es, more[..i + 1]) == Upsert(UpsertAll(es, more[..i]), more[i])
  {
    assert more[..i + 1] == more[..i] + [more[i]];
    UpsertAllSnoc(es, more[..i], more[i]);
  }

  /** One of the two loops. */
  method Absorb(es: seq<Endpoint>, indexes: map<Ep, nat>, more: seq<Endpoint>)
    returns (union: seq<Endpoint>, indexes': map<Ep, nat>)
    requires Indexed(es, indexes)
    ensures Indexed(union, indexes') && union == UpsertAll(es, more)
  {
    union, indexes' := es, indexes;
    for i := 0 to |more|
      invariant Indexed(union, indexes')
      invariant union == UpsertAll(es, more[..i])
    {
      var e := more[i];
      UpsertOneMore(es, more, i);
      if e.key in indexes' {
        Replaced(union, indexes', e);
        union := union[indexes'[e.key] := e];
      } else {
        Appended(union, indexes', e);
        indexes', union := indexes'[e.key := |union|], union + [e];
      }
    }
    assert more[..|more|] == more;
  }

  method DurableEndpointUnion(previous: seq<Endpoint>, current: seq<Endpoint>) returns (union: seq<Endpoint>)
    ensures union == EndpointUnion(previous, current) && DistinctKeys(union)
  {
    var indexes: map<Ep, nat> := map[];
    union := [];
    union, indexes := Absorb(union, indexes, previous);
    union, indexes := Absorb(union, indexes, current);
  }

  /** The last endpoint listed with a key. */
  predicate IsLast(es: seq<Endpoint>, e: Endpoint) {
    exists i :: 0 <= i < |es| && es[i] == e && forall k :: i < k < |es| ==> es[k].key != e.key
  }

  lemma {:induction false} UpsertHas(es: seq<Endpoint>, e: Endpoint)
    ensures e in Upsert(es, e)
    ensures forall x :: x in Upsert(es, e) && x.key != e.key ==> x in es
    ensures DistinctKeys(es) ==> DistinctKeys(Upsert(es, e)) && forall x :: x in Upsert(es, e) && x.key == e.key ==> x == e
  {
    if forall i :: 0 <= i < |es| ==> es[i].key != e.key {
      UpsertNew(es, e);
    } else {
      var i := FirstWith(es, e.key);
      UpsertAt(es, e, i);
      assert es[i := e][i] == e;
    }
  }

  lemma {:induction false} FirstWith(es: seq<Endpoint>, k: Ep) returns (i: nat)
    requires exists j :: 0 <= j < |es| && es[j].key == k
    ensures i < |es| && es[i].key == k && forall j :: 0 <= j < i ==> es[j].key != k
  {
    if es[0].key == k {
      i := 0;
    } else {
      var j :| 0 <= j < |es| && es[j].key == k;
      assert es[1..][j - 1].key == k;
      i := FirstWith(es[1..], k);
      i := i + 1;
    }
  }

  /** Every endpoint comes from the last record of its key in `more`, or from `es` if `more` has none. */
  predicate Newest(union: seq<Endpoint>, es: seq<Endpoint>, more: seq<Endpoint>) {
    forall x :: x in union ==> if x.key in Keys(more) then IsLast(more, x) else x in es
  }

  lemma LastSnoc(front: seq<Endpoint>, last: Endpoint, x: Endpoint)
    ensures IsLast(front + [last], last)
    ensures IsLast(front, x) && x.key != last.key ==> IsLast(front + [last], x)
  {
    var more := front + [last];
    assert more[|front|] == last;
    if IsLast(front, x) && x.key != last.key {
      var i :| 0 <= i < |front| && front[i] == x && forall k :: i < k < |front| ==> front[k].key != x.key;
      assert more[i] == x;
    }
  }

  lemma NewestSnoc(union: seq<Endpoint>, es: seq<Endpoint>, front: seq<Endpoint>, last: Endpoint)
    requires DistinctKeys(union) && Newest(union, es, front)
    ensures Newest(Upsert(union, last), es, front + [last])
  {
    UpsertHas(union, last);
    KeysSnoc(front, last);
    forall x | x in Upsert(union, last)
      ensures if x.key in Keys(front + [last]) then IsLast(front + [last], x) else x in es
    {
      LastSnoc(front, last, x);
      if x.key != last.key { assert x in union; }
    }
  }

  /** An endpoint of the union is the newest record of its device: the last one listed in what was absorbed. */
  lemma {:induction false} NewestWins(es: seq<Endpoint>, more: seq<Endpoint>)
    requires DistinctKeys(es)
    ensures DistinctKeys(UpsertAll(es, more)) && Newest(UpsertAll(es, more), es, more)
    decreases |more|
  {
    if more != [] {
      var front, last := more[..|more| - 1], more[|more| - 1];
      assert more == front + [last];
      NewestWins(es, front);
      UpsertAllSnoc(es, front, last);
      UpsertHas(UpsertAll(es, front), last);
      NewestSnoc(UpsertAll(es, front), es, front, last);
    }
  }

  lemma KeysSnoc(front: seq<Endpoint>, last: Endpoint)
    ensures Keys(front + [last]) == Keys(front) + {last.key}
  {
  }
}
