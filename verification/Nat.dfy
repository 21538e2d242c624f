/** EnsurePortForward (internal/routeros/client.go): a dst-nat rule and the masquerade rule beside it. */
module Nat {
  import opened Text
  import opened Comments
  import opened Table
  import opened Ownership

  datatype Forward = Forward(protocol: string, externalPort: int, target: string, targetPort: int, publicIP: string)

  function DstComment(comment: string): string { comment + "/dstnat" }

  function SrcComment(comment: string): string { comment + "/srcnat" }

  function DstAttrs(f: Forward, comment: string): map<Attr, string> {
    var attrs := map[
      Chain := "dstnat", Protocol := f.protocol, DstPort := Decimal(f.externalPort), Action := "dst-nat",
      ToAddresses := f.target, ToPorts := Decimal(f.targetPort), Comment := DstComment(comment)];
    if f.publicIP != "" then attrs[DstAddress := f.publicIP] else attrs
  }

  function SrcAttrs(f: Forward, comment: string): map<Attr, string> {
    map[Chain := "srcnat", DstAddress := f.target, Action := "masquerade", Comment := SrcComment(comment)]
  }

  predicate DstMatches(e: Entry, f: Forward) {
    && At(e, Chain) == "dstnat" && At(e, Protocol) == f.protocol && At(e, DstPort) == Decimal(f.externalPort)
    && At(e, Action) == "dst-nat" && At(e, ToAddresses) == f.target && At(e, ToPorts) == Decimal(f.targetPort)
    && At(e, DstAddress) == f.publicIP
  }

  predicate SrcMatches(e: Entry, f: Forward) {
    At(e, Chain) == "srcnat" && At(e, DstAddress) == f.target && At(e, Action) == "masquerade"
  }

  predicate IsDst(e: Entry, f: Forward, comment: string) {
    At(e, Comment) == DstComment(comment) && DstMatches(e, f)
  }

  predicate IsSrc(e: Entry, f: Forward, comment: string) {
    At(e, Comment) == SrcComment(comment) && SrcMatches(e, f)
  }

  /** Two entries lie under the comment, one of each kind. */
  predicate PairOf(found: seq<Entry>, f: Forward, comment: string) {
    |found| == 2 &&
    ((IsDst(found[0], f, comment) && IsSrc(found[1], f, comment)) ||
     (IsSrc(found[0], f, comment) && IsDst(found[1], f, comment)))
  }

  predicate InPlace(t: Table, f: Forward, comment: string) {
    PairOf(Select(t.rows, Prefix(comment)), f, comment)
  }

  /** Both places are looked up once, after the old pair is gone and before the new one is added. */
  function Ensure(t: Table, f: Forward, comment: string): Table {
    if InPlace(t, f, comment) then t
    else
      var cleared := Delete(t, Prefix(comment));
      var first := Add(cleared, DstAttrs(f, comment), FirstOf(cleared.rows, "dstnat"));
      Add(first, SrcAttrs(f, comment), FirstOf(cleared.rows, "srcnat"))
  }

  lemma NatComments(comment: string)
    ensures Under(DstComment(comment), comment) && Under(SrcComment(comment), comment)
    ensures DstComment(comment) != SrcComment(comment)
  {
    assert DstComment(comment)[..|comment| + 1] == comment + "/";
    assert SrcComment(comment)[..|comment| + 1] == comment + "/";
    assert DstComment(comment)[|comment| + 1] == 'd' && SrcComment(comment)[|comment| + 1] == 's';
  }

  lemma AttrsMatch(id: nat, f: Forward, comment: string)
    ensures IsDst(Entry(id, DstAttrs(f, comment)), f, comment)
    ensures IsSrc(Entry(id, SrcAttrs(f, comment)), f, comment)
  {
  }

  /** A second new entry joins the first, before or after it. */
  lemma {:induction false} InsertSecond(rows: seq<Entry>, e: Entry, place: Place, p: Pattern)
    requires Hits(p, e) && |Select(rows, p)| == 1
    ensures var found := Select(Insert(rows, e, place), p);
      found == [e] + Select(rows, p) || found == Select(rows, p) + [e]
  {
    if place == Before(rows[0].id) {
      assert Insert(rows, e, place)[1..] == rows;
    } else {
      assert Insert(rows, e, place)[1..] == Insert(rows[1..], e, place);
      if Hits(p, rows[0]) {
        assert Select(rows[1..], p) == [];
        InsertSeen(rows[1..], e, place, p);
      } else {
        InsertSecond(rows[1..], e, place, p);
      }
    }
  }

  /** From any table: exactly one matching entry of each kind and nothing else under the comment. */
  lemma EnsurePutsInPlace(t: Table, f: Forward, comment: string)
    ensures InPlace(Ensure(t, f, comment), f, comment)
    ensures Ensure(Ensure(t, f, comment), f, comment) == Ensure(t, f, comment)
  {
    if !InPlace(t, f, comment) {
      var p := Prefix(comment);
      var cleared := Delete(t, p);
      var dst, src := Entry(t.next, DstAttrs(f, comment)), Entry(t.next + 1, SrcAttrs(f, comment));
      NatComments(comment);
      AttrsMatch(t.next, f, comment);
      AttrsMatch(t.next + 1, f, comment);
      SelectAfterReject(t.rows, p, p);
      InsertSeen(cleared.rows, dst, FirstOf(cleared.rows, "dstnat"), p);
      InsertSecond(Insert(cleared.rows, dst, FirstOf(cleared.rows, "dstnat")), src, FirstOf(cleared.rows, "srcnat"), p);
    }
  }

  lemma EnsureKeepsOthers(t: Table, f: Forward, comment: string)
    ensures SameBut(Prefix(comment), t.rows, Ensure(t, f, comment).rows)
  {
    if !InPlace(t, f, comment) {
      var p := Prefix(comment);
      var cleared := Delete(t, p);
      var dst, src := Entry(t.next, DstAttrs(f, comment)), Entry(t.next + 1, SrcAttrs(f, comment));
      NatComments(comment);
      AttrsMatch(t.next, f, comment);
      AttrsMatch(t.next + 1, f, comment);
      SelectAfterReject(t.rows, p, p);
      InsertSeen(cleared.rows, dst, FirstOf(cleared.rows, "dstnat"), p);
      InsertSeen(Insert(cleared.rows, dst, FirstOf(cleared.rows, "dstnat")), src, FirstOf(cleared.rows, "srcnat"), p);
    }
  }
}
