/** Whose entry is whose: what an operation on one object's comment leaves alone. */
module Ownership {
  import opened Comments
  import opened Table

  datatype Owner = Owner(kind: string, name: string, namespace_: string)

  predicate IsOwner(o: Owner) {
    Component(o.kind) && Component(o.name) && Component(o.namespace_)
  }

  function CommentOf(o: Owner): string {
    ManagedComment(o.kind, o.name, o.namespace_)
  }

  /** The entries of an owner: its comment and everything below it, such as "/dstnat" or a gateway. */
  function Mine(o: Owner): Pattern {
    Prefix(CommentOf(o))
  }

  const Operator := Prefix(MANAGED)

  lemma OwnersAreApart(o: Owner, o': Owner)
    requires IsOwner(o) && IsOwner(o') && o != o'
    ensures Apart(Mine(o), Mine(o'))
  {
    forall v | Accepts(Mine(o'), v) ensures !Accepts(Mine(o), v) {
      if Accepts(Mine(o), v) {
        OneOwner(v, o.kind, o.name, o.namespace_, o'.kind, o'.name, o'.namespace_);
      }
    }
  }

  lemma OperatorCoversOwners(o: Owner)
    ensures Covers(Operator, Mine(o))
  {
    forall v | Accepts(Mine(o), v) ensures Accepts(Operator, v) {
      OwnedIsManaged(v, o.kind, o.name, o.namespace_);
    }
  }

  /** The entries outside a pattern are the same, in the same order. */
  predicate SameBut(p: Pattern, rows: seq<Entry>, rows': seq<Entry>) {
    Reject(rows', p) == Reject(rows, p)
  }

  /**
    An operation that changes nothing outside one owner's comment leaves every other owner's entries
    and every unmanaged entry as they were and in the order they were.
   */
  lemma ForeignEntriesStay(o: Owner, rows: seq<Entry>, rows': seq<Entry>)
    requires IsOwner(o) && SameBut(Mine(o), rows, rows')
    ensures Reject(rows', Operator) == Reject(rows, Operator)
    ensures forall o' :: IsOwner(o') && o' != o ==> Select(rows', Mine(o')) == Select(rows, Mine(o'))
  {
    OperatorCoversOwners(o);
    SelectAfterReject(rows, Operator, Mine(o));
    SelectAfterReject(rows', Operator, Mine(o));
    forall o' | IsOwner(o') && o' != o ensures Select(rows', Mine(o')) == Select(rows, Mine(o')) {
      OwnersAreApart(o, o');
      SelectAfterReject(rows, Mine(o), Mine(o'));
      SelectAfterReject(rows', Mine(o), Mine(o'));
    }
  }
}
