/** The comments by which the operator recognises its own entries (internal/routeros/client.go). */
module Comments {
  import opened Text

  const MANAGED := "managed-by=mikrotik-operator"

  function ManagedComment(kind: string, name: string, namespace_: string): string {
    Join([MANAGED, kind, namespace_, name], '/')
  }

  /** managedCommentPrefixMatches. */
  predicate Under(value: string, prefix: string) {
    value == prefix || HasPrefix(value, prefix + "/")
  }

  predicate IsManaged(value: string) {
    Under(value, MANAGED)
  }

  /** Kubernetes kinds, names and namespaces have no slash. */
  predicate Component(s: string) {
    '/' !in s
  }

  lemma {:induction false} UnderSplits(value: string, prefix: string)
    requires Under(value, prefix)
    ensures var parts := Split(prefix, '/'); |parts| <= |Split(value, '/')| && Split(value, '/')[..|parts|] == parts
  {
    if value != prefix {
      var rest := value[|prefix| + 1..];
      assert value == prefix + ['/'] + rest;
      SplitConcat(prefix, rest, '/');
    }
  }

  lemma ManagedCommentSplits(kind: string, name: string, namespace_: string)
    requires Component(kind) && Component(name) && Component(namespace_)
    ensures Split(ManagedComment(kind, name, namespace_), '/') == [MANAGED, kind, namespace_, name]
  {
    assert '/' !in MANAGED;
    SplitJoin([MANAGED, kind, namespace_, name], '/');
  }

  /** A value lies under the comment of at most one (kind, namespace, name). */
  lemma OneOwner(
    value: string, kind: string, name: string, namespace_: string, kind': string, name': string, namespace': string)
    requires Component(kind) && Component(name) && Component(namespace_)
    requires Component(kind') && Component(name') && Component(namespace')
    requires Under(value, ManagedComment(kind, name, namespace_)) && Under(value, ManagedComment(kind', name', namespace'))
    ensures kind == kind' && name == name' && namespace_ == namespace'
  {
    ManagedCommentSplits(kind, name, namespace_);
    ManagedCommentSplits(kind', name', namespace');
    UnderSplits(value, ManagedComment(kind, name, namespace_));
    UnderSplits(value, ManagedComment(kind', name', namespace'));
    var parts := Split(value, '/')[..4];
    assert parts == [MANAGED, kind, namespace_, name] && parts == [MANAGED, kind', namespace', name'];
    assert parts[1] == kind == kind' && parts[2] == namespace_ == namespace' && parts[3] == name == name';
  }

  lemma UnderTransitive(value: string, middle: string, prefix: string)
    requires Under(value, middle) && Under(middle, prefix)
    ensures Under(value, prefix)
  {
    if value != middle && middle != prefix {
      assert value[..|prefix| + 1] == value[..|middle| + 1][..|prefix| + 1];
    }
  }

  /** Whatever lies under a managed comment is managed. */
  lemma OwnedIsManaged(value: string, kind: string, name: string, namespace_: string)
    requires Under(value, ManagedComment(kind, name, namespace_))
    ensures IsManaged(value)
  {
    var parts := [MANAGED, kind, namespace_, name];
    var comment := ManagedComment(kind, name, namespace_);
    assert comment == MANAGED + ['/'] + Join(parts[1..], '/');
    assert HasPrefix(comment, MANAGED + "/");
    UnderTransitive(value, comment, MANAGED);
  }

  /** The comment of an object, as text. */
  lemma CommentText(kind: string, name: string, namespace_: string)
    ensures ManagedComment(kind, name, namespace_) ==
      "managed-by=mikrotik-operator/" + kind + "/" + namespace_ + "/" + name
  {
    var parts := [MANAGED, kind, namespace_, name];
    assert parts[1..] == [kind, namespace_, name] && parts[1..][1..] == [namespace_, name] && [namespace_, name][1..] == [name];
    assert Join([namespace_, name], '/') == namespace_ + "/" + name;
    assert Join(parts, '/') == MANAGED + "/" + (kind + "/" + (namespace_ + "/" + name));
  }

  /** An entry is the operator's exactly if its comment is the operator's mark, alone or before a slash. */
  lemma ManagedText(value: string)
    ensures IsManaged(value) <==>
      value == "managed-by=mikrotik-operator" || exists rest :: value == "managed-by=mikrotik-operator/" + rest
  {
    var mark := "managed-by=mikrotik-operator/";
    if HasPrefix(value, mark) { assert value == mark + value[|mark|..]; }
    if rest :| value == mark + rest { assert value[..|mark|] == mark; }
  }
}
