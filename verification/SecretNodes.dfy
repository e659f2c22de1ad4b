// Redaction and secret merging on the node tree itself, rewritten in place as
// internal/configctl/secret.go does.
module SecretNodes {
  import opened Prelude
  import opened ConfigPaths
  import opened Secrets

  datatype Kind = NoKind | ScalarKind | SequenceKind | MappingKind

  // A parsed node: the keys of a mapping beside its values, no aliases. The
  // ghost fields are its footprint and the document it stands for.
  class YamlNode {
    var kind: Kind
    var tag: string
    var text: string
    var keys: seq<string>
    var children: seq<YamlNode>
    ghost var Repr: set<object>
    ghost var tree: Node

    ghost predicate Valid()
      reads this, Repr
      decreases Repr
    {
      && this in Repr
      && (forall i :: 0 <= i < |children| ==>
            && children[i] in Repr && children[i].Repr <= Repr && this !in children[i].Repr
            && children[i].Valid())
      && (forall i, j :: 0 <= i < j < |children| ==> children[i].Repr !! children[j].Repr)
      && StandsFor(tree)
    }

    ghost predicate StandsFor(t: Node)
      reads this, children
    {
      Matches(kind, tag, text, keys, children, t)
    }

    static ghost predicate Matches(kind: Kind, tag: string, text: string, keys: seq<string>, children: seq<YamlNode>, t: Node)
      reads children
    {
      match kind
      case NoKind => children == [] && t == Nothing
      case ScalarKind => children == [] && t == Scalar(tag, text)
      case SequenceKind => t.Sequence? && |t.items| == |children| && forall i :: 0 <= i < |children| ==> t.items[i] == children[i].tree
      case MappingKind =>
        && t.Mapping? && |t.entries| == |children| == |keys|
        && forall i :: 0 <= i < |children| ==> t.entries[i] == Entry(keys[i], children[i].tree)
    }

    // After child i has been rewritten: this node stands for t.
    ghost method Adopt(i: nat, t: Node)
      requires i < |children| && this in Repr
      requires forall j :: 0 <= j < |children| ==>
                 && children[j] in Repr && (j != i ==> children[j].Repr <= Repr) && this !in children[j].Repr
                 && children[j].Valid()
      requires forall j, k :: 0 <= j < k < |children| ==> children[j].Repr !! children[k].Repr
      requires StandsFor(t)
      modifies this`tree, this`Repr
      ensures Valid() && tree == t && Repr == old(Repr) + children[i].Repr
    {
      tree, Repr := t, Repr + children[i].Repr;
    }

    method SetPlaceholder(value: string)
      requires Valid()
      modifies this
      ensures Valid() && Repr == old(Repr) && tree == Scalar("!!str", value)
    {
      kind, tag, text, children := ScalarKind, "!!str", value, [];
      tree := Scalar("!!str", value);
    }

    // redactNode.
    method RedactNode(prefix: string)
      requires Valid()
      modifies Repr
      ensures Valid() && Repr == old(Repr) && tree == Redact(prefix, old(tree))
      decreases Repr, 1
    {
      if kind == MappingKind {
        ghost var es := tree.entries;
        for i := 0 to |children|
          invariant Valid() && Repr == old(Repr) && kind == MappingKind && |children| == |es|
          invariant forall j :: 0 <= j < |es| ==> tree.entries[j] == if j < i then RedactEntry(prefix, es[j]) else es[j]
        {
          RedactEntryAt(prefix, i);
        }
        assert tree.entries == Redact(prefix, old(tree)).entries;
      } else if kind == SequenceKind {
        ghost var items := tree.items;
        for i := 0 to |children|
          invariant Valid() && Repr == old(Repr) && kind == SequenceKind && |children| == |items|
          invariant forall j :: 0 <= j < |items| ==> tree.items[j] == if j < i then Redact(prefix, items[j]) else items[j]
        {
          RedactItemAt(prefix, i);
        }
        assert tree.items == Redact(prefix, old(tree)).items;
      }
    }

    method RedactField(path: string)
      requires Valid()
      modifies Repr
      ensures Valid() && Repr == old(Repr) && tree == if IsSensitivePath(path) then Placeholder() else Redact(path, old(tree))
      decreases Repr, 2
    {
      if IsSensitivePath(path) {
        SetPlaceholder(KEEP);
      } else {
        RedactNode(path);
      }
    }

    method RedactEntryAt(prefix: string, i: nat)
      requires Valid() && kind == MappingKind && i < |children|
      modifies Repr
      ensures Valid() && Repr == old(Repr) && kind == MappingKind
      ensures tree == Mapping(old(tree).entries[i := RedactEntry(prefix, old(tree).entries[i])])
      decreases Repr, 0
    {
      var child := children[i];
      child.RedactField(JoinPath(prefix, keys[i]));
      forall j | 0 <= j < |children| && j != i ensures children[j].Valid() && children[j].tree == old(children[j].tree) {
        assert children[j].Repr !! child.Repr;
      }
      Adopt(i, Mapping(tree.entries[i := Entry(keys[i], child.tree)]));
    }

    method RedactItemAt(prefix: string, i: nat)
      requires Valid() && kind == SequenceKind && i < |children|
      modifies Repr
      ensures Valid() && Repr == old(Repr) && kind == SequenceKind
      ensures tree == Sequence(old(tree).items[i := Redact(prefix, old(tree).items[i])])
      decreases Repr, 0
    {
      var child := children[i];
      child.RedactNode(prefix);
      forall j | 0 <= j < |children| && j != i ensures children[j].Valid() && children[j].tree == old(children[j].tree) {
        assert children[j].Repr !! child.Repr;
      }
      Adopt(i, Sequence(tree.items[i := child.tree]));
    }

    // ---------------------------------------------------------- merging

    // A node without children.
    constructor Bare(kind: Kind, tag: string, text: string)
      ensures Valid() && fresh(Repr) && Repr == {this} && children == []
      ensures this.kind == kind && this.tag == tag && this.text == text
      ensures tree == match kind case NoKind => Nothing case ScalarKind => Scalar(tag, text)
                                 case SequenceKind => Sequence([]) case MappingKind => Mapping([])
    {
      this.kind, this.tag, this.text, this.keys, this.children := kind, tag, text, [], [];
      Repr := {this};
      tree := match kind case NoKind => Nothing case ScalarKind => Scalar(tag, text)
                         case SequenceKind => Sequence([]) case MappingKind => Mapping([]);
    }

    method Become(kind: Kind, tag: string, text: string, keys: seq<string>, children: seq<YamlNode>,
                  ghost footprint: set<object>, ghost t: Node)
      requires this !in footprint && Matches(kind, tag, text, keys, children, t)
      requires forall j :: 0 <= j < |children| ==> children[j].Valid() && children[j] in footprint && children[j].Repr <= footprint
      requires forall j, k :: 0 <= j < k < |children| ==> children[j].Repr !! children[k].Repr
      modifies this
      ensures Valid() && tree == t && Repr == {this} + footprint
    {
      this.kind, this.tag, this.text, this.keys, this.children := kind, tag, text, keys, children;
      Repr, tree := {this} + footprint, t;
    }

    // deepCopyNode.
    method DeepCopy() returns (c: YamlNode)
      requires Valid()
      ensures c.Valid() && fresh(c.Repr) && c.tree == tree
      decreases Repr, 1
    {
      var copies, footprint := CopyChildren();
      c := new YamlNode.Bare(kind, tag, text);
      c.Become(kind, tag, text, keys, copies, footprint, tree);
    }

    method CopyChildren() returns (copies: seq<YamlNode>, ghost footprint: set<object>)
      requires Valid()
      ensures |copies| == |children| && fresh(footprint)
      ensures forall j :: 0 <= j < |copies| ==>
                && copies[j].Valid() && copies[j] in footprint && copies[j].Repr <= footprint
                && copies[j].tree == children[j].tree
      ensures forall j, k :: 0 <= j < k < |copies| ==> copies[j].Repr !! copies[k].Repr
      decreases Repr, 0
    {
      copies, footprint := [], {};
      for i := 0 to |children|
        invariant |copies| == i && fresh(footprint)
        invariant forall j :: 0 <= j < i ==>
                    && copies[j].Valid() && copies[j] in footprint && copies[j].Repr <= footprint
                    && copies[j].tree == children[j].tree
        invariant forall j, k :: 0 <= j < k < i ==> copies[j].Repr !! copies[k].Repr
      {
        var child := children[i].DeepCopy();
        copies, footprint := copies + [child], footprint + child.Repr;
      }
    }

    // replaceNode.
    method ReplaceWith(src: YamlNode)
      requires Valid() && src.Valid()
      modifies this
      ensures Valid() && fresh(Repr - old(Repr)) && tree == old(src.tree)
    {
      var c := src.DeepCopy();
      Become(c.kind, c.tag, c.text, c.keys, c.children, c.Repr, c.tree);
    }

    // decodeNode: the value this node stands for.
    method Read() returns (t: Node)
      requires Valid()
      ensures t == tree
      decreases Repr
    {
      if kind == NoKind { return Nothing; }
      if kind == ScalarKind { return Scalar(tag, text); }
      if kind == SequenceKind {
        var items: seq<Node> := [];
        for i := 0 to |children|
          invariant |items| == i && forall j :: 0 <= j < i ==> items[j] == tree.items[j]
        {
          var item := children[i].Read();
          items := items + [item];
        }
        assert items == tree.items;
        return Sequence(items);
      }
      var entries: seq<Entry> := [];
      for i := 0 to |children|
        invariant |entries| == i && forall j :: 0 <= j < i ==> entries[j] == tree.entries[j]
      {
        var value := children[i].Read();
        entries := entries + [Entry(keys[i], value)];
      }
      assert entries == tree.entries;
      return Mapping(entries);
    }

    // scalarText.
    method Text() returns (t: Option<string>)
      requires Valid()
      ensures t == ScalarText(tree)
    {
      if kind == ScalarKind && (tag == "!!str" || tag == "") { return Some(text); }
      return None;
    }

    // A lookup in mappingEntries: later entries overwrite earlier ones.
    method Find(key: string) returns (found: bool, i: nat)
      requires Valid()
      ensures found <==> HasKey(Entries(tree), key)
      ensures found ==> kind == MappingKind && i < |children| && i == LastIndex(tree.entries, key)
    {
      found, i := false, 0;
      if kind != MappingKind { return; }
      for k := 0 to |keys|
        invariant found ==> i < k && keys[i] == key && forall j :: i < j < k ==> keys[j] != key
        invariant !found ==> forall j :: 0 <= j < k ==> keys[j] != key
      {
        if keys[k] == key { found, i := true, k; }
      }
      assert forall j :: 0 <= j < |keys| ==> tree.entries[j].key == keys[j];
    }

    // rejectSecretPlaceholderMap.
    method Reject(prefix: string) returns (err: Option<MergeError>)
      requires Valid()
      ensures err == Offence(prefix, tree)
      decreases Repr, 0
    {
      if kind != MappingKind { return None; }
      for i := 0 to |children|
        invariant Offence(prefix, tree) == OffenceFrom(prefix, tree, i)
      {
        err := RejectEntry(JoinPath(prefix, keys[i]), children[i]);
        assert tree.entries[i] == Entry(keys[i], children[i].tree);
        if err.Some? { return; }
      }
      return None;
    }

    // The offence of one entry by itself.
    static method RejectEntry(path: string, child: YamlNode) returns (err: Option<MergeError>)
      requires child.Valid()
      ensures err == if IsSensitivePath(path) then Some(Introduced(path))
                     else if CarriesPlaceholder(child.tree) then Some(StrayPlaceholder(path))
                     else Offence(path, child.tree)
      decreases child.Repr, 1
    {
      if IsSensitivePath(path) { return Some(Introduced(path)); }
      var shown := child.Text();
      if shown.Some? && HasPrefix(shown.value, PLACEHOLDER_PREFIX) { return Some(StrayPlaceholder(path)); }
      err := child.Reject(path);
    }

    method ResolveSecret(path: string, value: YamlNode, same: SameValue) returns (err: Option<MergeError>)
      requires Valid() && value.Valid()
      modifies this
      ensures match ResolveSensitive(path, old(tree), old(value.tree), same)
              case Ok(v) => err.None? && Valid() && fresh(Repr - old(Repr)) && tree == v
              case Err(e) => err == Some(e)
    {
      var shown := Text();
      if shown == Some(KEEP) {
        ReplaceWith(value);
        return None;
      }
      if shown == Some(CLEAR) {
        var cleared := new YamlNode.Bare(if value.kind == SequenceKind then SequenceKind else ScalarKind,
                                         if value.kind == SequenceKind then "!!seq" else "!!str", "");
        ReplaceWith(cleared);
        return None;
      }
      var mine := Read();
      var live := value.Read();
      return if same(mine, live) then None else Some(NeedsPlaceholder(path));
    }

    // One candidate value in the second pass; `this` is that value.
    method ResolveField(prefix: string, key: string, base: YamlNode, same: SameValue) returns (err: Option<MergeError>)
      requires Valid() && base.Valid() && base.kind == MappingKind && Repr !! base.Repr
      modifies this
      ensures match Resolve(prefix, Entry(key, old(tree)), old(base.tree).entries, same)
              case Ok(v) => err.None? && Valid() && fresh(Repr - old(Repr)) && tree == v
              case Err(e) => err == Some(e)
    {
      var path := JoinPath(prefix, key);
      var found, k := base.Find(key);
      if IsSensitivePath(path) {
        if !found { return Some(NoBaseValue(path)); }
        err := ResolveSecret(path, base.children[k], same);
        return;
      }
      var shown := Text();
      if shown.Some? && HasPrefix(shown.value, PLACEHOLDER_PREFIX) { return Some(StrayPlaceholder(path)); }
      if !found && kind == MappingKind {
        err := Reject(path);
        return;
      }
      return None;
    }

    method ResolveAt(prefix: string, base: YamlNode, i: nat, same: SameValue) returns (err: Option<MergeError>)
      requires Valid() && base.Valid() && kind == base.kind == MappingKind && i < |children| && Repr !! base.Repr
      modifies Repr
      ensures match ResolverFor(prefix, old(base.tree).entries, same)(old(tree).entries[i])
              case Ok(v) => && err.None? && Valid() && kind == MappingKind && fresh(Repr - old(Repr))
                            && tree == Mapping(old(tree).entries[i := Entry(old(tree).entries[i].key, v)])
              case Err(e) => err == Some(e)
    {
      var child := children[i];
      err := child.ResolveField(prefix, keys[i], base, same);
      if err.None? {
        forall j | 0 <= j < |children| && j != i ensures children[j].Valid() && children[j].tree == old(children[j].tree) {
          assert children[j].Repr !! old(child.Repr);
        }
        Adopt(i, Mapping(tree.entries[i := Entry(keys[i], child.tree)]));
      }
    }

    // Candidate side of mergeSecretNode: every entry in turn.
    method ResolveAll(prefix: string, base: YamlNode, same: SameValue) returns (err: Option<MergeError>)
      requires Valid() && base.Valid() && kind == base.kind == MappingKind && Repr !! base.Repr
      modifies Repr
      ensures match ResolveFirst(old(tree).entries, |old(tree).entries|, ResolverFor(prefix, old(base.tree).entries, same))
              case Ok(es) => err.None? && Valid() && fresh(Repr - old(Repr)) && tree == Mapping(es)
              case Err(e) => err == Some(e)
    {
      ghost var es, resolve := tree.entries, ResolverFor(prefix, base.tree.entries, same);
      ghost var done: seq<Entry> := [];
      var n := |children|;
      for i := 0 to n
        invariant Valid() && kind == MappingKind && |children| == n == |es| && fresh(Repr - old(Repr))
        invariant base.Valid() && base.tree == old(base.tree) && base.Repr == old(base.Repr) && base.kind == MappingKind
        invariant ResolveFirst(es, i, resolve) == Ok(done) && |done| == i
        invariant forall j :: 0 <= j < n ==> tree.entries[j] == if j < i then done[j] else es[j]
      {
        assert tree.entries[i] == es[i];
        err := ResolveAt(prefix, base, i, same);
        if err.Some? {
          ResolveFirstFails(es, i, resolve, n);
          return;
        }
        done := done + [tree.entries[i]];
        assert resolve(es[i]) == Ok(done[i].value) && done[i].key == es[i].key;
        assert ResolveFirst(es, i + 1, resolve) == Ok(done);
      }
      assert tree.entries == done;
      return None;
    }

    method MergeChild(path: string, value: YamlNode, j: nat, same: SameValue) returns (err: Option<MergeError>)
      requires Valid() && value.Valid() && kind == MappingKind && j < |children| && Repr !! value.Repr
      modifies Repr
      ensures match Merge(path, old(tree).entries[j].value, old(value.tree), same)
              case Ok(v) => && err.None? && Valid() && kind == MappingKind && fresh(Repr - old(Repr))
                            && tree == Mapping(old(tree).entries[j := Entry(old(tree).entries[j].key, v)])
              case Err(e) => err == Some(e)
      decreases value.Repr, 3
    {
      var child := children[j];
      err := child.MergeSecretNode(path, value, same);
      if err.None? {
        forall k | 0 <= k < |children| && k != j ensures children[k].Valid() && children[k].tree == old(children[k].tree) {
          assert children[k].Repr !! old(child.Repr);
        }
        Adopt(j, Mapping(tree.entries[j := Entry(keys[j], child.tree)]));
      }
    }

    // Base side of mergeSecretNode, one base entry.
    method ShareAt(prefix: string, base: YamlNode, i: nat, same: SameValue) returns (err: Option<MergeError>)
      requires Valid() && base.Valid() && base.kind == MappingKind && i < |base.children| && Repr !! base.Repr
      modifies Repr
      ensures match ShareOne(prefix, Entries(old(tree)), old(base.tree).entries[i], same)
              case Ok(es) => && err.None? && Valid() && fresh(Repr - old(Repr)) && kind == old(kind)
                             && tree == if old(tree).Mapping? then Mapping(es) else old(tree)
              case Err(e) => err == Some(e)
      decreases base.Repr, 0
    {
      var key, value := base.keys[i], base.children[i];
      var path := JoinPath(prefix, key);
      var found, j := Find(key);
      if IsSensitivePath(path) { return if found then None else Some(Removed(path)); }
      if value.kind == MappingKind && found {
        err := MergeChild(path, value, j, same);
        return;
      }
      return None;
    }

    method ShareAll(prefix: string, base: YamlNode, same: SameValue) returns (err: Option<MergeError>)
      requires Valid() && base.Valid() && base.kind == MappingKind && Repr !! base.Repr
      modifies Repr
      ensures match MergeShared(prefix, Entries(old(tree)), old(base.tree), |old(base.tree).entries|, same)
              case Ok(es) => && err.None? && Valid() && fresh(Repr - old(Repr)) && kind == old(kind)
                             && tree == if old(tree).Mapping? then Mapping(es) else old(tree)
              case Err(e) => err == Some(e)
      decreases base.Repr, 1
    {
      ghost var es := Entries(tree);
      var n := |base.children|;
      for i := 0 to n
        invariant Valid() && kind == old(kind) && fresh(Repr - old(Repr))
        invariant base.Valid() && base.tree == old(base.tree) && base.Repr == old(base.Repr)
        invariant base.kind == MappingKind && |base.children| == n
        invariant tree == if old(tree).Mapping? then Mapping(Entries(tree)) else old(tree)
        invariant MergeShared(prefix, es, base.tree, i, same) == Ok(Entries(tree))
      {
        ghost var reached := Entries(tree);
        err := ShareAt(prefix, base, i, same);
        if err.Some? {
          MergeSharedFails(prefix, es, base.tree, i, n, same, reached, err.value);
          return;
        }
      }
      return None;
    }

    // mergeSecretNode; `this` is the candidate. After an error the candidate
    // is half rewritten, and the caller drops it.
    method MergeSecretNode(prefix: string, base: YamlNode, same: SameValue) returns (err: Option<MergeError>)
      requires Valid() && base.Valid() && Repr !! base.Repr
      modifies Repr
      ensures match Merge(prefix, old(tree), old(base.tree), same)
              case Ok(merged) => err.None? && Valid() && fresh(Repr - old(Repr)) && tree == merged
              case Err(e) => err == Some(e)
      decreases base.Repr, 2
    {
      if base.kind != MappingKind { return None; }
      err := ShareAll(prefix, base, same);
      if err.Some? || kind != MappingKind { return; }
      err := ResolveAll(prefix, base, same);
    }
  }

  // An error at one entry is the error of the whole pass.
  lemma {:induction false} ResolveFirstFails(es: seq<Entry>, i: nat, resolve: Resolver, n: nat)
    requires i < n <= |es| && ResolveFirst(es, i, resolve).Ok? && resolve(es[i]).Err?
    ensures ResolveFirst(es, n, resolve) == Err(resolve(es[i]).error)
  {
    if n > i + 1 { ResolveFirstFails(es, i, resolve, n - 1); }
  }

  lemma {:induction false} MergeSharedFails(prefix: string, es: seq<Entry>, base: Node, i: nat, n: nat, same: SameValue,
                                            reached: seq<Entry>, e: MergeError)
    requires base.Mapping? && i < n <= |base.entries|
    requires MergeShared(prefix, es, base, i, same) == Ok(reached) && ShareOne(prefix, reached, base.entries[i], same) == Err(e)
    ensures MergeShared(prefix, es, base, n, same) == Err(e)
  {
    if n == i + 1 {
      assert MergeShared(prefix, es, base, n, same) == ShareOne(prefix, reached, base.entries[i], same);
    } else {
      MergeSharedFails(prefix, es, base, i, n - 1, same, reached, e);
      ErrorStays(prefix, es, base, n - 1, same, e);
    }
  }

  lemma ErrorStays(prefix: string, es: seq<Entry>, base: Node, n: nat, same: SameValue, e: MergeError)
    requires base.Mapping? && n < |base.entries| && MergeShared(prefix, es, base, n, same) == Err(e)
    ensures MergeShared(prefix, es, base, n + 1, same) == Err(e)
  {
  }
}
