// Redaction of a configuration and the merge that puts secrets back
// (internal/configctl/secret.go), as functions on parsed documents.
module Secrets {
  import opened Prelude
  import opened ConfigPaths

  // ----------------------------------------------------------------- data

  // A parsed YAML node without aliases, comments and styles. Nothing is the
  // zero node of an empty document.
  datatype Node = Nothing | Scalar(tag: string, text: string) | Sequence(items: seq<Node>) | Mapping(entries: seq<Entry>)

  datatype Entry = Entry(key: string, value: Node)

  datatype MergeError =
    | Removed(path: string) | NoBaseValue(path: string) | NeedsPlaceholder(path: string)
    | StrayPlaceholder(path: string) | Introduced(path: string)

  const KEEP := "${SECRET:KEEP}"
  const CLEAR := "${SECRET:CLEAR}"
  const PLACEHOLDER_PREFIX := "${SECRET:"

  // Whether two nodes decode to equal values (yaml decoding and DeepEqual).
  type SameValue = (Node, Node) -> bool

  // -------------------------------------------------------------- redaction

  function Placeholder(): Node {
    Scalar("!!str", KEEP)
  }

  function Redact(prefix: string, n: Node): Node
    decreases n
  {
    match n
    case Mapping(es) => Mapping(seq(|es|, i requires 0 <= i < |es| => RedactEntry(prefix, es[i])))
    case Sequence(items) => Sequence(seq(|items|, i requires 0 <= i < |items| => Redact(prefix, items[i])))
    case _ => n
  }

  function RedactEntry(prefix: string, e: Entry): Entry
    decreases e
  {
    var path := JoinPath(prefix, e.key);
    Entry(e.key, if IsSensitivePath(path) then Placeholder() else Redact(path, e.value))
  }

  // ------------------------------------------------------------------ merge

  function ScalarText(n: Node): Option<string> {
    if n.Scalar? && (n.tag == "!!str" || n.tag == "") then Some(n.text) else None
  }

  predicate CarriesPlaceholder(n: Node) {
    ScalarText(n).Some? && HasPrefix(ScalarText(n).value, PLACEHOLDER_PREFIX)
  }

  function EmptyNode(base: Node): Node {
    if base.Sequence? then Sequence([]) else Scalar("!!str", "")
  }

  predicate HasKey(es: seq<Entry>, key: string) {
    exists i :: 0 <= i < |es| && es[i].key == key
  }

  // The last entry with this key wins (mappingEntries).
  function LastIndex(es: seq<Entry>, key: string): (i: nat)
    requires HasKey(es, key)
    ensures i < |es| && es[i].key == key && forall j :: i < j < |es| ==> es[j].key != key
  {
    if es[|es| - 1].key == key then |es| - 1 else LastIndex(es[..|es| - 1], key)
  }

  // rejectSecretPlaceholderMap: the first offence among entries i, i + 1, ...
  function Offence(prefix: string, n: Node): Option<MergeError>
    decreases n, 1, 0
  {
    if n.Mapping? then OffenceFrom(prefix, n, 0) else None
  }

  function OffenceFrom(prefix: string, n: Node, i: nat): Option<MergeError>
    requires n.Mapping? && i <= |n.entries|
    decreases n, 0, |n.entries| - i
  {
    if i == |n.entries| then None
    else
      var path, value := JoinPath(prefix, n.entries[i].key), n.entries[i].value;
      if IsSensitivePath(path) then Some(Introduced(path))
      else if CarriesPlaceholder(value) then Some(StrayPlaceholder(path))
      else if Offence(path, value).Some? then Offence(path, value)
      else OffenceFrom(prefix, n, i + 1)
  }

  function Entries(n: Node): seq<Entry> {
    if n.Mapping? then n.entries else []
  }

  // The candidate entries after the first i base entries: nested mappings
  // present on both sides have been merged, sensitive base fields looked for.
  function MergeShared(prefix: string, ces: seq<Entry>, base: Node, i: nat, same: SameValue): Result<seq<Entry>, MergeError>
    requires base.Mapping? && i <= |base.entries|
    decreases base, 0, i
  {
    if i == 0 then Ok(ces)
    else
      match MergeShared(prefix, ces, base, i - 1, same)
      case Err(e) => Err(e)
      case Ok(es) => ShareOne(prefix, es, base.entries[i - 1], same)
  }

  function ShareOne(prefix: string, es: seq<Entry>, b: Entry, same: SameValue): Result<seq<Entry>, MergeError>
    decreases b, 0, 0
  {
    var path := JoinPath(prefix, b.key);
    if IsSensitivePath(path) then if HasKey(es, b.key) then Ok(es) else Err(Removed(path))
    else if b.value.Mapping? && HasKey(es, b.key) then
      var j := LastIndex(es, b.key);
      match Merge(path, es[j].value, b.value, same)
      case Err(e) => Err(e)
      case Ok(merged) => Ok(es[j := Entry(es[j].key, merged)])
    else Ok(es)
  }

  // What becomes of a sensitive candidate value over its base value.
  function ResolveSensitive(path: string, c: Node, b: Node, same: SameValue): Result<Node, MergeError> {
    if ScalarText(c) == Some(KEEP) then Ok(b)
    else if ScalarText(c) == Some(CLEAR) then Ok(EmptyNode(b))
    else if same(c, b) then Ok(c)
    else Err(NeedsPlaceholder(path))
  }

  // What becomes of one candidate value.
  function Resolve(prefix: string, c: Entry, bes: seq<Entry>, same: SameValue): Result<Node, MergeError> {
    var path := JoinPath(prefix, c.key);
    if IsSensitivePath(path) then
      if !HasKey(bes, c.key) then Err(NoBaseValue(path))
      else
        ResolveSensitive(path, c.value, bes[LastIndex(bes, c.key)].value, same)
    else if CarriesPlaceholder(c.value) then Err(StrayPlaceholder(path))
    else if !HasKey(bes, c.key) && Offence(path, c.value).Some? then Err(Offence(path, c.value).value)
    else Ok(c.value)
  }

  type Resolver = Entry -> Result<Node, MergeError>

  function ResolverFor(prefix: string, bes: seq<Entry>, same: SameValue): Resolver {
    c => Resolve(prefix, c, bes, same)
  }

  // The first i entries, each resolved; or the first error.
  function ResolveFirst(es: seq<Entry>, i: nat, resolve: Resolver): Result<seq<Entry>, MergeError>
    requires i <= |es|
  {
    if i == 0 then Ok([])
    else
      match ResolveFirst(es, i - 1, resolve)
      case Err(e) => Err(e)
      case Ok(done) =>
        match resolve(es[i - 1])
        case Err(e) => Err(e)
        case Ok(v) => Ok(done + [Entry(es[i - 1].key, v)])
  }

  function Merge(prefix: string, cand: Node, base: Node, same: SameValue): Result<Node, MergeError>
    decreases base, 1, 0
  {
    if !base.Mapping? then Ok(cand)
    else
      match MergeShared(prefix, Entries(cand), base, |base.entries|, same)
      case Err(e) => Err(e)
      case Ok(es) =>
        if !cand.Mapping? then Ok(cand)
        else
          match ResolveFirst(es, |es|, ResolverFor(prefix, base.entries, same))
          case Err(e) => Err(e)
          case Ok(done) => Ok(Mapping(done))
  }

  // -------------------------------------------------- what redaction keeps

  // The same document apart from the values of sensitive fields.
  predicate AgreeOffSensitive(prefix: string, a: Node, b: Node)
    decreases a
  {
    match (a, b)
    case (Mapping(xs), Mapping(ys)) =>
      |xs| == |ys| && forall i :: 0 <= i < |xs| ==> EntriesAgree(prefix, xs[i], ys[i])
    case (Sequence(xs), Sequence(ys)) => |xs| == |ys| && forall i :: 0 <= i < |xs| ==> AgreeOffSensitive(prefix, xs[i], ys[i])
    case _ => a == b
  }

  predicate EntriesAgree(prefix: string, x: Entry, y: Entry)
    decreases x
  {
    var path := JoinPath(prefix, x.key);
    x.key == y.key && (IsSensitivePath(path) || AgreeOffSensitive(path, x.value, y.value))
  }

  lemma SameEntries(prefix: string, xs: seq<Entry>, ys: seq<Entry>)
    requires |xs| == |ys|
    ensures Redact(prefix, Mapping(xs)) == Redact(prefix, Mapping(ys))
            <==> forall i :: 0 <= i < |xs| ==> RedactEntry(prefix, xs[i]) == RedactEntry(prefix, ys[i])
  {
    var rx, ry := Redact(prefix, Mapping(xs)).entries, Redact(prefix, Mapping(ys)).entries;
    assert forall i :: 0 <= i < |xs| ==> rx[i] == RedactEntry(prefix, xs[i]) && ry[i] == RedactEntry(prefix, ys[i]);
  }

  lemma SameItems(prefix: string, xs: seq<Node>, ys: seq<Node>)
    requires |xs| == |ys|
    ensures Redact(prefix, Sequence(xs)) == Redact(prefix, Sequence(ys))
            <==> forall i :: 0 <= i < |xs| ==> Redact(prefix, xs[i]) == Redact(prefix, ys[i])
  {
    var rx, ry := Redact(prefix, Sequence(xs)).items, Redact(prefix, Sequence(ys)).items;
    assert forall i :: 0 <= i < |xs| ==> rx[i] == Redact(prefix, xs[i]) && ry[i] == Redact(prefix, ys[i]);
  }

  // Redaction shows nothing but what lies off the sensitive fields, and all
  // of that.
  lemma {:induction false} RedactShowsExactly(prefix: string, a: Node, b: Node)
    ensures Redact(prefix, a) == Redact(prefix, b) <==> AgreeOffSensitive(prefix, a, b)
    decreases a
  {
    match (a, b)
    case (Mapping(xs), Mapping(ys)) =>
      if |xs| == |ys| {
        SameEntries(prefix, xs, ys);
        forall i | 0 <= i < |xs| ensures RedactEntry(prefix, xs[i]) == RedactEntry(prefix, ys[i]) <==> EntriesAgree(prefix, xs[i], ys[i]) {
          RedactShowsExactly(JoinPath(prefix, xs[i].key), xs[i].value, ys[i].value);
        }
      } else {
        assert |Redact(prefix, a).entries| != |Redact(prefix, b).entries|;
      }
    case (Sequence(xs), Sequence(ys)) =>
      if |xs| == |ys| {
        SameItems(prefix, xs, ys);
        forall i | 0 <= i < |xs| { RedactShowsExactly(prefix, xs[i], ys[i]); }
      } else {
        assert |Redact(prefix, a).items| != |Redact(prefix, b).items|;
      }
    case _ =>
  }
}
