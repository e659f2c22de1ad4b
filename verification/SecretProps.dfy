// Redacting and merging undo each other: what the merge does entry by entry,
// when it restores the base, and what any accepted edit leaves behind.
module SecretProps {
  import opened Prelude
  import opened ConfigPaths
  import opened Secrets

  ghost predicate Distinct(es: seq<Entry>) {
    forall i, j :: 0 <= i < j < |es| ==> es[i].key != es[j].key
  }

  // No mapping reached through mappings repeats a key.
  ghost predicate UniqueKeys(n: Node) {
    n.Mapping? ==> Distinct(n.entries) && forall i :: 0 <= i < |n.entries| ==> UniqueKeys(n.entries[i].value)
  }

  lemma OnlyIndex(es: seq<Entry>, i: nat)
    requires Distinct(es) && i < |es|
    ensures HasKey(es, es[i].key) && LastIndex(es, es[i].key) == i
  {
  }

  // ------------------------------------------------- the merge, pointwise

  ghost predicate SensitivesPresent(prefix: string, ces: seq<Entry>, bes: seq<Entry>, upTo: nat)
    requires upTo <= |bes|
  {
    forall k :: 0 <= k < upTo && IsSensitivePath(JoinPath(prefix, bes[k].key)) ==> HasKey(ces, bes[k].key)
  }

  // A candidate value once the nested merge is done.
  ghost function Nested(prefix: string, c: Entry, bes: seq<Entry>, same: SameValue): Result<Node, MergeError> {
    var path := JoinPath(prefix, c.key);
    if !IsSensitivePath(path) && HasKey(bes, c.key) && bes[LastIndex(bes, c.key)].value.Mapping?
    then Merge(path, c.value, bes[LastIndex(bes, c.key)].value, same)
    else Ok(c.value)
  }

  ghost function Settle(prefix: string, c: Entry, bes: seq<Entry>, same: SameValue): Result<Node, MergeError> {
    match Nested(prefix, c, bes, same)
    case Err(e) => Err(e)
    case Ok(v) => Resolve(prefix, Entry(c.key, v), bes, same)
  }

  ghost predicate Reached(bes: seq<Entry>, i: nat, key: string)
    requires i <= |bes|
  {
    exists k :: 0 <= k < i && bes[k].key == key
  }

  ghost function NestedUpTo(prefix: string, c: Entry, bes: seq<Entry>, i: nat, same: SameValue): Result<Node, MergeError>
    requires i <= |bes|
  {
    if Reached(bes, i, c.key) then Nested(prefix, c, bes, same) else Ok(c.value)
  }

  ghost predicate SharedIs(prefix: string, ces: seq<Entry>, base: Node, i: nat, same: SameValue)
    requires base.Mapping? && i <= |base.entries|
  {
    var r := MergeShared(prefix, ces, base, i, same);
    && (r.Ok? <==> SensitivesPresent(prefix, ces, base.entries, i)
                   && forall j :: 0 <= j < |ces| ==> NestedUpTo(prefix, ces[j], base.entries, i, same).Ok?)
    && (r.Ok? ==> && |r.value| == |ces|
                  && forall j :: 0 <= j < |ces| ==> r.value[j].key == ces[j].key
                                                    && NestedUpTo(prefix, ces[j], base.entries, i, same) == Ok(r.value[j].value))
  }

  lemma SharedNone(prefix: string, ces: seq<Entry>, base: Node, same: SameValue)
    requires base.Mapping?
    ensures SharedIs(prefix, ces, base, 0, same)
  {
    assert MergeShared(prefix, ces, base, 0, same) == Ok(ces);
    assert forall j :: 0 <= j < |ces| ==> NestedUpTo(prefix, ces[j], base.entries, 0, same) == Ok(ces[j].value);
  }

  lemma {:induction false} SharedPointwise(prefix: string, ces: seq<Entry>, base: Node, i: nat, same: SameValue)
    requires base.Mapping? && i <= |base.entries| && Distinct(ces) && Distinct(base.entries)
    ensures SharedIs(prefix, ces, base, i, same)
    decreases i
  {
    if i == 0 {
      SharedNone(prefix, ces, base, same);
    } else {
      SharedPointwise(prefix, ces, base, i - 1, same);
      SharedStep(prefix, ces, base, i - 1, same);
    }
  }

  lemma ReachedStep(prefix: string, c: Entry, bes: seq<Entry>, i: nat, same: SameValue)
    requires i < |bes| && Distinct(bes)
    ensures NestedUpTo(prefix, c, bes, i + 1, same)
            == if c.key == bes[i].key then Nested(prefix, c, bes, same) else NestedUpTo(prefix, c, bes, i, same)
    ensures c.key == bes[i].key ==> NestedUpTo(prefix, c, bes, i, same) == Ok(c.value)
  {
    assert Reached(bes, i + 1, c.key) <==> Reached(bes, i, c.key) || c.key == bes[i].key;
  }

  // One base entry changes at most the candidate entry with its key.
  lemma ShareOneTouches(prefix: string, es: seq<Entry>, b: Entry, same: SameValue)
    requires Distinct(es)
    ensures var r, path := ShareOne(prefix, es, b, same), JoinPath(prefix, b.key);
            && (r.Ok? <==> && (IsSensitivePath(path) ==> HasKey(es, b.key))
                           && forall j :: 0 <= j < |es| && es[j].key == b.key && !IsSensitivePath(path) && b.value.Mapping?
                                          ==> Merge(path, es[j].value, b.value, same).Ok?)
            && (r.Ok? ==> |r.value| == |es| && forall j :: 0 <= j < |es| ==>
                            && r.value[j].key == es[j].key
                            && Ok(r.value[j].value) == if es[j].key == b.key && !IsSensitivePath(path) && b.value.Mapping?
                                                       then Merge(path, es[j].value, b.value, same) else Ok(es[j].value))
  {
    var path, r := JoinPath(prefix, b.key), ShareOne(prefix, es, b, same);
    if !IsSensitivePath(path) && b.value.Mapping? && HasKey(es, b.key) {
      var j := LastIndex(es, b.key);
      OnlyIndex(es, j);
      var merged := Merge(path, es[j].value, b.value, same);
      assert r == if merged.Ok? then Ok(es[j := Entry(es[j].key, merged.value)]) else Err(merged.error);
      assert forall k :: 0 <= k < |es| && es[k].key == b.key ==> k == j;
    } else {
      assert r.Ok? ==> r.value == es;
    }
  }

  lemma SharedStep(prefix: string, ces: seq<Entry>, base: Node, i: nat, same: SameValue)
    requires base.Mapping? && i < |base.entries| && Distinct(ces) && Distinct(base.entries)
    requires SharedIs(prefix, ces, base, i, same)
    ensures SharedIs(prefix, ces, base, i + 1, same)
  {
    var bes, b := base.entries, base.entries[i];
    OnlyIndex(bes, i);
    forall j | 0 <= j < |ces| { ReachedStep(prefix, ces[j], bes, i, same); }
    var r := MergeShared(prefix, ces, base, i, same);
    if r.Ok? {
      ShareOneTouches(prefix, r.value, b, same);
      assert HasKey(r.value, b.key) <==> HasKey(ces, b.key);
    }
  }

  lemma {:induction false} ResolvePointwise(es: seq<Entry>, i: nat, resolve: Resolver)
    requires i <= |es|
    ensures var r := ResolveFirst(es, i, resolve);
            && (r.Ok? <==> forall j :: 0 <= j < i ==> resolve(es[j]).Ok?)
            && (r.Ok? ==> |r.value| == i && forall j :: 0 <= j < i ==> r.value[j].key == es[j].key && resolve(es[j]) == Ok(r.value[j].value))
  {
    if i > 0 { ResolvePointwise(es, i - 1, resolve); }
  }

  // With unique keys the two passes over the two documents amount to settling
  // every candidate entry on its own.
  lemma MergePointwise(prefix: string, cand: Node, base: Node, same: SameValue)
    requires cand.Mapping? && base.Mapping? && Distinct(cand.entries) && Distinct(base.entries)
    ensures var r, ces, bes := Merge(prefix, cand, base, same), cand.entries, base.entries;
            && (r.Ok? <==> SensitivesPresent(prefix, ces, bes, |bes|)
                           && forall j :: 0 <= j < |ces| ==> Settle(prefix, ces[j], bes, same).Ok?)
            && (r.Ok? ==> && r.value.Mapping? && |r.value.entries| == |ces|
                          && forall j :: 0 <= j < |ces| ==> r.value.entries[j].key == ces[j].key
                                                            && Settle(prefix, ces[j], bes, same) == Ok(r.value.entries[j].value))
  {
    var ces, bes := cand.entries, base.entries;
    SharedPointwise(prefix, ces, base, |bes|, same);
    forall j | 0 <= j < |ces| ensures NestedUpTo(prefix, ces[j], bes, |bes|, same) == Nested(prefix, ces[j], bes, same) {
      assert Reached(bes, |bes|, ces[j].key) <==> HasKey(bes, ces[j].key);
    }
    var shared := MergeShared(prefix, ces, base, |bes|, same);
    if shared.Ok? {
      var es, resolve := shared.value, ResolverFor(prefix, bes, same);
      ResolvePointwise(es, |es|, resolve);
      forall j | 0 <= j < |ces| ensures Settle(prefix, ces[j], bes, same) == resolve(es[j]) {
        assert es[j] == Entry(ces[j].key, es[j].value);
      }
    }
  }

  // ------------------------------------------------------------ round trip

  // No sensitive field anywhere that is not already the placeholder.
  predicate NothingToRedact(prefix: string, n: Node)
    decreases n
  {
    match n
    case Mapping(es) => forall i :: 0 <= i < |es| ==> EntryUntouched(prefix, es[i])
    case Sequence(items) => forall i :: 0 <= i < |items| ==> NothingToRedact(prefix, items[i])
    case _ => true
  }

  predicate EntryUntouched(prefix: string, e: Entry)
    decreases e
  {
    var path := JoinPath(prefix, e.key);
    if IsSensitivePath(path) then e.value == Placeholder() else NothingToRedact(path, e.value)
  }

  lemma {:induction false} RedactIsIdentityIff(prefix: string, n: Node)
    ensures Redact(prefix, n) == n <==> NothingToRedact(prefix, n)
    decreases n
  {
    match n
    case Mapping(es) =>
      var rs := Redact(prefix, n).entries;
      forall i | 0 <= i < |es| ensures rs[i] == es[i] <==> EntryUntouched(prefix, es[i]) {
        RedactIsIdentityIff(JoinPath(prefix, es[i].key), es[i].value);
        assert rs[i] == RedactEntry(prefix, es[i]);
      }
      assert rs == es <==> forall i :: 0 <= i < |es| ==> rs[i] == es[i];
    case Sequence(items) =>
      var rs := Redact(prefix, n).items;
      forall i | 0 <= i < |items| ensures rs[i] == items[i] <==> NothingToRedact(prefix, items[i]) {
        RedactIsIdentityIff(prefix, items[i]);
      }
      assert rs == items <==> forall i :: 0 <= i < |items| ==> rs[i] == items[i];
    case _ =>
  }

  // What the merge can put back: sensitive fields reached through mappings
  // only, and no ordinary text that looks like a placeholder.
  predicate Restorable(prefix: string, n: Node)
    decreases n
  {
    if n.Mapping? then forall i :: 0 <= i < |n.entries| ==> EntryRestorable(prefix, n.entries[i])
    else NothingToRedact(prefix, n)
  }

  predicate EntryRestorable(prefix: string, e: Entry)
    decreases e
  {
    var path := JoinPath(prefix, e.key);
    IsSensitivePath(path) || (!CarriesPlaceholder(e.value) && Restorable(path, e.value))
  }

  lemma EntryRoundTrip(prefix: string, bes: seq<Entry>, i: nat, same: SameValue)
    requires Distinct(bes) && i < |bes|
    requires var path, v := JoinPath(prefix, bes[i].key), bes[i].value;
             v.Mapping? ==> && (Merge(path, Redact(path, v), v, same) == Ok(v) <==> Restorable(path, v))
                            && (Merge(path, Redact(path, v), v, same).Ok? ==> Merge(path, Redact(path, v), v, same).value.Mapping?)
    ensures Settle(prefix, RedactEntry(prefix, bes[i]), bes, same) == Ok(bes[i].value) <==> EntryRestorable(prefix, bes[i])
  {
    OnlyIndex(bes, i);
    var path, v := JoinPath(prefix, bes[i].key), bes[i].value;
    RedactIsIdentityIff(path, v);
    if IsSensitivePath(path) {
      assert ScalarText(Placeholder()) == Some(KEEP);
    } else if !v.Mapping? {
      assert CarriesPlaceholder(Redact(path, v)) <==> CarriesPlaceholder(v);
    }
  }

  lemma EntriesRestored(prefix: string, shown: Node, base: Node, same: SameValue)
    requires shown.Mapping? && base.Mapping? && Distinct(shown.entries) && Distinct(base.entries) && |shown.entries| == |base.entries|
    requires SensitivesPresent(prefix, shown.entries, base.entries, |base.entries|)
    requires forall j :: 0 <= j < |base.entries| ==> shown.entries[j].key == base.entries[j].key
    requires forall j :: 0 <= j < |base.entries| ==>
               (Settle(prefix, shown.entries[j], base.entries, same) == Ok(base.entries[j].value) <==> EntryRestorable(prefix, base.entries[j]))
    ensures Merge(prefix, shown, base, same) == Ok(base) <==> Restorable(prefix, base)
    ensures Merge(prefix, shown, base, same).Ok? ==> Merge(prefix, shown, base, same).value.Mapping?
  {
    MergePointwise(prefix, shown, base, same);
    var r, bes := Merge(prefix, shown, base, same), base.entries;
    if r.Ok? {
      assert r.value == base <==> r.value.entries == bes;
      assert r.value.entries == bes <==> forall j :: 0 <= j < |bes| ==> r.value.entries[j] == bes[j];
    }
  }

  // Merging the redacted base into the base gives the base back exactly when
  // it is restorable.
  lemma {:induction false} MergeOfRedact(prefix: string, base: Node, same: SameValue)
    requires UniqueKeys(base)
    ensures Merge(prefix, Redact(prefix, base), base, same) == Ok(base) <==> Restorable(prefix, base)
    ensures base.Mapping? && Merge(prefix, Redact(prefix, base), base, same).Ok?
            ==> Merge(prefix, Redact(prefix, base), base, same).value.Mapping?
    decreases base
  {
    if base.Mapping? {
      var bes, shown := base.entries, Redact(prefix, base);
      var ces := shown.entries;
      assert forall j :: 0 <= j < |bes| ==> ces[j] == RedactEntry(prefix, bes[j]) && ces[j].key == bes[j].key;
      assert SensitivesPresent(prefix, ces, bes, |bes|) by {
        forall k | 0 <= k < |bes| ensures HasKey(ces, bes[k].key) { assert ces[k].key == bes[k].key; }
      }
      forall j | 0 <= j < |bes| ensures Settle(prefix, ces[j], bes, same) == Ok(bes[j].value) <==> EntryRestorable(prefix, bes[j]) {
        MergeOfRedact(JoinPath(prefix, bes[j].key), bes[j].value, same);
        EntryRoundTrip(prefix, bes, j, same);
      }
      EntriesRestored(prefix, shown, base, same);
    } else {
      RedactIsIdentityIff(prefix, base);
    }
  }

  // The texts that stand for secrets, and what CLEAR leaves behind.
  lemma SecretForms(n: Node)
    ensures ScalarText(n) == if n.Scalar? && (n.tag == "!!str" || n.tag == "") then Some(n.text) else None
    ensures CarriesPlaceholder(n) <==> n.Scalar? && (n.tag == "!!str" || n.tag == "") && "${SECRET:" <= n.text
    ensures Placeholder() == Scalar("!!str", "${SECRET:KEEP}") && KEEP == "${SECRET:KEEP}" && CLEAR == "${SECRET:CLEAR}"
    ensures EmptyNode(n) == if n.Sequence? then Sequence([]) else Scalar("!!str", "")
  {
  }

  // --------------------------------------------------- any accepted edit

  // No sensitive field and no placeholder text, through mappings.
  predicate FreeOfSecrets(prefix: string, n: Node)
    decreases n
  {
    n.Mapping? ==> forall i :: 0 <= i < |n.entries| ==> EntryFree(prefix, n.entries[i])
  }

  predicate EntryFree(prefix: string, e: Entry)
    decreases e
  {
    var path := JoinPath(prefix, e.key);
    !IsSensitivePath(path) && !CarriesPlaceholder(e.value) && FreeOfSecrets(path, e.value)
  }

  lemma {:induction false} NoOffenceIff(prefix: string, n: Node, i: nat)
    requires n.Mapping? && i <= |n.entries|
    ensures OffenceFrom(prefix, n, i).None? <==> forall j :: i <= j < |n.entries| ==> EntryFree(prefix, n.entries[j])
    decreases n, |n.entries| - i
  {
    if i < |n.entries| {
      var path, value := JoinPath(prefix, n.entries[i].key), n.entries[i].value;
      if value.Mapping? { NoOffenceIff(path, value, 0); }
      NoOffenceIff(prefix, n, i + 1);
    }
  }

  // r is the candidate with its sensitive fields settled against the base.
  ghost predicate Settled(prefix: string, r: Node, cand: Node, base: Node, same: SameValue)
    decreases base
  {
    if !base.Mapping? then r == cand
    else
      && SensitivesPresent(prefix, Entries(cand), base.entries, |base.entries|)
      && if !cand.Mapping? then r == cand
         else && r.Mapping? && |r.entries| == |cand.entries|
              && forall j :: 0 <= j < |r.entries| ==> r.entries[j].key == cand.entries[j].key
                                                      && ValueSettled(prefix, r.entries[j].key, r.entries[j].value, cand.entries[j].value, base, same)
  }

  ghost predicate ValueSettled(prefix: string, key: string, r: Node, cand: Node, base: Node, same: SameValue)
    requires base.Mapping?
    decreases base, 0
  {
    var path := JoinPath(prefix, key);
    if IsSensitivePath(path) then
      && HasKey(base.entries, key)
      && var b := base.entries[LastIndex(base.entries, key)].value;
         if ScalarText(cand) == Some(KEEP) then r == b
         else if ScalarText(cand) == Some(CLEAR) then r == EmptyNode(b)
         else same(cand, b) && r == cand
    else
      && !CarriesPlaceholder(r)
      && (if HasKey(base.entries, key) then Settled(path, r, cand, base.entries[LastIndex(base.entries, key)].value, same)
          else r == cand && FreeOfSecrets(path, cand))
  }

  lemma ValueSettles(prefix: string, c: Entry, v: Node, base: Node, same: SameValue)
    requires base.Mapping?
    requires HasKey(base.entries, c.key) ==>
               var path, b := JoinPath(prefix, c.key), base.entries[LastIndex(base.entries, c.key)].value;
               Merge(path, c.value, b, same) == Ok(v) <==> Settled(path, v, c.value, b, same)
    ensures Settle(prefix, c, base.entries, same) == Ok(v) <==> ValueSettled(prefix, c.key, v, c.value, base, same)
  {
    var path := JoinPath(prefix, c.key);
    if c.value.Mapping? { NoOffenceIff(path, c.value, 0); }
  }

  lemma EntriesSettle(prefix: string, r: Node, cand: Node, base: Node, same: SameValue)
    requires cand.Mapping? && base.Mapping? && Distinct(cand.entries) && Distinct(base.entries)
    requires forall j, v :: 0 <= j < |cand.entries| ==>
               (Settle(prefix, cand.entries[j], base.entries, same) == Ok(v)
                <==> ValueSettled(prefix, cand.entries[j].key, v, cand.entries[j].value, base, same))
    ensures Merge(prefix, cand, base, same) == Ok(r) <==> Settled(prefix, r, cand, base, same)
  {
    MergePointwise(prefix, cand, base, same);
    var m, ces := Merge(prefix, cand, base, same), cand.entries;
    if Settled(prefix, r, cand, base, same) {
      forall j | 0 <= j < |ces| ensures Settle(prefix, ces[j], base.entries, same) == Ok(r.entries[j].value) {
        assert ValueSettled(prefix, r.entries[j].key, r.entries[j].value, ces[j].value, base, same);
      }
      assert m.value.entries == r.entries;
    }
  }

  // The merge accepts an edit with result r exactly when r is the edit with
  // the sensitive fields settled in every mapping that base and edit share:
  // the base value for KEEP, its empty form for CLEAR, the edit's own value
  // only where it equals the base; there no sensitive base field is missing
  // and none is added. Base mappings that the edit leaves out are not looked
  // at, and over a base value that is not a mapping the edit is taken over as
  // it is: see MergeKeepsFieldsIff and MergeIsCleanIff.
  lemma {:induction false} MergeSettles(prefix: string, r: Node, cand: Node, base: Node, same: SameValue)
    requires UniqueKeys(cand) && UniqueKeys(base)
    ensures Merge(prefix, cand, base, same) == Ok(r) <==> Settled(prefix, r, cand, base, same)
    decreases base
  {
    if base.Mapping? && cand.Mapping? {
      var ces, bes := cand.entries, base.entries;
      forall j, v | 0 <= j < |ces|
        ensures Settle(prefix, ces[j], bes, same) == Ok(v) <==> ValueSettled(prefix, ces[j].key, v, ces[j].value, base, same)
      {
        if HasKey(bes, ces[j].key) {
          MergeSettles(JoinPath(prefix, ces[j].key), v, ces[j].value, bes[LastIndex(bes, ces[j].key)].value, same);
        }
        ValueSettles(prefix, ces[j], v, base, same);
      }
      EntriesSettle(prefix, r, cand, base, same);
    } else if base.Mapping? {
      SharedPointwise(prefix, [], base, |base.entries|, same);
    }
  }

  lemma {:induction false} AgreesWithItself(prefix: string, n: Node)
    ensures AgreeOffSensitive(prefix, n, n)
  {
    RedactShowsExactly(prefix, n, n);
  }

  lemma {:induction false} SettledAgrees(prefix: string, r: Node, cand: Node, base: Node, same: SameValue)
    requires Settled(prefix, r, cand, base, same)
    ensures AgreeOffSensitive(prefix, r, cand)
    decreases base
  {
    if base.Mapping? && cand.Mapping? {
      forall j | 0 <= j < |r.entries| ensures EntriesAgree(prefix, r.entries[j], cand.entries[j]) {
        var key := r.entries[j].key;
        var path := JoinPath(prefix, key);
        assert ValueSettled(prefix, key, r.entries[j].value, cand.entries[j].value, base, same);
        if !IsSensitivePath(path) {
          if HasKey(base.entries, key) {
            SettledAgrees(path, r.entries[j].value, cand.entries[j].value, base.entries[LastIndex(base.entries, key)].value, same);
          } else {
            AgreesWithItself(path, r.entries[j].value);
          }
        }
      }
    } else {
      AgreesWithItself(prefix, r);
    }
  }

  // An accepted edit shows after the merge what it showed before it.
  lemma MergedShowsTheEdit(prefix: string, r: Node, cand: Node, base: Node, same: SameValue)
    requires UniqueKeys(cand) && UniqueKeys(base) && Merge(prefix, cand, base, same) == Ok(r)
    ensures Redact(prefix, r) == Redact(prefix, cand)
  {
    MergeSettles(prefix, r, cand, base, same);
    SettledAgrees(prefix, r, cand, base, same);
    RedactShowsExactly(prefix, r, cand);
  }

  // ------------------------------------- what an accepted edit can bring in

  function ChildOf(n: Node, key: string): Node {
    if HasKey(Entries(n), key) then Entries(n)[LastIndex(Entries(n), key)].value else Nothing
  }

  // No sensitive field anywhere, lists included, and no placeholder text.
  predicate Untainted(prefix: string, n: Node)
    decreases n
  {
    match n
    case Mapping(es) => forall i :: 0 <= i < |es| ==> EntryUntainted(prefix, es[i])
    case Sequence(items) => forall i :: 0 <= i < |items| ==> Untainted(prefix, items[i])
    case _ => !CarriesPlaceholder(n)
  }

  predicate EntryUntainted(prefix: string, e: Entry)
    decreases e
  {
    var path := JoinPath(prefix, e.key);
    !IsSensitivePath(path) && Untainted(path, e.value)
  }

  // Every sensitive field in a mapping has a base value at its place, and all
  // else is untainted or the base's own list or text.
  predicate Clean(prefix: string, r: Node, base: Node)
    decreases r
  {
    match r
    case Mapping(es) => forall i :: 0 <= i < |es| ==> EntryClean(prefix, es[i], base)
    case _ => r == base || Untainted(prefix, r)
  }

  predicate EntryClean(prefix: string, e: Entry, base: Node)
    decreases e
  {
    var path := JoinPath(prefix, e.key);
    if IsSensitivePath(path) then HasKey(Entries(base), e.key) else Clean(path, e.value, ChildOf(base, e.key))
  }

  // Whatever the edit puts where the base has no mapping is untainted, or the
  // base's own list or text.
  predicate NoGap(prefix: string, cand: Node, base: Node)
    decreases cand
  {
    match cand
    case Mapping(es) => if base.Mapping? then forall i :: 0 <= i < |es| ==> EntryNoGap(prefix, es[i], base) else Untainted(prefix, cand)
    case _ => cand == base || Untainted(prefix, cand)
  }

  predicate EntryNoGap(prefix: string, e: Entry, base: Node)
    decreases e
  {
    var path := JoinPath(prefix, e.key);
    IsSensitivePath(path) || NoGap(path, e.value, ChildOf(base, e.key))
  }

  lemma {:induction false} CleanOffMappings(prefix: string, r: Node, base: Node)
    requires !base.Mapping?
    ensures Clean(prefix, r, base) <==> NoGap(prefix, r, base)
    decreases r
  {
    if r.Mapping? {
      forall i | 0 <= i < |r.entries| ensures EntryClean(prefix, r.entries[i], base) <==> EntryUntainted(prefix, r.entries[i]) {
        CleanOffMappings(JoinPath(prefix, r.entries[i].key), r.entries[i].value, Nothing);
      }
    }
  }

  lemma {:induction false} SettledCleanIff(prefix: string, r: Node, cand: Node, base: Node, same: SameValue)
    requires Settled(prefix, r, cand, base, same)
    ensures Clean(prefix, r, base) <==> NoGap(prefix, cand, base)
    decreases base
  {
    if !base.Mapping? {
      CleanOffMappings(prefix, r, base);
    } else if cand.Mapping? {
      forall i | 0 <= i < |r.entries| ensures EntryClean(prefix, r.entries[i], base) <==> EntryNoGap(prefix, cand.entries[i], base) {
        var key := r.entries[i].key;
        var path := JoinPath(prefix, key);
        assert ValueSettled(prefix, key, r.entries[i].value, cand.entries[i].value, base, same);
        if !IsSensitivePath(path) {
          if HasKey(base.entries, key) {
            SettledCleanIff(path, r.entries[i].value, cand.entries[i].value, ChildOf(base, key), same);
          } else {
            CleanOffMappings(path, r.entries[i].value, Nothing);
          }
        }
      }
    }
  }

  // An accepted edit brings in no sensitive field and leaves no placeholder
  // exactly when it puts neither where the base has no mapping.
  lemma MergeIsCleanIff(prefix: string, r: Node, cand: Node, base: Node, same: SameValue)
    requires UniqueKeys(cand) && UniqueKeys(base) && Merge(prefix, cand, base, same) == Ok(r)
    ensures Clean(prefix, r, base) <==> NoGap(prefix, cand, base)
  {
    MergeSettles(prefix, r, cand, base, same);
    SettledCleanIff(prefix, r, cand, base, same);
  }

  // ------------------------------------------- what an accepted edit can lose

  // Some sensitive field lies below, by redaction's own path rule.
  predicate HasSensitive(prefix: string, n: Node)
    decreases n
  {
    match n
    case Mapping(es) => exists i :: 0 <= i < |es| && EntryHasSensitive(prefix, es[i])
    case Sequence(items) => exists i :: 0 <= i < |items| && HasSensitive(prefix, items[i])
    case _ => false
  }

  predicate EntryHasSensitive(prefix: string, e: Entry)
    decreases e
  {
    var path := JoinPath(prefix, e.key);
    IsSensitivePath(path) || HasSensitive(path, e.value)
  }

  // Every sensitive field of the base is still there: by key in mappings, and
  // a list with sensitive fields in it is unchanged.
  predicate KeepsFields(prefix: string, r: Node, base: Node)
    decreases base
  {
    match base
    case Mapping(bes) => forall i :: 0 <= i < |bes| ==> FieldKept(prefix, r, bes[i])
    case Sequence(_) => HasSensitive(prefix, base) ==> r == base
    case _ => true
  }

  predicate FieldKept(prefix: string, r: Node, b: Entry)
    decreases b
  {
    var path := JoinPath(prefix, b.key);
    if IsSensitivePath(path) then HasKey(Entries(r), b.key) else KeepsFields(path, ChildOf(r, b.key), b.value)
  }

  // The edit keeps every section of the base that has a sensitive field below
  // it, level by level, and leaves lists with such fields alone.
  predicate KeepsSections(prefix: string, cand: Node, base: Node)
    decreases base
  {
    match base
    case Mapping(bes) => forall i :: 0 <= i < |bes| ==> SectionKept(prefix, cand, bes[i])
    case Sequence(_) => HasSensitive(prefix, base) ==> cand == base
    case _ => true
  }

  predicate SectionKept(prefix: string, cand: Node, b: Entry)
    decreases b
  {
    var path := JoinPath(prefix, b.key);
    IsSensitivePath(path) || !HasSensitive(path, b.value)
    || (HasKey(Entries(cand), b.key) && KeepsSections(path, ChildOf(cand, b.key), b.value))
  }

  lemma {:induction false} NothingToKeep(prefix: string, r: Node, base: Node)
    requires !HasSensitive(prefix, base)
    ensures KeepsFields(prefix, r, base)
    decreases base
  {
    if base.Mapping? {
      forall i | 0 <= i < |base.entries| ensures FieldKept(prefix, r, base.entries[i]) {
        var b := base.entries[i];
        assert !EntryHasSensitive(prefix, b);
        NothingToKeep(JoinPath(prefix, b.key), ChildOf(r, b.key), b.value);
      }
    }
  }

  lemma {:induction false} NothingIsKept(prefix: string, base: Node)
    requires HasSensitive(prefix, base)
    ensures !KeepsFields(prefix, Nothing, base)
    decreases base
  {
    if base.Mapping? {
      var i :| 0 <= i < |base.entries| && EntryHasSensitive(prefix, base.entries[i]);
      var b := base.entries[i];
      if !IsSensitivePath(JoinPath(prefix, b.key)) { NothingIsKept(JoinPath(prefix, b.key), b.value); }
      assert !FieldKept(prefix, Nothing, b);
    }
  }

  // The value under a key of a settled mapping, on both sides.
  lemma SettledChild(prefix: string, r: Node, cand: Node, base: Node, i: nat, same: SameValue)
    requires Settled(prefix, r, cand, base, same) && base.Mapping? && Distinct(base.entries) && Distinct(Entries(cand))
    requires i < |base.entries| && !IsSensitivePath(JoinPath(prefix, base.entries[i].key))
    ensures var key := base.entries[i].key;
            && (HasKey(Entries(r), key) <==> HasKey(Entries(cand), key))
            && (HasKey(Entries(cand), key) ==>
                  Settled(JoinPath(prefix, key), ChildOf(r, key), ChildOf(cand, key), base.entries[i].value, same))
  {
    var key := base.entries[i].key;
    OnlyIndex(base.entries, i);
    if cand.Mapping? {
      assert forall j :: 0 <= j < |r.entries| ==> r.entries[j].key == cand.entries[j].key;
      if HasKey(cand.entries, key) {
        var j := LastIndex(cand.entries, key);
        OnlyIndex(cand.entries, j);
        OnlyIndex(r.entries, j);
        assert ValueSettled(prefix, key, r.entries[j].value, cand.entries[j].value, base, same);
      }
    }
  }

  lemma {:induction false} SettledKeepsIff(prefix: string, r: Node, cand: Node, base: Node, same: SameValue)
    requires Settled(prefix, r, cand, base, same) && UniqueKeys(cand) && UniqueKeys(base)
    ensures KeepsFields(prefix, r, base) <==> KeepsSections(prefix, cand, base)
    decreases base
  {
    if base.Mapping? {
      forall i | 0 <= i < |base.entries| ensures FieldKept(prefix, r, base.entries[i]) <==> SectionKept(prefix, cand, base.entries[i]) {
        SettledEntryKeeps(prefix, r, cand, base, i, same);
      }
    }
  }

  lemma {:induction false} SettledEntryKeeps(prefix: string, r: Node, cand: Node, base: Node, i: nat, same: SameValue)
    requires Settled(prefix, r, cand, base, same) && UniqueKeys(cand) && UniqueKeys(base) && base.Mapping? && i < |base.entries|
    ensures FieldKept(prefix, r, base.entries[i]) <==> SectionKept(prefix, cand, base.entries[i])
    decreases base, 0
  {
    var key, value := base.entries[i].key, base.entries[i].value;
    var path := JoinPath(prefix, key);
    if IsSensitivePath(path) {
      SameKeys(prefix, r, cand, base, key, same);
    } else {
      SettledChild(prefix, r, cand, base, i, same);
      if !HasSensitive(path, value) {
        NothingToKeep(path, ChildOf(r, key), value);
      } else if HasKey(Entries(cand), key) {
        SettledKeepsIff(path, ChildOf(r, key), ChildOf(cand, key), value, same);
      } else {
        NothingIsKept(path, value);
      }
    }
  }

  lemma SameKeys(prefix: string, r: Node, cand: Node, base: Node, key: string, same: SameValue)
    requires Settled(prefix, r, cand, base, same)
    ensures HasKey(Entries(r), key) <==> HasKey(Entries(cand), key)
  {
    if base.Mapping? && cand.Mapping? {
      assert forall j :: 0 <= j < |r.entries| ==> r.entries[j].key == cand.entries[j].key;
    }
  }

  // An accepted edit still has every sensitive field of the base exactly when
  // it keeps every section with one below it.
  lemma MergeKeepsFieldsIff(prefix: string, r: Node, cand: Node, base: Node, same: SameValue)
    requires UniqueKeys(cand) && UniqueKeys(base) && Merge(prefix, cand, base, same) == Ok(r)
    ensures KeepsFields(prefix, r, base) <==> KeepsSections(prefix, cand, base)
  {
    MergeSettles(prefix, r, cand, base, same);
    SettledKeepsIff(prefix, r, cand, base, same);
  }

  // -------------------------------------------------------- failing inputs

  // A document with one section that holds one value.
  function OneSection(section: string, value: Node): Node {
    Mapping([Entry(section, value)])
  }

  lemma OneSectionUnique(section: string, value: Node)
    requires UniqueKeys(value)
    ensures UniqueKeys(OneSection(section, value))
  {
  }

  const NULL_POW := OneSection("pow", Scalar("!!null", "null"))

  // Over an empty `pow:` the merge accepts any text as the salt, a literal as
  // well as a placeholder, which then stays in place as the salt.
  lemma NullSectionLetsAnythingIn(text: string, same: SameValue)
    ensures var cand := OneSection("pow", OneSection("public_salt", Scalar("!!str", text)));
            && IsSensitivePath(JoinPath("pow", "public_salt"))
            && Merge("", cand, NULL_POW, same) == Ok(cand)
            && !Clean("", cand, NULL_POW)
  {
    var salt := OneSection("public_salt", Scalar("!!str", text));
    var cand := OneSection("pow", salt);
    PublicSaltIsSensitive();
    OneSectionUnique("public_salt", Scalar("!!str", text));
    OneSectionUnique("pow", salt);
    OneSectionUnique("pow", Scalar("!!null", "null"));
    OnlyIndex(NULL_POW.entries, 0);
    assert Settled("pow", salt, salt, Scalar("!!null", "null"), same);
    assert ValueSettled("", "pow", salt, salt, NULL_POW, same);
    MergeSettles("", cand, cand, NULL_POW, same);
    assert !EntryUntainted("pow", salt.entries[0]);
    assert !NoGap("", cand, NULL_POW) by { assert !EntryNoGap("", cand.entries[0], NULL_POW); }
    MergeIsCleanIff("", cand, cand, NULL_POW, same);
  }

  // An edit that leaves a whole section out is accepted and loses the salt.
  lemma LeavingASectionOutLosesIt(salt: Node, same: SameValue)
    requires UniqueKeys(salt)
    ensures var base := OneSection("pow", OneSection("public_salt", salt));
            Merge("", Mapping([]), base, same) == Ok(Mapping([])) && !KeepsFields("", Mapping([]), base)
  {
    var section := OneSection("public_salt", salt);
    var base, edit := OneSection("pow", section), Mapping([]);
    PublicSaltIsSensitive();
    OneSectionUnique("public_salt", salt);
    OneSectionUnique("pow", section);
    assert Settled("", edit, edit, base, same);
    MergeSettles("", edit, edit, base, same);
    assert EntryHasSensitive("pow", section.entries[0]);
    assert HasSensitive("pow", section);
    assert !KeepsSections("", edit, base) by { assert !SectionKept("", edit, base.entries[0]); }
    MergeKeepsFieldsIff("", edit, edit, base, same);
  }

  // A list is taken over as it is: a placeholder in it stays in place.
  lemma ListKeepsPlaceholder(same: SameValue)
    ensures var cand, base := OneSection("x", Sequence([Placeholder()])), OneSection("x", Sequence([]));
            Merge("", cand, base, same) == Ok(cand) && !Clean("", cand, base)
  {
    var list, empty := Sequence([Placeholder()]), Sequence([]);
    var cand, base := OneSection("x", list), OneSection("x", empty);
    assert !IsSensitivePath("x") by { assert |Lower("x")| == 1; }
    OneSectionUnique("x", list);
    OneSectionUnique("x", empty);
    OnlyIndex(base.entries, 0);
    assert ValueSettled("", "x", list, list, base, same);
    MergeSettles("", cand, cand, base, same);
    assert ScalarText(Placeholder()) == Some(KEEP) && CarriesPlaceholder(Placeholder());
    assert !Untainted("x", list) by { assert !Untainted("x", list.items[0]); }
    assert !NoGap("", cand, base) by { assert !EntryNoGap("", cand.entries[0], base); }
    MergeIsCleanIff("", cand, cand, base, same);
  }

  // A list with a salt in it, under `pow`.
  function SaltList(text: string): Node {
    Sequence([OneSection("public_salt", Scalar("!!str", text))])
  }

  lemma SaltListIsTainted(text: string)
    ensures !Untainted("pow", SaltList(text))
    ensures NothingToRedact("pow", SaltList(text)) ==> text == KEEP
  {
    var item := OneSection("public_salt", Scalar("!!str", text));
    PublicSaltIsSensitive();
    assert SaltList(text).items[0] == item;
    assert !EntryUntainted("pow", item.entries[0]);
    if NothingToRedact("pow", SaltList(text)) {
      assert NothingToRedact("pow", SaltList(text).items[0]);
      assert EntryUntouched("pow", item.entries[0]);
    }
  }

  lemma SaltListIsAccepted(text: string, same: SameValue)
    ensures var cand := OneSection("pow", SaltList(text));
            UniqueKeys(cand) && Merge("", cand, Mapping([]), same) == Ok(cand)
  {
    var list, base := SaltList(text), Mapping([]);
    var cand := OneSection("pow", list);
    PublicSaltIsSensitive();
    OneSectionUnique("pow", list);
    assert Settled("", cand, cand, base, same) by { assert ValueSettled("", "pow", list, list, base, same); }
    MergeSettles("", cand, cand, base, same);
  }

  // And a sensitive field can be introduced inside one.
  lemma ListLetsSaltIn(text: string, same: SameValue)
    ensures var cand := OneSection("pow", SaltList(text));
            && Merge("", cand, Mapping([]), same) == Ok(cand) && !Clean("", cand, Mapping([]))
            && (text != KEEP ==> Redact("", cand) != cand)
  {
    var cand := OneSection("pow", SaltList(text));
    SaltListIsRedacted(text);
    SaltListIsAccepted(text, same);
    SaltListLeavesAGap(text);
    MergeIsCleanIff("", cand, cand, Mapping([]), same);
  }

  lemma SaltListLeavesAGap(text: string)
    ensures !NoGap("", OneSection("pow", SaltList(text)), Mapping([]))
  {
    PublicSaltIsSensitive();
    SaltListIsTainted(text);
    assert !EntryNoGap("", OneSection("pow", SaltList(text)).entries[0], Mapping([]));
  }

  lemma SaltListIsRedacted(text: string)
    ensures text != KEEP ==> Redact("", OneSection("pow", SaltList(text))) != OneSection("pow", SaltList(text))
  {
    var cand := OneSection("pow", SaltList(text));
    PublicSaltIsSensitive();
    SaltListIsTainted(text);
    RedactIsIdentityIff("", cand);
    assert NothingToRedact("", cand) ==> EntryUntouched("", cand.entries[0]);
  }

  // A salt listed under `pow` as a sequence item is hidden by redaction and
  // not put back by the merge.
  lemma SequencesAreNotRestored(salt: string, same: SameValue)
    requires salt != KEEP
    ensures var base := OneSection("pow", Sequence([OneSection("public_salt", Scalar("!!str", salt))]));
            && Merge("", Redact("", base), base, same) != Ok(base)
            && Redact("", base) == OneSection("pow", Sequence([OneSection("public_salt", Placeholder())]))
  {
    var item := OneSection("public_salt", Scalar("!!str", salt));
    var list := Sequence([item]);
    var base := OneSection("pow", list);
    PublicSaltIsSensitive();
    OneSectionUnique("pow", list);
    assert Redact("pow", item).entries == [Entry("public_salt", Placeholder())];
    assert Redact("pow", list).items == [OneSection("public_salt", Placeholder())];
    assert Redact("", base).entries == [Entry("pow", Redact("pow", list))];
    assert !EntryUntouched("pow", item.entries[0]);
    assert !NothingToRedact("pow", item);
    assert !NothingToRedact("pow", list) by { assert list.items[0] == item; }
    assert !EntryRestorable("", base.entries[0]);
    MergeOfRedact("", base, same);
  }
}
