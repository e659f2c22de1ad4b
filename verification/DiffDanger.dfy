// How dangerous the changes of a diff are rated: by the numbers under a path
// that mentions difficulty, and by the path alone
// (internal/configctl/manager.go).
module DiffDanger {
  import opened Prelude
  import opened ConfigPaths
  import opened Diff
  import opened DiffProps

  // ------------------------------------------------------- lowered numbers

  // Lowering any number under a path that mentions "difficulty" is critical;
  // with the contract of Diff, so is then the whole plan.
  lemma LoweringDifficultyIsCritical(a: Value, b: Value, q: seq<string>)
    requires MappingsAbove(a, q) && MappingsAbove(b, q)
    requires NumericValue(At(a, q)).Some? && NumericValue(At(b, q)).Some?
    requires NumericValue(At(b, q)).value < NumericValue(At(a, q)).value
    requires Contains(Lower(PathOf(q)), "difficulty")
    ensures PartAt(a, b, q) && ChangeAt(a, b, q).danger == Critical
  {
    DifferentValuesPart(a, b, q);
    NotSensitive(PathOf(q));
    var before, after := At(a, q), At(b, q);
    assert ClassifyChange(PathOf(q), before, after) == Critical;
  }

  lemma ContainsItsLetters(s: string, part: string, j: nat)
    requires Contains(s, part) && j < |part|
    ensures part[j] in s
  {
    var i :| 0 <= i <= |s| && part <= s[i..];
    assert s[i + j] == s[i..][j] == part[j];
  }

  lemma SensitiveHasNoF(path: string)
    requires IsSensitivePath(path)
    ensures 'f' !in Lower(path)
  {
    SensitiveNames(Lower(path), Lower(path));
  }

  lemma NotSensitive(path: string)
    requires Contains(Lower(path), "difficulty")
    ensures !IsSensitivePath(path)
  {
    var part := "difficulty";
    assert part[2] == 'f';
    ContainsItsLetters(Lower(path), part, 2);
    if IsSensitivePath(path) { SensitiveHasNoF(path); }
  }

  lemma {:induction false} DifferentValuesPart(a: Value, b: Value, q: seq<string>)
    requires MappingsAbove(a, q) && MappingsAbove(b, q)
    requires At(a, q) != At(b, q) && !BothMappings(At(a, q), At(b, q))
    ensures PartAt(a, b, q)
    decreases |q|
  {
    if q != [] { DifferentValuesPart(Child(a, q[0]), Child(b, q[0]), q[1..]); }
  }

  // Integers up to 2^53 are compared exactly.
  lemma SmallIntegersAreExact(n: int)
    requires -EXACT_INTEGERS <= n <= EXACT_INTEGERS
    ensures NumericValue(Scalar(Int(n))) == Some(n as real)
  {
    assert Spacing(EXACT_INTEGERS / 2) == 1;
    assert Spacing(EXACT_INTEGERS) == 2;
  }

  // Beyond that a decrease can vanish in the rounding.
  lemma RoundingHidesADecrease()
    ensures NumericValue(Scalar(Int(EXACT_INTEGERS + 1))) == NumericValue(Scalar(Int(EXACT_INTEGERS)))
  {
    assert Spacing((EXACT_INTEGERS + 1) / 2) == 1;
    assert Spacing(EXACT_INTEGERS + 1) == 2 == Spacing(EXACT_INTEGERS);
  }

  // --------------------------------------------------- changes, field by field

  // What is reported at a position where the trees part.
  lemma ReportedFields(a: Value, b: Value, q: seq<string>)
    ensures var c, lower := ChangeAt(a, b, q), Lower(PathOf(q));
            var secret := || lower == "pow.public_salt" || lower == "pow.allowed_previous_salts" || lower == "storage.postgres.dsn"
                          || lower == "storage.redis.password" || lower == "logging.log_salt";
            && c.path == PathOf(q) && (c.sensitive <==> secret) && c.restartRequired
            && c.before == (if secret then Null else At(a, q)) && c.after == (if secret then Null else At(b, q))
            && (c.kind.Removed? <==> At(b, q).Null?) && (c.kind.Added? <==> At(a, q).Null? && !At(b, q).Null?)
  {
  }

  lemma EndsWith(prefix: string, word: string)
    ensures Contains(prefix + word, word) && HasSuffix(prefix + word, word)
  {
    assert (prefix + word)[|prefix|..] == word;
  }

  // The settings that switch a protection off are critical wherever they sit.
  lemma SwitchesAreCritical(path: string, prefix: string, word: string, before: Value, after: Value)
    requires word in {"bypass_all", "allow_empty_salt", "pow.enabled", "risk_control.enabled"} && Lower(path) == prefix + word
    ensures ClassifyChange(path, before, after) == Critical
  {
    EndsWith(prefix, word);
  }

  // Other switches, exclusions, path protection and secrets are dangerous at
  // least.
  lemma SettingsAreDangerous(path: string, prefix: string, word: string, rest: string, before: Value, after: Value)
    requires || (word in {"enabled", "excluded"} && Lower(path) == prefix + word + rest)
             || Lower(path) == "protection." + rest
             || Lower(path) in {"pow.public_salt", "pow.allowed_previous_salts", "storage.postgres.dsn", "storage.redis.password",
                                "logging.log_salt"}
    ensures ClassifyChange(path, before, after) in {Dangerous, Critical}
  {
    if Lower(path) == prefix + word + rest {
      assert (prefix + word + rest)[|prefix|..][..|word|] == word;
    }
  }

  // Changing such a switch inside its section is reported as critical, and
  // so is then the plan.
  lemma SwitchingIsCritical(a: Value, b: Value, q: seq<string>, prefix: string, word: string)
    requires word in {"bypass_all", "allow_empty_salt", "pow.enabled", "risk_control.enabled"} && Lower(PathOf(q)) == prefix + word
    requires MappingsAbove(a, q) && MappingsAbove(b, q) && At(a, q) != At(b, q) && !BothMappings(At(a, q), At(b, q))
    ensures PartAt(a, b, q) && ChangeAt(a, b, q).danger == Critical
  {
    DifferentValuesPart(a, b, q);
    SwitchesAreCritical(PathOf(q), prefix, word, ChangeAt(a, b, q).before, ChangeAt(a, b, q).after);
  }

  // ------------------------------------------------- dangerous by their path

  // Rated at least dangerous whatever the values.
  predicate Watched(path: string) {
    DangerRank(ClassifyChange(path, Null, Null)) >= 2
  }

  // Some reported change at or above this position is at least dangerous.
  ghost predicate RatedDangerous(a: Value, b: Value, q: seq<string>) {
    exists c :: Reported(a, b, c) && KeysOf(c.path) <= q && DangerRank(c.danger) >= 2
  }

  lemma WatchedIsRated(path: string, before: Value, after: Value)
    ensures Watched(path) ==> DangerRank(ClassifyChange(path, before, after)) >= 2
    ensures !Watched(path) && DangerRank(ClassifyChange(path, before, after)) >= 2 ==> before.Scalar? && after.Scalar?
  {
  }

  lemma NothingBelowScalars(a: Value, b: Value, p: seq<string>, q: seq<string>)
    requires p < q && At(a, p).Scalar? && At(b, p).Scalar?
    ensures At(a, q) == At(b, q) == Null
  {
    var rest := q[|p|..];
    assert q == p + rest;
    AtBelow(a, p, rest);
    AtBelow(b, p, rest);
    NothingBelowNull(rest[1..]);
  }

  // A change at a watched position, with no watched path above it, is rated
  // at least dangerous exactly when its section is there on both sides: a
  // section that comes or goes as a whole is rated by its own name.
  lemma WatchedChangeIsDangerousIff(a: Value, b: Value, q: seq<string>)
    requires PlainTree(a) && PlainTree(b) && Watched(PathOf(q)) && forall p :: p < q ==> !Watched(PathOf(p))
    requires At(a, q) != At(b, q) && !BothMappings(At(a, q), At(b, q))
    ensures RatedDangerous(a, b, q) <==> MappingsAbove(a, q) && MappingsAbove(b, q)
  {
    if MappingsAbove(a, q) && MappingsAbove(b, q) {
      DifferentValuesPart(a, b, q);
      PartingKeysArePlain(a, b, q);
      KeysOfPathOf(q);
      var c := ChangeAt(a, b, q);
      WatchedIsRated(c.path, c.before, c.after);
      assert Reported(a, b, c) && KeysOf(c.path) <= q;
    } else if RatedDangerous(a, b, q) {
      var c :| Reported(a, b, c) && KeysOf(c.path) <= q && DangerRank(c.danger) >= 2;
      RatedAtPosition(a, b, q, c);
    }
  }

  lemma RatedAtPosition(a: Value, b: Value, q: seq<string>, c: DiffChange)
    requires PlainTree(a) && PlainTree(b) && forall p :: p < q ==> !Watched(PathOf(p))
    requires At(a, q) != At(b, q) && Reported(a, b, c) && KeysOf(c.path) <= q && DangerRank(c.danger) >= 2
    ensures MappingsAbove(a, q) && MappingsAbove(b, q)
  {
    var p :| PartAt(a, b, p) && c == ChangeAt(a, b, p);
    assert KeysOf(c.path) == p by {
      PartingKeysArePlain(a, b, p);
      KeysOfPathOf(p);
    }
    if p == q {
      PartBelow(a, b, p, []);
      assert p + [] == p;
    } else {
      UnwatchedIsNumeric(a, b, p);
      NothingBelowScalars(a, b, p, q);
    }
  }

  lemma UnwatchedIsNumeric(a: Value, b: Value, p: seq<string>)
    requires !Watched(PathOf(p)) && DangerRank(ChangeAt(a, b, p).danger) >= 2
    ensures At(a, p).Scalar? && At(b, p).Scalar?
  {
    var c := ChangeAt(a, b, p);
    WatchedIsRated(c.path, c.before, c.after);
  }

  // A new section that switches protection off is a normal change.
  lemma BypassSectionIsNormal()
    ensures var a, b := Mapping(map[]), OneKey("pow", OneKey("bypass_all", Scalar(Flag(true))));
            forall c :: Reported(a, b, c) ==> c.path == "pow" && c.danger == Normal
  {
    var a, b := Mapping(map[]), OneKey("pow", OneKey("bypass_all", Scalar(Flag(true))));
    forall c | Reported(a, b, c) ensures c.path == "pow" && c.danger == Normal {
      var p :| PartAt(a, b, p) && c == ChangeAt(a, b, p);
      OnlyPowParts(b, p);
      PowIsNormal();
    }
  }

  lemma OnlyPowParts(b: Value, p: seq<string>)
    requires b.Mapping? && b.entries.Keys == {"pow"} && PartAt(Mapping(map[]), b, p)
    ensures p == ["pow"] && PathOf(p) == "pow"
  {
    var k, rest := p[0], p[1..];
    assert Child(Mapping(map[]), k) == Null;
    assert rest == [];
    assert k == "pow";
    assert p == ["pow"] && p[..0] == [];
  }

  lemma LongerIsNotContained(s: string, part: string)
    requires |part| > |s|
    ensures !Contains(s, part) && !HasSuffix(s, part) && !HasPrefix(s, part)
  {
  }

  lemma ShortIsNotSensitive(path: string)
    requires |path| < 7
    ensures !IsSensitivePath(path)
  {
    assert forall s :: s in SENSITIVE_CONFIG_PATHS ==> |s| > 7;
  }

  lemma ShortPathIsNormal(path: string, before: Value, after: Value)
    requires |path| < 7
    ensures ClassifyChange(path, before, after) == Normal
  {
    var lower := Lower(path);
    ShortIsNotSensitive(path);
    LongerIsNotContained(lower, "bypass_all");
    LongerIsNotContained(lower, "pow.enabled");
    LongerIsNotContained(lower, "risk_control.enabled");
    LongerIsNotContained(lower, "allow_empty_salt");
    LongerIsNotContained(lower, "difficulty");
    LongerIsNotContained(lower, "enabled");
    LongerIsNotContained(lower, "excluded");
    LongerIsNotContained(lower, "protection.");
  }

  lemma PowIsNormal()
    ensures forall before, after :: ClassifyChange("pow", before, after) == Normal
    ensures !IsSensitivePath("pow")
  {
    forall before, after ensures ClassifyChange("pow", before, after) == Normal { ShortPathIsNormal("pow", before, after); }
    PublicSaltIsSensitive();
  }
}
