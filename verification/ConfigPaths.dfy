// Dotted configuration paths (internal/configctl/secret.go): how they are
// built from mapping keys, read back, and recognised as sensitive.
module ConfigPaths {
  import opened Prelude

  const SENSITIVE_CONFIG_PATHS: set<string> := {
    "pow.public_salt", "pow.allowed_previous_salts", "storage.postgres.dsn", "storage.redis.password",
    "logging.log_salt"
  }

  predicate IsSensitivePath(path: string) {
    Lower(path) in SENSITIVE_CONFIG_PATHS
  }

  function JoinPath(prefix: string, key: string): string {
    if prefix == "" then key else prefix + "." + key
  }

  // The path reached by descending through these keys from the root.
  function PathOf(keys: seq<string>): string {
    if keys == [] then "" else JoinPath(PathOf(keys[..|keys| - 1]), keys[|keys| - 1])
  }

  // ---------------------------------------------------------- reading back

  predicate PlainKey(key: string) {
    key != "" && '.' !in key
  }

  function SplitDots(s: string): seq<string>
    decreases |s|
  {
    var i := IndexOf(s, '.');
    if i == |s| then [s] else [s[..i]] + SplitDots(s[i + 1..])
  }

  function KeysOf(path: string): seq<string> {
    if path == "" then [] else SplitDots(path)
  }

  lemma SplitDotsCons(head: string, rest: string)
    requires '.' !in head
    ensures SplitDots(head + ['.'] + rest) == [head] + SplitDots(rest)
  {
    var t := head + ['.'] + rest;
    IndexOfSeparator(head, '.', rest);
    assert t[..|head|] == head && t[|head| + 1..] == rest;
  }

  lemma DottedAssociates(head: string, rest: string, key: string)
    ensures (head + ['.'] + rest) + ['.'] + key == head + ['.'] + (rest + ['.'] + key)
  {
  }

  lemma {:induction false} SplitDotsSnoc(s: string, key: string)
    requires '.' !in key
    ensures SplitDots(s + ['.'] + key) == SplitDots(s) + [key]
    decreases |s|
  {
    var i := IndexOf(s, '.');
    var head, rest := s[..i], s[if i < |s| then i + 1 else i..];
    if i == |s| {
      assert head == s;
      SplitDotsCons(s, key);
      assert SplitDots(key) == [key];
    } else {
      assert s == head + ['.'] + rest;
      DottedAssociates(head, rest, key);
      SplitDotsSnoc(rest, key);
      SplitDotsCons(head, rest + ['.'] + key);
    }
  }

  // Descending through plain keys and splitting the path undo each other, so
  // such a path names one position in a tree.
  lemma {:induction false} KeysOfPathOf(keys: seq<string>)
    requires forall i :: 0 <= i < |keys| ==> PlainKey(keys[i])
    ensures KeysOf(PathOf(keys)) == keys
    ensures keys != [] ==> PathOf(keys) != ""
  {
    if keys != [] {
      var init, last := keys[..|keys| - 1], keys[|keys| - 1];
      KeysOfPathOf(init);
      assert PlainKey(last) && keys == init + [last];
      if init == [] {
        assert SplitDots(last) == [last];
      } else {
        SplitDotsSnoc(PathOf(init), last);
      }
    }
  }

  lemma PublicSaltIsSensitive()
    ensures JoinPath("pow", "public_salt") == "pow.public_salt"
    ensures IsSensitivePath("pow.public_salt") && !IsSensitivePath("pow")
  {
    assert Lower("pow.public_salt") == "pow.public_salt";
    assert Lower("pow") == "pow";
    assert forall s :: s in SENSITIVE_CONFIG_PATHS ==> |s| > 3;
  }
}
