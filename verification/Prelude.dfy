// Shared vocabulary: optional values and the few string operations that the
// modelled code relies on. A Go string is a sequence of bytes; here it is a
// Dafny `string` whose characters stand for those bytes.
module Prelude {

  datatype Option<+T> = None | Some(value: T)

  datatype Result<+T, +E> = Ok(value: T) | Err(error: E)

  function UpperChar(c: char): char {
    if 'a' <= c <= 'z' then (c as int - 'a' as int + 'A' as int) as char else c
  }

  function LowerChar(c: char): char {
    if 'A' <= c <= 'Z' then (c as int - 'A' as int + 'a' as int) as char else c
  }

  // strings.ToUpper and strings.ToLower on ASCII text.
  function Upper(s: string): string {
    seq(|s|, i requires 0 <= i < |s| => UpperChar(s[i]))
  }

  function Lower(s: string): string {
    seq(|s|, i requires 0 <= i < |s| => LowerChar(s[i]))
  }

  predicate HasPrefix(s: string, prefix: string) {
    prefix <= s
  }

  // Index of the first c in s, or |s|.
  function IndexOf(s: string, c: char): (i: nat)
    ensures i <= |s| && c !in s[..i] && (i < |s| ==> s[i] == c)
  {
    if s == [] || s[0] == c then 0
    else
      var i := IndexOf(s[1..], c);
      assert s[..i + 1] == [s[0]] + s[1..][..i];
      i + 1
  }

  // Start of what follows the last c in s.
  function AfterLast(s: string, c: char): (i: nat)
    ensures i <= |s| && c !in s[i..] && (i > 0 ==> s[i - 1] == c)
  {
    if s == [] || s[|s| - 1] == c then |s|
    else
      var i := AfterLast(s[..|s| - 1], c);
      assert s[i..] == s[..|s| - 1][i..] + [s[|s| - 1]];
      i
  }

  lemma {:induction false} IndexOfSeparator(a: string, c: char, rest: string)
    requires c !in a
    ensures IndexOf(a + [c] + rest, c) == |a|
  {
    if a == [] {
      assert a + [c] + rest == [c] + rest;
    } else {
      assert (a + [c] + rest)[1..] == a[1..] + [c] + rest;
      IndexOfSeparator(a[1..], c, rest);
    }
  }

  lemma {:induction false} AfterLastSeparator(head: string, c: char, line: string)
    requires head == [] || head[|head| - 1] == c
    requires c !in line
    ensures AfterLast(head + line, c) == |head|
  {
    if line == [] {
      assert head + line == head;
    } else {
      assert (head + line)[..|head + line| - 1] == head + line[..|line| - 1];
      AfterLastSeparator(head, c, line[..|line| - 1]);
    }
  }

  lemma SplitAt(a: string, b: string)
    ensures (a + b)[..|a|] == a && (a + b)[|a|..] == b
  {
  }
}
