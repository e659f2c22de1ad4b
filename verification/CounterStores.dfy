// Fixed-window counters (internal/storage/memory/counter.go): buckets keyed
// by name, key and window start, created on demand and swept when stale, are
// a plain count over the log of increments.
module CounterStores {
  import opened Prelude
  import Decimal

  const INT64_MIN := -0x8000_0000_0000_0000
  const INT64_MAX := 0x7FFF_FFFF_FFFF_FFFF

  type int64 = x: int | INT64_MIN <= x <= INT64_MAX

  // UnixNano after 1970.
  type Instant = x: int | 0 < x <= INT64_MAX witness 1

  // ------------------------------------------------------------------ itoa

  function Pow10(k: nat): nat {
    if k == 0 then 1 else 10 * Pow10(k - 1)
  }

  lemma {:induction false} DigitsLength(n: nat, k: nat)
    requires n < Pow10(k) && k > 0
    ensures |Decimal.Digits(n)| <= k
  {
    if n >= 10 { DigitsLength(n / 10, k - 1); }
  }

  lemma Nineteen()
    ensures INT64_MAX < Pow10(19)
  {
    assert Pow10(5) == 10 * Pow10(4) == 100 * Pow10(3) == 1000 * Pow10(2) == 10000 * Pow10(1) == 100000;
    assert Pow10(10) == 10 * Pow10(9) == 100 * Pow10(8) == 1000 * Pow10(7) == 10000 * Pow10(6) == 100000 * Pow10(5);
    assert Pow10(15) == 10 * Pow10(14) == 100 * Pow10(13) == 1000 * Pow10(12) == 10000 * Pow10(11) == 100000 * Pow10(10);
    assert Pow10(19) == 10 * Pow10(18) == 100 * Pow10(17) == 1000 * Pow10(16) == 10000 * Pow10(15);
  }

  // Two's-complement negation.
  function Negate(n: int64): int64 {
    if n == INT64_MIN then n else -n
  }

  // The decimal text for every 64-bit integer but the smallest, whose
  // negation wraps around and prints as a bare sign. Twenty bytes suffice.
  method Itoa(n: int64) returns (s: string)
    ensures s == Decimal.Format(n) <==> n != INT64_MIN
    ensures n == INT64_MIN ==> s == "-"
  {
    if n == 0 { return "0"; }
    var neg, m := false, n as int;
    if m < 0 {
      neg := true;
      m := Negate(n);
    }
    var buf := new char[20];
    var i := FillDigits(buf, m);
    if neg {
      ghost var tail := buf[i..];
      i := i - 1;
      buf[i] := '-';
      assert buf[i..] == "-" + tail;
    }
    if n == INT64_MIN { MinimumHasDigits(); }
    return buf[i..];
  }

  // Writes the digits of m at the end of the buffer, leaving room for a sign.
  method FillDigits(buf: array<char>, m: int) returns (i: nat)
    requires buf.Length == 20 && m <= INT64_MAX
    modifies buf
    ensures 1 <= i <= 20 && buf[i..] == DigitsOrNone(m)
  {
    var rest := m;
    i := buf.Length;
    Nineteen();
    if m > 0 { DigitsLength(m, 19); }
    while rest > 0
      invariant 1 <= i <= 20
      invariant DigitsOrNone(m) == DigitsOrNone(rest) + buf[i..]
      decreases rest
    {
      i := i - 1;
      ghost var tail := buf[i + 1..];
      buf[i] := Decimal.Digit(rest % 10);
      assert buf[i..] == [Decimal.Digit(rest % 10)] + tail;
      OneDigit(rest, tail);
      rest := rest / 10;
    }
  }

  lemma OneDigit(rest: int, tail: string)
    requires rest > 0
    ensures DigitsOrNone(rest) + tail == DigitsOrNone(rest / 10) + ([Decimal.Digit(rest % 10)] + tail)
  {
    assert DigitsOrNone(rest) == DigitsOrNone(rest / 10) + [Decimal.Digit(rest % 10)];
  }

  ghost function DigitsOrNone(m: int): string {
    if m > 0 then Decimal.Digits(m) else ""
  }

  lemma MinimumHasDigits()
    ensures Decimal.Format(INT64_MIN) != "-"
  {
    assert |Decimal.Digits(-INT64_MIN)| > 0;
    assert |Decimal.Format(INT64_MIN)| == 1 + |Decimal.Digits(-INT64_MIN)|;
  }

  // ------------------------------------------------------------ bucket keys

  function WindowStart(window: int, t: Instant): (start: int)
    requires window > 0
    ensures 0 <= start <= t < start + window
  {
    t / window * window
  }

  function KeyAt(name: string, key: string, start: int): string {
    name + "|" + key + "|" + Decimal.Format(start)
  }

  function BucketKey(name: string, key: string, window: int, t: Instant): string
    requires window > 0
  {
    KeyAt(name, key, WindowStart(window, t))
  }

  lemma LastPart(x: string, a: string)
    requires '|' !in a
    ensures var s := x + "|" + a; AfterLast(s, '|') == |x| + 1 && s[AfterLast(s, '|')..] == a && s[..AfterLast(s, '|')] == x + "|"
  {
    AfterLastSeparator(x + "|", '|', a);
    SplitAt(x + "|", a);
  }

  // Neither name can be read as the other one and the beginning of a key.
  predicate Apart(name: string, name': string) {
    name == name' || (!(name + "|" <= name' + "|") && !(name' + "|" <= name + "|"))
  }

  lemma ShorterNameIsPrefix(a: string, x: string, b: string, y: string)
    requires a + "|" + x == b + "|" + y && |a| <= |b|
    ensures if |a| == |b| then a == b && x == y else a + "|" <= b + "|"
  {
    var s := a + "|" + x;
    assert s[..|a|] == a && s[..|a| + 1] == a + "|" && s[|a| + 1..] == x;
    assert s[..|b|] == b && s[|b| + 1..] == y;
    if |a| < |b| { assert b[..|a| + 1] == a + "|"; }
  }

  // For names that are apart, bucket keys never collide, whatever the keys
  // (an address, a path, both) contain.
  lemma BucketKeysAreInjective(name: string, key: string, start: int, name': string, key': string, start': int)
    requires Apart(name, name')
    requires KeyAt(name, key, start) == KeyAt(name', key', start')
    ensures name == name' && key == key' && start == start'
  {
    SameHead(name, key, start, name', key', start');
    if |name| <= |name'| {
      ShorterNameIsPrefix(name, key, name', key');
    } else {
      ShorterNameIsPrefix(name', key', name, key);
    }
  }

  lemma SameHead(name: string, key: string, start: int, name': string, key': string, start': int)
    requires KeyAt(name, key, start) == KeyAt(name', key', start')
    ensures name + "|" + key == name' + "|" + key' && start == start'
  {
    var n, n' := Decimal.Format(start), Decimal.Format(start');
    assert KeyAt(name, key, start) == (name + "|" + key) + "|" + n;
    assert KeyAt(name', key', start') == (name' + "|" + key') + "|" + n';
    LastPart(name + "|" + key, n);
    LastPart(name' + "|" + key', n');
    assert (name + "|" + key + "|")[..|name + "|" + key|] == name + "|" + key;
    assert (name' + "|" + key' + "|")[..|name' + "|" + key'|] == name' + "|" + key';
    Decimal.ParseOfFormat(start);
    Decimal.ParseOfFormat(start');
  }

  // Names that are not apart share a bucket key at every instant.
  lemma Collision(name: string, name': string) returns (key: string, key': string)
    requires !Apart(name, name')
    ensures forall start :: KeyAt(name, key, start) == KeyAt(name', key', start)
  {
    if name + "|" <= name' + "|" {
      LongerName(name, name');
      key, key' := name'[|name| + 1..] + "|", "";
    } else {
      LongerName(name', name);
      key, key' := "", name[|name'| + 1..] + "|";
    }
  }

  lemma LongerName(name: string, name': string)
    requires name != name' && name + "|" <= name' + "|"
    ensures |name| < |name'|
    ensures forall start :: KeyAt(name, name'[|name| + 1..] + "|", start) == KeyAt(name', "", start)
  {
    assert (name + "|")[..|name|] == name && (name' + "|")[..|name'|] == name';
    assert (name' + "|")[..|name|] == name;
    var x := name'[|name| + 1..];
    assert (name' + "|")[..|name| + 1] == name + "|";
    assert name' == name + "|" + x;
    forall start ensures KeyAt(name, x + "|", start) == KeyAt(name', "", start) {
      assert name + "|" + (x + "|") == name' + "|" + "";
    }
  }

  // Two names collide for some keys and window exactly when they are not apart.
  lemma NamesCollideIff(name: string, name': string)
    ensures (exists key, key', start :: (name != name' || key != key') && KeyAt(name, key, start) == KeyAt(name', key', start))
            <==> !Apart(name, name')
  {
    if !Apart(name, name') {
      var key, key' := Collision(name, name');
      assert KeyAt(name, key, 0) == KeyAt(name', key', 0);
    } else {
      forall key, key', start | KeyAt(name, key, start) == KeyAt(name', key', start) ensures name == name' && key == key' {
        BucketKeysAreInjective(name, key, start, name', key', start);
      }
    }
  }

  // ---------------------------------------------------------- specification

  datatype BucketValue = BucketValue(value: int, expiresAt: int)

  datatype CounterState = CounterState(closed: bool, buckets: map<string, BucketValue>, lastSweep: int)

  datatype CounterError = Closed | InvalidWindow

  const SWEEP_INTERVAL := 30_000_000_000

  // The zero lastSweep lies far in the past.
  predicate SweepDue(lastSweep: int, now: int) {
    lastSweep == 0 || now - lastSweep >= SWEEP_INTERVAL
  }

  function SweepNext(s: CounterState, now: int): CounterState {
    if !SweepDue(s.lastSweep, now) then s
    else s.(buckets := Unexpired(s.buckets, now), lastSweep := now)
  }

  function Unexpired(buckets: map<string, BucketValue>, now: int): map<string, BucketValue> {
    map k | k in buckets && !(now > buckets[k].expiresAt) :: buckets[k]
  }

  // At most every 30 seconds, and then no bucket past its time stays behind.
  lemma SweepDropsStale(s: CounterState, now: int)
    ensures var swept := SweepNext(s, now);
            if s.lastSweep == 0 || now >= s.lastSweep + 30_000_000_000
            then swept.lastSweep == now && forall k :: k in swept.buckets ==> now <= swept.buckets[k].expiresAt
            else swept == s
  {
  }

  function Live(buckets: map<string, BucketValue>, k: string, now: int): Option<BucketValue> {
    if k in buckets && !(now > buckets[k].expiresAt) then Some(buckets[k]) else None
  }

  function IncrNext(s: CounterState, name: string, key: string, window: int, now: Instant): (Result<int, CounterError>, CounterState) {
    if s.closed then (Err(Closed), s)
    else if window <= 0 then (Err(InvalidWindow), s)
    else
      var s' := SweepNext(s, now);
      var k := BucketKey(name, key, window, now);
      var b := match Live(s'.buckets, k, now) case Some(b) => b case None => BucketValue(0, now + window);
      (Ok(b.value + 1), s'.(buckets := s'.buckets[k := b.(value := b.value + 1)]))
  }

  function Reading(s: CounterState, name: string, key: string, window: int, now: Instant): Result<int, CounterError> {
    if s.closed then Err(Closed)
    else if window <= 0 then Err(InvalidWindow)
    else Ok(match Live(s.buckets, BucketKey(name, key, window, now), now) case Some(b) => b.value case None => 0)
  }

  function ResetNext(s: CounterState, name: string, key: string, window: int, now: Instant): CounterState {
    if s.closed || window <= 0 then s else s.(buckets := s.buckets - {BucketKey(name, key, window, now)})
  }

  // An increment answers one more than the reading just before and is what is
  // read right after; a new bucket lasts one window. A closed store and a
  // window without length only answer with an error.
  lemma IncrRaisesReading(s: CounterState, name: string, key: string, window: int, now: Instant)
    ensures var (r, s') := IncrNext(s, name, key, window, now);
            var before := Reading(s, name, key, window, now);
            if s.closed then r == before == Err(Closed) && s' == s && ResetNext(s, name, key, window, now) == s
            else if window <= 0 then r == before == Err(InvalidWindow) && s' == s && ResetNext(s, name, key, window, now) == s
            else
              var k := BucketKey(name, key, window, now);
              && r == Ok(before.value + 1) && Reading(s', name, key, window, now) == r
              && k in s'.buckets && (Live(s.buckets, k, now).None? ==> s'.buckets[k] == BucketValue(1, now + window))
              && Reading(ResetNext(s, name, key, window, now), name, key, window, now) == Ok(0)
  {
  }

  // ------------------------------------------------------------------ store

  class Bucket {
    var value: int
    var expiresAt: int

    constructor (value: int, expiresAt: int)
      ensures View() == BucketValue(value, expiresAt)
    {
      this.value, this.expiresAt := value, expiresAt;
    }

    function View(): BucketValue
      reads this
    {
      BucketValue(value, expiresAt)
    }
  }

  class CounterStore {
    ghost var Repr: set<object>
    var buckets: map<string, Bucket>
    var closed: bool
    var lastSweep: int

    constructor ()
      ensures Valid() && fresh(Repr) && State() == CounterState(false, map[], 0)
    {
      buckets, closed, lastSweep := map[], false, 0;
      Repr := {this};
    }

    ghost predicate Valid()
      reads this, Repr
    {
      && this in Repr
      && (forall k :: k in buckets ==> buckets[k] in Repr)
      && (forall j, k :: j in buckets && k in buckets && j != k ==> buckets[j] != buckets[k])
    }

    ghost function Contents(): map<string, BucketValue>
      requires Valid()
      reads this, Repr
    {
      map k | k in buckets :: buckets[k].View()
    }

    ghost function State(): CounterState
      requires Valid()
      reads this, Repr
    {
      CounterState(closed, Contents(), lastSweep)
    }

    // `later` is the second clock reading, behind the returned remaining time.
    method Incr(name: string, key: string, window: int, now: Instant, later: int)
      returns (r: Result<int, CounterError>, remaining: int)
      requires Valid()
      modifies Repr
      ensures Valid() && fresh(Repr - old(Repr))
      ensures (r, State()) == IncrNext(old(State()), name, key, window, now)
      ensures 0 <= remaining
    {
      if closed { return Err(Closed), 0; }
      if window <= 0 { return Err(InvalidWindow), 0; }
      Sweep(now);
      var k := BucketText(name, key, window, now);
      var v, expiresAt := Count(k, now, now + window);
      remaining := if expiresAt - later < 0 then 0 else expiresAt - later;
      return Ok(v), remaining;
    }

    // One more in the live bucket under k.
    method Count(k: string, now: int, freshExpiry: int) returns (value: int, expiresAt: int)
      requires Valid()
      modifies Repr
      ensures Valid() && fresh(Repr - old(Repr)) && closed == old(closed) && lastSweep == old(lastSweep)
      ensures var b := match Live(old(Contents()), k, now) case Some(b) => b case None => BucketValue(0, freshExpiry);
              value == b.value + 1 && expiresAt == b.expiresAt
              && Contents() == old(Contents())[k := BucketValue(value, expiresAt)]
    {
      ghost var was := Contents();
      Ensure(k, now, freshExpiry);
      assert Contents()[k] == buckets[k].View();
      Bump(k);
      value, expiresAt := buckets[k].value, buckets[k].expiresAt;
      assert Contents()[k] == BucketValue(value, expiresAt);
      assert Contents() == was[k := BucketValue(value, expiresAt)];
    }

    method BucketText(name: string, key: string, window: int, now: Instant) returns (k: string)
      requires window > 0
      ensures k == BucketKey(name, key, window, now)
    {
      var text := Itoa(WindowStart(window, now));
      k := name + "|" + key + "|" + text;
    }

    // A live bucket under k; a missing or stale one is replaced.
    method Ensure(k: string, now: int, expiresAt: int)
      requires Valid()
      modifies this
      ensures Valid() && fresh(Repr - old(Repr)) && closed == old(closed) && lastSweep == old(lastSweep)
      ensures k in buckets && buckets[k] in Repr
      ensures Contents() == old(Contents())[k :=
        match Live(old(Contents()), k, now) case Some(b) => b case None => BucketValue(0, expiresAt)]
    {
      ghost var was := Contents();
      if k in buckets && !(now > buckets[k].expiresAt) {
        assert was[k] == buckets[k].View();
        assert was == was[k := was[k]];
        return;
      }
      Put(k, 0, expiresAt);
      assert k in Contents();
    }

    method Put(k: string, value: int, expiresAt: int)
      requires Valid()
      modifies this
      ensures Valid() && fresh(Repr - old(Repr)) && closed == old(closed) && lastSweep == old(lastSweep)
      ensures Contents() == old(Contents())[k := BucketValue(value, expiresAt)]
    {
      ghost var was := Contents();
      var b := new Bucket(value, expiresAt);
      buckets := buckets[k := b];
      Repr := Repr + {b};
      assert forall j :: j in was && j != k ==> Contents()[j] == was[j];
    }

    method Bump(k: string)
      requires Valid() && k in buckets
      modifies buckets[k]
      ensures Valid()
      ensures Contents() == old(Contents())[k := BucketValue(old(buckets[k].value) + 1, old(buckets[k].expiresAt))]
    {
      ghost var was := Contents();
      buckets[k].value := buckets[k].value + 1;
      assert forall j :: j in was && j != k ==> Contents()[j] == was[j];
    }

    method Sweep(now: int)
      requires Valid()
      modifies this
      ensures Valid() && Repr == old(Repr)
      ensures State() == SweepNext(old(State()), now)
    {
      if lastSweep != 0 && now - lastSweep < SWEEP_INTERVAL { return; }
      lastSweep := now;
      ghost var was := Contents();
      DropAll(now);
      assert Contents() == Unexpired(was, now);
    }

    method DropAll(now: int)
      requires Valid()
      modifies this`buckets
      ensures Valid() && Contents() == Unexpired(old(Contents()), now)
    {
      ghost var was := Contents();
      DropExpired(now);
      assert Valid();
      forall k ensures k in Contents() <==> k in Unexpired(was, now) { assert k in buckets ==> was[k] == buckets[k].View(); }
      assert forall k :: k in Contents() ==> Contents()[k] == was[k];
    }

    method DropExpired(now: int)
      modifies this`buckets
      ensures buckets == map k | k in old(buckets) && !(now > old(buckets[k].expiresAt)) :: old(buckets)[k]
    {
      var todo := buckets.Keys;
      ghost var all := buckets;
      while todo != {}
        invariant todo <= buckets.Keys
        invariant buckets == map k | k in all && (k in todo || !(now > all[k].expiresAt)) :: all[k]
        decreases todo
      {
        var k :| k in todo;
        assert buckets[k] == all[k];
        if now > buckets[k].expiresAt { buckets := buckets - {k}; }
        todo := todo - {k};
      }
    }

    method Get(name: string, key: string, window: int, now: Instant) returns (r: Result<int, CounterError>)
      requires Valid()
      ensures r == Reading(State(), name, key, window, now)
    {
      if closed { return Err(Closed); }
      if window <= 0 { return Err(InvalidWindow); }
      var k := BucketText(name, key, window, now);
      if k !in buckets || now > buckets[k].expiresAt { return Ok(0); }
      assert Contents()[k] == buckets[k].View();
      return Ok(buckets[k].value);
    }

    method Reset(name: string, key: string, window: int, now: Instant) returns (r: Result<(), CounterError>)
      requires Valid()
      modifies this
      ensures Valid() && Repr == old(Repr)
      ensures State() == ResetNext(old(State()), name, key, window, now)
      ensures r == if old(closed) then Err(Closed) else if window <= 0 then Err(InvalidWindow) else Ok(())
    {
      if closed { return Err(Closed); }
      if window <= 0 { return Err(InvalidWindow); }
      ghost var was := Contents();
      var k := BucketText(name, key, window, now);
      buckets := buckets - {k};
      assert Contents() == was - {k} by {
        assert forall j :: j in buckets ==> Contents()[j] == was[j];
      }
      return Ok(());
    }

    method Close()
      requires Valid()
      modifies this
      ensures Valid() && Repr == old(Repr) && closed && Contents() == map[]
    {
      closed, buckets := true, map[];
    }
  }
}
