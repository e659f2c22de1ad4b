// One quota, three drivers: the in-memory map, the Postgres upsert and the
// Redis script (internal/storage/{memory,postgres,redis}/usage.go, lua.go).
module UsageStores {
  import opened Prelude

  datatype ConsumeInput = ConsumeInput(
    id: string, mode: string, path: string, sign: string, tokenHash: string, expiresAt: int,
    maxUses: int, ip: string, userAgent: string, nowUnix: int, graceSeconds: int, skipConsume: bool)

  datatype ConsumeResult = ConsumeResult(allowed: bool, uses: int, maxUses: int, reason: string)

  datatype UsageRecord = UsageRecord(
    id: string, mode: string, path: string, sign: string, tokenHash: string, uses: int, maxUses: int,
    firstIP: string, lastIP: string, userAgent: string, expiresAt: int, createdAt: int, updatedAt: int)

  datatype StoreError = NotFound | Closed

  type Records = map<string, UsageRecord>

  // `wall` is what time.Now would return; it is used when no time is passed.
  function Now(input: ConsumeInput, wall: int): int {
    if input.nowUnix == 0 then wall else input.nowUnix
  }

  function FreshRecord(input: ConsumeInput, uses: int, now: int): UsageRecord {
    UsageRecord(input.id, input.mode, input.path, input.sign, input.tokenHash, uses, input.maxUses,
                input.ip, input.ip, input.userAgent, input.expiresAt, now, now)
  }

  // -------------------------------------------------- memory: specification

  datatype UsageState = UsageState(closed: bool, records: Records)

  function ConsumeNext(s: UsageState, input: ConsumeInput, wall: int)
    : (Result<ConsumeResult, StoreError>, UsageState)
  {
    if s.closed then (Err(Closed), s)
    else
      var now := Now(input, wall);
      var rec := RecordFor(s.records, input, now);
      if rec.uses >= input.maxUses then
        (Ok(ConsumeResult(false, rec.uses, input.maxUses, "used_up")), s.(records := s.records[input.id := rec]))
      else
        var rec' := Charged(rec, input, now);
        (Ok(ConsumeResult(true, rec'.uses, input.maxUses, "ok")), s.(records := s.records[input.id := rec']))
  }

  function RecordFor(records: Records, input: ConsumeInput, now: int): UsageRecord {
    if input.id in records then records[input.id] else FreshRecord(input, 0, now)
  }

  // One admitted use; a HEAD request leaves the count alone.
  function Charged(rec: UsageRecord, input: ConsumeInput, now: int): UsageRecord {
    rec.(uses := if input.skipConsume then rec.uses else rec.uses + 1,
         lastIP := input.ip, updatedAt := now,
         userAgent := if rec.userAgent == "" then input.userAgent else rec.userAgent)
  }

  function Lookup(s: UsageState, id: string): Result<UsageRecord, StoreError> {
    if s.closed then Err(Closed) else if id in s.records then Ok(s.records[id]) else Err(NotFound)
  }

  // Records whose expiry lies before the threshold disappear.
  function CleanupNext(s: UsageState, before: int): UsageState {
    if s.closed then s
    else s.(records := map id | id in s.records && !(s.records[id].expiresAt < before) :: s.records[id])
  }

  // ------------------------------------------------------ memory: the store

  // A usage record; the last four fields change in place.
  class Entry {
    const origin: UsageRecord
    var uses: int
    var lastIP: string
    var userAgent: string
    var updatedAt: int

    constructor (r: UsageRecord)
      ensures Value() == r
    {
      origin := r;
      uses, lastIP, userAgent, updatedAt := r.uses, r.lastIP, r.userAgent, r.updatedAt;
    }

    function Value(): UsageRecord
      reads this
    {
      origin.(uses := uses, lastIP := lastIP, userAgent := userAgent, updatedAt := updatedAt)
    }

    method Charge(input: ConsumeInput, now: int)
      modifies this
      ensures Value() == Charged(old(Value()), input, now)
    {
      if !input.skipConsume { uses := uses + 1; }
      lastIP := input.ip;
      updatedAt := now;
      if userAgent == "" { userAgent := input.userAgent; }
    }
  }

  class MemoryStore {
    ghost var Repr: set<object>
    var records: map<string, Entry>
    var closed: bool

    constructor ()
      ensures Valid() && fresh(Repr) && State() == UsageState(false, map[])
    {
      records, closed := map[], false;
      Repr := {this};
    }

    // No two ids share a record.
    ghost predicate Valid()
      reads this, Repr
    {
      && this in Repr
      && (forall id :: id in records ==> records[id] in Repr)
      && (forall i, j :: i in records && j in records && i != j ==> records[i] != records[j])
    }

    ghost function State(): UsageState
      requires Valid()
      reads this, Repr
    {
      UsageState(closed, Contents())
    }

    ghost function Contents(): Records
      requires Valid()
      reads this, Repr
    {
      map id | id in records :: records[id].Value()
    }

    method Consume(input: ConsumeInput, wall: int) returns (r: Result<ConsumeResult, StoreError>)
      requires Valid()
      modifies Repr
      ensures Valid() && fresh(Repr - old(Repr))
      ensures (r, State()) == ConsumeNext(old(State()), input, wall)
    {
      if closed { return Err(Closed); }
      ghost var was := Contents();
      var now := Now(input, wall);
      var rec := Obtain(input, now);
      assert Contents()[input.id] == rec.Value();
      if rec.uses >= input.maxUses {
        return Ok(ConsumeResult(false, rec.uses, input.maxUses, "used_up"));
      }
      ChargeRecord(input, now);
      assert Contents()[input.id] == rec.Value();
      assert Contents() == was[input.id := rec.Value()];
      return Ok(ConsumeResult(true, rec.uses, input.maxUses, "ok"));
    }

    // The stored record for the id, created on first sight.
    method Obtain(input: ConsumeInput, now: int) returns (rec: Entry)
      requires Valid()
      modifies this
      ensures Valid() && fresh(Repr - old(Repr)) && closed == old(closed)
      ensures input.id in records && records[input.id] == rec
      ensures Contents() == old(Contents())[input.id := RecordFor(old(Contents()), input, now)]
    {
      if input.id in records {
        rec := records[input.id];
        assert Contents()[input.id] == rec.Value();
      } else {
        rec := Add(FreshRecord(input, 0, now));
      }
    }

    method Add(r: UsageRecord) returns (rec: Entry)
      requires Valid() && r.id !in records
      modifies this
      ensures Valid() && fresh(Repr - old(Repr)) && closed == old(closed)
      ensures r.id in records && records[r.id] == rec
      ensures Contents() == old(Contents())[r.id := r]
    {
      ghost var was := Contents();
      rec := new Entry(r);
      records := records[r.id := rec];
      Repr := Repr + {rec};
      assert Valid();
      assert Contents()[r.id] == r;
      assert forall id :: id in was ==> Contents()[id] == was[id];
      assert Contents() == was[r.id := r];
    }

    // Only the record of this id changes.
    method ChargeRecord(input: ConsumeInput, now: int)
      requires Valid() && input.id in records
      modifies records[input.id]
      ensures Valid()
      ensures Contents() == old(Contents())[input.id := Charged(old(Contents()[input.id]), input, now)]
    {
      ghost var was := Contents();
      records[input.id].Charge(input, now);
      assert forall id :: id in was && id != input.id ==> Contents()[id] == was[id];
    }

    // The caller gets a copy, never the stored record.
    method Get(id: string) returns (r: Result<UsageRecord, StoreError>)
      requires Valid()
      ensures r == Lookup(State(), id)
    {
      if closed { return Err(Closed); }
      if id !in records { return Err(NotFound); }
      return Ok(records[id].Value());
    }

    method CleanupExpired(before: int) returns (r: Result<nat, StoreError>)
      requires Valid()
      modifies this
      ensures Valid() && Repr == old(Repr)
      ensures State() == CleanupNext(old(State()), before)
      ensures if old(closed) then r == Err(Closed) else r.Ok? && r.value + |records.Keys| == |old(records.Keys)|
    {
      if closed { return Err(Closed); }
      ghost var was := State();
      var removed := Sweep(before);
      assert Contents() == CleanupNext(was, before).records by {
        assert forall id :: id in records ==> Contents()[id] == was.records[id];
      }
      return Ok(removed);
    }

    method Sweep(before: int) returns (removed: nat)
      modifies this`records
      ensures records == Kept(old(records), {}, before)
      ensures removed + |records.Keys| == |old(records.Keys)|
    {
      removed := 0;
      var todo := records.Keys;
      ghost var all := records;
      assert Kept(all, todo, before) == all;
      while todo != {}
        invariant todo <= records.Keys
        invariant records == Kept(all, todo, before)
        invariant removed + |records.Keys| == |all.Keys|
        decreases todo
      {
        var id :| id in todo;
        assert records[id] == all[id];
        if records[id].origin.expiresAt < before {
          assert (records - {id}).Keys == records.Keys - {id};
          records := records - {id};
          removed := removed + 1;
        }
        todo := todo - {id};
      }
    }

    // What is left of `all` once every id outside `todo` has been looked at.
    static ghost function Kept(all: map<string, Entry>, todo: set<string>, before: int): map<string, Entry> {
      map id | id in all && (id in todo || !(all[id].origin.expiresAt < before)) :: all[id]
    }

    method Close()
      requires Valid()
      modifies this
      ensures Valid() && Repr == old(Repr) && State() == UsageState(true, map[])
    {
      closed, records := true, map[];
    }
  }

  // ------------------------------------------------------------- Postgres

  // INSERT .. ON CONFLICT DO UPDATE .. WHERE uses < max_uses RETURNING.
  function UpsertNext(table: Records, input: ConsumeInput, now: int): (Option<(int, int)>, Records) {
    if input.id !in table then
      (Some((1, input.maxUses)), table[input.id := FreshRecord(input, 1, now)])
    else
      var row := table[input.id];
      if row.uses < row.maxUses then
        var row' := row.(uses := row.uses + 1, lastIP := input.ip, updatedAt := now,
                         userAgent := if row.userAgent == "" then input.userAgent else row.userAgent);
        (Some((row'.uses, row'.maxUses)), table[input.id := row'])
      else (None, table)
  }

  function PostgresNext(table: Records, input: ConsumeInput, wall: int): (ConsumeResult, Records) {
    if input.skipConsume then
      if input.id !in table then (ConsumeResult(true, 0, input.maxUses, "ok_head_first"), table)
      else
        var uses := table[input.id].uses;
        (ConsumeResult(uses < input.maxUses, uses, input.maxUses,
                       if uses < input.maxUses then "ok_head" else "used_up_head"), table)
    else
      match UpsertNext(table, input, Now(input, wall))
      case (Some((uses, maxUses)), table') => (ConsumeResult(true, uses, maxUses, "ok"), table')
      case (None, table') =>
        if input.id in table' then (ConsumeResult(false, table'[input.id].uses, table'[input.id].maxUses, "used_up"), table')
        else (ConsumeResult(false, 0, 0, ""), table')
  }

  class PostgresStore {
    var table: Records

    constructor ()
      ensures table == map[]
    {
      table := map[];
    }

    // One SQL statement, executed atomically.
    method Upsert(input: ConsumeInput, now: int) returns (r: Option<(int, int)>)
      modifies this
      ensures (r, table) == UpsertNext(old(table), input, now)
    {
      if input.id !in table {
        table := table[input.id := FreshRecord(input, 1, now)];
        return Some((1, input.maxUses));
      }
      var row := table[input.id];
      if row.uses >= row.maxUses { return None; }
      row := row.(uses := row.uses + 1, lastIP := input.ip, updatedAt := now,
                  userAgent := if row.userAgent == "" then input.userAgent else row.userAgent);
      table := table[input.id := row];
      return Some((row.uses, row.maxUses));
    }

    method Consume(input: ConsumeInput, wall: int) returns (r: ConsumeResult)
      modifies this
      ensures (r, table) == PostgresNext(old(table), input, wall)
    {
      if input.skipConsume {
        if input.id !in table { return ConsumeResult(true, 0, input.maxUses, "ok_head_first"); }
        var uses := table[input.id].uses;
        return ConsumeResult(uses < input.maxUses, uses, input.maxUses,
                             if uses < input.maxUses then "ok_head" else "used_up_head");
      }
      var row := Upsert(input, Now(input, wall));
      match row {
        case Some(counts) => return ConsumeResult(true, counts.0, counts.1, "ok");
        case None => return ConsumeResult(false, table[input.id].uses, table[input.id].maxUses, "used_up");
      }
    }
  }

  // ---------------------------------------------------------------- Redis

  // A usage hash and the instant its TTL runs out; a dead key is invisible.
  datatype RedisKey = RedisKey(hash: UsageRecord, diesAt: int)

  type Keyspace = map<string, RedisKey>

  predicate Alive(keys: Keyspace, id: string, now: int) {
    id in keys && now < keys[id].diesAt
  }

  function UsesField(keys: Keyspace, id: string, now: int): int {
    if Alive(keys, id, now) then keys[id].hash.uses else 0
  }

  // The consumeUsage script: one atomic step.
  function ScriptNext(keys: Keyspace, input: ConsumeInput, ttl: int, now: int): ((bool, int), Keyspace) {
    var uses := UsesField(keys, input.id, now);
    if uses >= input.maxUses then ((false, uses), keys)
    else if uses + 1 == 1 then
      ((true, uses + 1), keys[input.id := RedisKey(FreshRecord(input, uses + 1, now), now + ttl)])
    else
      var key := keys[input.id];
      ((true, uses + 1),
       keys[input.id := key.(hash := key.hash.(uses := uses + 1, lastIP := input.ip, updatedAt := now))])
  }

  function RedisNext(keys: Keyspace, input: ConsumeInput, wall: int): (ConsumeResult, Keyspace) {
    var now := Now(input, wall);
    var grace := if input.graceSeconds <= 0 then 60 else input.graceSeconds;
    if input.expiresAt - now <= 0 then (ConsumeResult(false, 0, input.maxUses, "expired"), keys)
    else if input.skipConsume then
      if !Alive(keys, input.id, now) then (ConsumeResult(true, 0, input.maxUses, "ok_head_first"), keys)
      else
        var uses := keys[input.id].hash.uses;
        (ConsumeResult(uses < input.maxUses, uses, input.maxUses,
                       if uses < input.maxUses then "ok_head" else "used_up_head"), keys)
    else
      var ((allowed, uses), keys') := ScriptNext(keys, input, input.expiresAt - now + grace, now);
      (ConsumeResult(allowed, uses, input.maxUses, if allowed then "ok" else "used_up"), keys')
  }

  class RedisStore {
    var keys: Keyspace

    constructor ()
      ensures keys == map[]
    {
      keys := map[];
    }

    method RunScript(input: ConsumeInput, ttl: int, now: int) returns (allowed: bool, uses: int)
      modifies this
      ensures ((allowed, uses), keys) == ScriptNext(old(keys), input, ttl, now)
    {
      uses := UsesField(keys, input.id, now);
      if uses >= input.maxUses { return false, uses; }
      uses := uses + 1;
      if uses == 1 {
        keys := keys[input.id := RedisKey(FreshRecord(input, uses, now), now + ttl)];
      } else {
        var key := keys[input.id];
        keys := keys[input.id := key.(hash := key.hash.(uses := uses, lastIP := input.ip, updatedAt := now))];
      }
      return true, uses;
    }

    method Consume(input: ConsumeInput, wall: int) returns (r: ConsumeResult)
      modifies this
      ensures (r, keys) == RedisNext(old(keys), input, wall)
    {
      var now := Now(input, wall);
      var grace := if input.graceSeconds <= 0 then 60 else input.graceSeconds;
      var ttl := input.expiresAt - now + grace;
      if input.expiresAt - now <= 0 { return ConsumeResult(false, 0, input.maxUses, "expired"); }
      if input.skipConsume {
        if !Alive(keys, input.id, now) { return ConsumeResult(true, 0, input.maxUses, "ok_head_first"); }
        var uses := keys[input.id].hash.uses;
        return ConsumeResult(uses < input.maxUses, uses, input.maxUses,
                             if uses < input.maxUses then "ok_head" else "used_up_head");
      }
      var allowed, uses := RunScript(input, ttl, now);
      return ConsumeResult(allowed, uses, input.maxUses, if allowed then "ok" else "used_up");
    }
  }

  // ------------------------------------------------------ driver agreement

  datatype Call = Call(input: ConsumeInput, wall: int)

  // Calls of one deployment: a fixed cap, an expiry fixed by the id, and a
  // token that has not expired yet.
  ghost predicate Proper(c: Call, cap: int, expiryOf: string -> int) {
    c.input.maxUses == cap && c.input.expiresAt == expiryOf(c.input.id) && Now(c.input, c.wall) < c.input.expiresAt
  }

  // What a client sees of one answer.
  datatype Answer = Answer(allowed: bool, uses: int)

  function AnswerOf(r: ConsumeResult): Answer {
    Answer(r.allowed, r.uses)
  }

  function MemoryAnswers(s: UsageState, calls: seq<Call>): seq<Answer>
    requires !s.closed
    decreases |calls|
  {
    if calls == [] then []
    else
      var (r, s') := ConsumeNext(s, calls[0].input, calls[0].wall);
      [AnswerOf(r.value)] + MemoryAnswers(s', calls[1..])
  }

  function PostgresAnswers(table: Records, calls: seq<Call>): seq<Answer>
    decreases |calls|
  {
    if calls == [] then []
    else
      var (r, table') := PostgresNext(table, calls[0].input, calls[0].wall);
      [AnswerOf(r)] + PostgresAnswers(table', calls[1..])
  }

  function RedisAnswers(keys: Keyspace, calls: seq<Call>): seq<Answer>
    decreases |calls|
  {
    if calls == [] then []
    else
      var (r, keys') := RedisNext(keys, calls[0].input, calls[0].wall);
      [AnswerOf(r)] + RedisAnswers(keys', calls[1..])
  }

  ghost predicate SameAnswers(calls: seq<Call>) {
    && MemoryAnswers(UsageState(false, map[]), calls) == PostgresAnswers(map[], calls)
    && MemoryAnswers(UsageState(false, map[]), calls) == RedisAnswers(map[], calls)
  }

  function Uses(records: Records, id: string): int {
    if id in records then records[id].uses else 0
  }

  // Equal use counts; only the memory store keeps records for HEAD requests.
  ghost predicate Aligned(s: UsageState, table: Records, keys: Keyspace, cap: int, expiryOf: string -> int) {
    && !s.closed
    && (forall id :: Uses(s.records, id) == Uses(table, id))
    && (forall id :: id in table ==> table[id].maxUses == cap && table[id].uses >= 1)
    && (forall id :: id in keys <==> id in table)
    && (forall id :: id in keys ==> keys[id].hash.uses == table[id].uses && expiryOf(id) < keys[id].diesAt)
  }

  lemma AlignedStep(s: UsageState, table: Records, keys: Keyspace, c: Call, cap: int, expiryOf: string -> int)
    requires cap >= 1 && Proper(c, cap, expiryOf) && Aligned(s, table, keys, cap, expiryOf)
    ensures var (m, s') := ConsumeNext(s, c.input, c.wall);
            var (p, table') := PostgresNext(table, c.input, c.wall);
            var (r, keys') := RedisNext(keys, c.input, c.wall);
            && m.Ok? && AnswerOf(m.value) == AnswerOf(p) == AnswerOf(r) && m.value.maxUses == p.maxUses == r.maxUses == cap
            && Aligned(s', table', keys', cap, expiryOf)
  {
    var id := c.input.id;
    assert Uses(s.records, id) == Uses(table, id);
    assert id in keys ==> Alive(keys, id, Now(c.input, c.wall));
    var s', table' := ConsumeNext(s, c.input, c.wall).1, PostgresNext(table, c.input, c.wall).1;
    forall other ensures Uses(s'.records, other) == Uses(table', other) {
      assert Uses(s.records, other) == Uses(table, other);
    }
  }

  // A charged use leaves the same row in all three drivers, except that the
  // Redis script keeps the first user agent even if it was empty; a Redis key
  // lives until the token's expiry plus the grace period, 60 s by default.
  lemma ChargedRowsAgree(s: UsageState, table: Records, keys: Keyspace, c: Call, cap: int, expiryOf: string -> int)
    requires cap >= 1 && Proper(c, cap, expiryOf) && Aligned(s, table, keys, cap, expiryOf)
    requires var id := c.input.id;
             && (id in s.records <==> id in table)
             && (id in table ==> table[id] == s.records[id] && keys[id].hash.(userAgent := table[id].userAgent) == table[id])
    ensures var id, input := c.input.id, c.input;
            var (m, s') := ConsumeNext(s, input, c.wall);
            var table', keys' := PostgresNext(table, input, c.wall).1, RedisNext(keys, input, c.wall).1;
            !input.skipConsume && m.Ok? && m.value.allowed ==>
              && id in s'.records && id in table' && id in keys' && s'.records[id] == table'[id]
              && s'.records[id].uses == Uses(s.records, id) + 1
              && keys'[id].hash.(userAgent := table'[id].userAgent) == table'[id]
              && keys'[id].hash.userAgent == (if id in keys then keys[id].hash.userAgent else input.userAgent)
              && keys'[id].diesAt == if id in keys then keys[id].diesAt
                                     else input.expiresAt + if input.graceSeconds > 0 then input.graceSeconds else 60
  {
    var id := c.input.id;
    assert Uses(s.records, id) == Uses(table, id);
    assert id in keys ==> Alive(keys, id, Now(c.input, c.wall));
  }

  // Only Redis looks at the expiry: an expired call is refused there without
  // a trace, and admitted by the other two while uses are left.
  lemma ExpiredCallsDiffer(s: UsageState, table: Records, keys: Keyspace, c: Call)
    requires !s.closed && c.input.expiresAt <= Now(c.input, c.wall)
    ensures RedisNext(keys, c.input, c.wall) == (ConsumeResult(false, 0, c.input.maxUses, "expired"), keys)
    ensures ConsumeNext(s, c.input, c.wall).0.value.allowed <==> Uses(s.records, c.input.id) < c.input.maxUses
    ensures c.input.id !in table ==> PostgresNext(table, c.input, c.wall).0.allowed
  {
  }

  lemma {:induction false} DriversStayAligned(s: UsageState, table: Records, keys: Keyspace, calls: seq<Call>,
                                              cap: int, expiryOf: string -> int)
    requires cap >= 1 && Aligned(s, table, keys, cap, expiryOf)
    requires forall c :: c in calls ==> Proper(c, cap, expiryOf)
    ensures MemoryAnswers(s, calls) == PostgresAnswers(table, calls) == RedisAnswers(keys, calls)
    decreases |calls|
  {
    if calls != [] {
      var c := calls[0];
      AlignedStep(s, table, keys, c, cap, expiryOf);
      DriversStayAligned(ConsumeNext(s, c.input, c.wall).1, PostgresNext(table, c.input, c.wall).1,
                         RedisNext(keys, c.input, c.wall).1, calls[1..], cap, expiryOf);
    }
  }

  // The three drivers answer every sequence of proper calls alike exactly
  // when the cap is at least one, which config validation enforces.
  lemma DriversAgreeIffCapPositive(cap: int, expiryOf: string -> int)
    ensures (forall calls :: (forall c :: c in calls ==> Proper(c, cap, expiryOf)) ==> SameAnswers(calls)) <==> cap >= 1
  {
    if cap >= 1 {
      forall calls | forall c :: c in calls ==> Proper(c, cap, expiryOf) ensures SameAnswers(calls) {
        DriversStayAligned(UsageState(false, map[]), map[], map[], calls, cap, expiryOf);
      }
    } else {
      // Postgres admits the very first use whatever the cap says.
      var now := if expiryOf("id") > 1 then 1 else expiryOf("id") - 2;
      var input := ConsumeInput("id", "generic", "/", "", "", expiryOf("id"), cap, "", "", now, 0, false);
      var calls := [Call(input, 0)];
      assert forall c :: c in calls ==> Proper(c, cap, expiryOf);
      assert PostgresAnswers(map[], calls)[0].allowed && !MemoryAnswers(UsageState(false, map[]), calls)[0].allowed;
      assert !SameAnswers(calls);
    }
  }
}
