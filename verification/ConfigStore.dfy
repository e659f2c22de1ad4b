// The managed configuration store of internal/configstore/store.go: an
// append-only revision history beside the active file, kept consistent
// through failed and interrupted file replacements.
module ConfigStore {
  import opened Prelude

  // ----------------------------------------------------------------- data

  type Bytes = string

  datatype Meta = Meta(
    revision: nat, parent: nat, action: string, actor: string, reason: string, rollbackTarget: nat,
    changed: int, danger: string, restartRequired: bool, createdAt: int)

  // The active file, and the history directory with one .yaml and one .json
  // file per revision number.
  datatype DiskState = DiskState(active: Bytes, yaml: map<nat, Bytes>, json: map<nat, Meta>)

  datatype Draft = Draft(id: string, revision: nat, baseRevision: nat, raw: Bytes, updatedAt: int, validated: bool, diffRevision: nat)

  datatype StoreState = StoreState(raw: Bytes, revision: nat, updated: int, draft: Option<Draft>, pendingRestart: bool)

  datatype Error =
    | Unmanaged | Conflict | DraftNotFound | DraftExpired | DraftConflict | RevisionNotFound | TooLarge
    | IOError | Crashed

  datatype ApplyRequest = ApplyRequest(
    raw: Bytes, expectedRevision: nat, actor: string, reason: string, changed: int, danger: string,
    restartRequired: bool, action: string, rollbackTarget: nat)

  datatype ApplyResult = ApplyResult(revision: nat, previous: nat, meta: Meta, restartRequired: bool)

  const MAX_DRAFT_BYTES := 131072
  const DRAFT_LIFETIME := 24 * 3600 * 1_000_000_000

  // What goes wrong with the numbered file replacements of one operation:
  // replacement `at` reports an error, or the process dies right before it.
  datatype Fault = Healthy | FailsAt(at: nat) | CrashesAt(at: nat)

  // ---------------------------------------------------------- specification

  datatype Written = Done | Failed | Died

  function Remove(d: DiskState, r: nat): DiskState {
    d.(yaml := d.yaml - {r}, json := d.json - {r})
  }

  // writeRevisionLocked: the .yaml file, then the .json file. A revision is
  // published by its .json file.
  function WriteNext(d: DiskState, meta: Meta, raw: Bytes, fault: Fault): (Written, DiskState) {
    if fault == FailsAt(0) then (Failed, d)
    else if fault == CrashesAt(0) then (Died, d)
    else
      var d1 := d.(yaml := d.yaml[meta.revision := raw]);
      if fault == FailsAt(1) then (Failed, Remove(d1, meta.revision))
      else if fault == CrashesAt(1) then (Died, d1)
      else (Done, d1.(json := d1.json[meta.revision := meta]))
  }

  // The highest revision number recorded in any .json file with its creation
  // time, (0, 0) if none.
  ghost predicate IsLatest(d: DiskState, r: nat, updated: int) {
    && (forall k :: k in d.json ==> d.json[k].revision <= r)
    && (r > 0 ==> exists k :: k in d.json && d.json[k].revision == r && d.json[k].createdAt == updated)
    && (r == 0 ==> updated == 0)
  }

  function BootMeta(r: nat, now: int): Meta {
    if r == 0 then Meta(1, 0, "bootstrap", "", "", 0, 0, "", false, now)
    else Meta(r + 1, r, "external", "", "", 0, 0, "", false, now)
  }

  // New on a managed path, after the history has been read: bootstrap an
  // empty history, or record an edit made outside.
  function OpenNext(d: DiskState, latest: nat, updated: int, now: int, fault: Fault): (Result<StoreState, Error>, DiskState) {
    var raw := d.active;
    if latest > 0 && latest !in d.yaml then (Err(IOError), d)
    else if latest > 0 && d.yaml[latest] == raw then (Ok(StoreState(raw, latest, updated, None, false)), d)
    else
      match WriteNext(d, BootMeta(latest, now), raw, fault)
      case (Failed, d') => (Err(IOError), d')
      case (Died, d') => (Err(Crashed), d')
      case (Done, d') => (Ok(StoreState(raw, latest + 1, now, None, false)), d')
  }

  function ApplyMeta(s: StoreState, req: ApplyRequest, now: int): Meta {
    Meta(s.revision + 1, s.revision, if req.action == "" then "apply" else req.action, req.actor, req.reason,
         req.rollbackTarget, req.changed, req.danger, req.restartRequired, now)
  }

  function ApplyNext(s: StoreState, d: DiskState, req: ApplyRequest, now: int, fault: Fault)
    : (Result<ApplyResult, Error>, StoreState, DiskState)
  {
    if d.active != s.raw then (Err(Conflict), s, d)
    else if req.expectedRevision != 0 && req.expectedRevision != s.revision then (Err(Conflict), s, d)
    else if |req.raw| > MAX_DRAFT_BYTES then (Err(TooLarge), s, d)
    else
      var meta := ApplyMeta(s, req, now);
      match WriteNext(d, meta, req.raw, fault)
      case (Failed, d') => (Err(IOError), s, d')
      case (Died, d') => (Err(Crashed), s, d')
      case (Done, d') =>
        if fault == FailsAt(2) then (Err(IOError), s, Remove(d', meta.revision))
        else if fault == CrashesAt(2) then (Err(Crashed), s, d')
        else
          var d'' := d'.(active := req.raw);
          if fault == CrashesAt(3) then (Err(Crashed), s, d'')
          else (Ok(ApplyResult(meta.revision, s.revision, meta, req.restartRequired)),
                StoreState(req.raw, meta.revision, now, None, true), d'')
  }

  function HistoryGetOf(d: DiskState, r: nat): Result<(Meta, Bytes), Error> {
    if r == 0 || r !in d.json then Err(RevisionNotFound)
    else if r !in d.yaml then Err(IOError)
    else Ok((d.json[r], d.yaml[r]))
  }

  // ---------------------------------------------------------------- drafts

  function SaveDraftNext(s: StoreState, baseRevision: nat, id: string, expected: nat, raw: Bytes, freshID: string, now: int)
    : (Result<Draft, Error>, StoreState)
  {
    var base := if baseRevision == 0 then s.revision else baseRevision;
    if |raw| > MAX_DRAFT_BYTES then (Err(TooLarge), s)
    else if base != s.revision then (Err(Conflict), s)
    else if s.draft.Some? && (id == "" || id != s.draft.value.id || expected != s.draft.value.revision) then (Err(DraftConflict), s)
    else if s.draft.None? && id != "" then (Err(DraftNotFound), s)
    else
      var d := Draft(if id == "" then freshID else id, if s.draft.Some? then s.draft.value.revision + 1 else 1, base, raw, now, false, 0);
      (Ok(d), s.(draft := Some(d)))
  }

  function GetDraftNext(s: StoreState, id: string, now: int): (Result<Draft, Error>, StoreState) {
    if s.draft.None? || (id != "" && s.draft.value.id != id) then (Err(DraftNotFound), s)
    else if now - s.draft.value.updatedAt > DRAFT_LIFETIME then (Err(DraftExpired), s.(draft := None))
    else (Ok(s.draft.value), s)
  }

  function MarkDraftNext(s: StoreState, id: string, revision: nat, diffRevision: nat): (Result<(), Error>, StoreState) {
    if s.draft.None? || s.draft.value.id != id then (Err(DraftNotFound), s)
    else if s.draft.value.revision != revision then (Err(DraftConflict), s)
    else (Ok(()), s.(draft := Some(s.draft.value.(validated := true, diffRevision := diffRevision))))
  }

  function DiscardDraftNext(s: StoreState, id: string, expected: nat): (Result<(), Error>, StoreState) {
    if s.draft.None? || s.draft.value.id != id then (Err(DraftNotFound), s)
    else if expected != 0 && s.draft.value.revision != expected then (Err(DraftConflict), s)
    else (Ok(()), s.(draft := None))
  }

  // ----------------------------------------------------------- the machinery

  // Files are only ever replaced whole (write aside, then rename).
  class Disk {
    var active: Bytes
    var yaml: map<nat, Bytes>
    var json: map<nat, Meta>

    constructor (active: Bytes)
      ensures State() == DiskState(active, map[], map[])
    {
      this.active, yaml, json := active, map[], map[];
    }

    ghost function State(): DiskState
      reads this
    {
      DiskState(active, yaml, json)
    }

    method WriteRevision(meta: Meta, raw: Bytes, fault: Fault) returns (w: Written)
      modifies this
      ensures (w, State()) == WriteNext(old(State()), meta, raw, fault)
    {
      if fault == FailsAt(0) { return Failed; }
      if fault == CrashesAt(0) { return Died; }
      yaml := yaml[meta.revision := raw];
      if fault == FailsAt(1) {
        RemoveRevision(meta.revision);
        return Failed;
      }
      if fault == CrashesAt(1) { return Died; }
      json := json[meta.revision := meta];
      return Done;
    }

    method RemoveRevision(r: nat)
      modifies this
      ensures State() == Remove(old(State()), r)
    {
      yaml := yaml - {r};
      json := json - {r};
    }
  }

  class Store {
    const managed: bool
    const disk: Disk
    var raw: Bytes
    var revision: nat
    var updated: int
    var draft: Option<Draft>
    var pendingRestart: bool

    constructor (managed: bool, disk: Disk, s: StoreState)
      ensures this.managed == managed && this.disk == disk && State() == s
    {
      this.managed, this.disk := managed, disk;
      raw, revision, updated, draft, pendingRestart := s.raw, s.revision, s.updated, s.draft, s.pendingRestart;
    }

    ghost function State(): StoreState
      reads this
    {
      StoreState(raw, revision, updated, draft, pendingRestart)
    }

    method Apply(req: ApplyRequest, now: int, fault: Fault) returns (r: Result<ApplyResult, Error>)
      modifies this, disk
      ensures !managed ==> r == Err(Unmanaged) && State() == old(State()) && disk.State() == old(disk.State())
      ensures managed ==> (r, State(), disk.State()) == ApplyNext(old(State()), old(disk.State()), req, now, fault)
    {
      if !managed { return Err(Unmanaged); }
      if disk.active != raw { return Err(Conflict); }
      if req.expectedRevision != 0 && req.expectedRevision != revision { return Err(Conflict); }
      if |req.raw| > MAX_DRAFT_BYTES { return Err(TooLarge); }
      var previous, next := revision, revision + 1;
      var meta := Meta(next, previous, if req.action == "" then "apply" else req.action, req.actor, req.reason,
                       req.rollbackTarget, req.changed, req.danger, req.restartRequired, now);
      var w := disk.WriteRevision(meta, req.raw, fault);
      match w {
        case Failed => return Err(IOError);
        case Died => return Err(Crashed);
        case Done =>
      }
      if fault == FailsAt(2) {
        disk.RemoveRevision(next);
        return Err(IOError);
      }
      if fault == CrashesAt(2) { return Err(Crashed); }
      disk.active := req.raw;
      if fault == CrashesAt(3) { return Err(Crashed); }
      raw, revision, updated, pendingRestart, draft := req.raw, next, now, true, None;
      return Ok(ApplyResult(next, previous, meta, req.restartRequired));
    }

    method HistoryGet(r: nat) returns (found: Result<(Meta, Bytes), Error>)
      ensures found == if managed then HistoryGetOf(disk.State(), r) else Err(RevisionNotFound)
    {
      if !managed || r == 0 || r !in disk.json { return Err(RevisionNotFound); }
      if r !in disk.yaml { return Err(IOError); }
      return Ok((disk.json[r], disk.yaml[r]));
    }

    method SaveDraft(baseRevision: nat, id: string, expected: nat, raw: Bytes, freshID: string, now: int) returns (r: Result<Draft, Error>)
      modifies this`draft
      ensures (r, State()) == if managed then SaveDraftNext(old(State()), baseRevision, id, expected, raw, freshID, now)
                              else (Err(Unmanaged), old(State()))
    {
      if !managed { return Err(Unmanaged); }
      if |raw| > MAX_DRAFT_BYTES { return Err(TooLarge); }
      var base := if baseRevision == 0 then revision else baseRevision;
      if base != revision { return Err(Conflict); }
      if draft.Some? {
        if id == "" || id != draft.value.id || expected != draft.value.revision { return Err(DraftConflict); }
      } else if id != "" {
        return Err(DraftNotFound);
      }
      var next := 1;
      if draft.Some? { next := draft.value.revision + 1; }
      draft := Some(Draft(if id == "" then freshID else id, next, base, raw, now, false, 0));
      return Ok(draft.value);
    }

    method GetDraft(id: string, now: int) returns (r: Result<Draft, Error>)
      modifies this`draft
      ensures (r, State()) == GetDraftNext(old(State()), id, now)
    {
      if draft.None? || (id != "" && draft.value.id != id) { return Err(DraftNotFound); }
      if now - draft.value.updatedAt > DRAFT_LIFETIME {
        draft := None;
        return Err(DraftExpired);
      }
      return Ok(draft.value);
    }

    method MarkDraftValidated(id: string, expected: nat, diffRevision: nat) returns (r: Result<(), Error>)
      modifies this`draft
      ensures (r, State()) == MarkDraftNext(old(State()), id, expected, diffRevision)
    {
      if draft.None? || draft.value.id != id { return Err(DraftNotFound); }
      if draft.value.revision != expected { return Err(DraftConflict); }
      draft := Some(draft.value.(validated := true, diffRevision := diffRevision));
      return Ok(());
    }

    method DiscardDraft(id: string, expected: nat) returns (r: Result<(), Error>)
      modifies this`draft
      ensures (r, State()) == if managed then DiscardDraftNext(old(State()), id, expected) else (Err(Unmanaged), old(State()))
    {
      if !managed { return Err(Unmanaged); }
      if draft.None? || draft.value.id != id { return Err(DraftNotFound); }
      if expected != 0 && draft.value.revision != expected { return Err(DraftConflict); }
      draft := None;
      return Ok(());
    }
  }

  // loadHistory: the highest revision of all .json files, in any order.
  method LoadHistory(disk: Disk) returns (latest: nat, updated: int)
    ensures IsLatest(disk.State(), latest, updated)
  {
    latest, updated := 0, 0;
    var todo := disk.json.Keys;
    while todo != {}
      invariant todo <= disk.json.Keys
      invariant forall k :: k in disk.json && k !in todo ==> disk.json[k].revision <= latest
      invariant latest > 0 ==> exists k :: k in disk.json && disk.json[k].revision == latest && disk.json[k].createdAt == updated
      invariant latest == 0 ==> updated == 0
      decreases todo
    {
      var k :| k in todo;
      if disk.json[k].revision > latest { latest, updated := disk.json[k].revision, disk.json[k].createdAt; }
      todo := todo - {k};
    }
  }

  // New for a managed path, given the bytes just read from it.
  method Open(disk: Disk, now: int, fault: Fault) returns (r: Result<Store, Error>, ghost latest: nat, ghost updated: int)
    modifies disk
    ensures IsLatest(old(disk.State()), latest, updated)
    ensures var (s, d) := OpenNext(old(disk.State()), latest, updated, now, fault);
            && disk.State() == d
            && (if s.Ok? then r.Ok? && fresh(r.value) && r.value.managed && r.value.disk == disk && r.value.State() == s.value
                else r == Err(s.error))
  {
    var top, stamp := LoadHistory(disk);
    latest, updated := top, stamp;
    var raw := disk.active;
    if top > 0 {
      if top !in disk.yaml { return Err(IOError), latest, updated; }
      if disk.yaml[top] == raw {
        var same := new Store(true, disk, StoreState(raw, top, stamp, None, false));
        return Ok(same), latest, updated;
      }
    }
    var w := disk.WriteRevision(BootMeta(top, now), raw, fault);
    match w {
      case Failed => return Err(IOError), latest, updated;
      case Died => return Err(Crashed), latest, updated;
      case Done =>
        var store := new Store(true, disk, StoreState(raw, top + 1, now, None, false));
        return Ok(store), latest, updated;
    }
  }

  // ------------------------------------------------------------- invariants

  // Published revisions are exactly 1..n, each with its bytes and its parent.
  ghost predicate HistoryUpTo(d: DiskState, n: nat) {
    && (forall r :: r in d.json <==> 1 <= r <= n)
    && (forall r :: r in d.json ==> r in d.yaml && d.json[r].revision == r && d.json[r].parent == r - 1)
  }

  ghost function UpdatedAt(d: DiskState, n: nat): int
    requires HistoryUpTo(d, n)
  {
    if n == 0 then 0 else d.json[n].createdAt
  }

  ghost predicate Sound(d: DiskState) {
    exists n :: HistoryUpTo(d, n)
  }

  // A running store is at the newest revision and holds its bytes.
  ghost predicate InStep(s: StoreState, d: DiskState) {
    s.revision >= 1 && HistoryUpTo(d, s.revision) && s.raw == d.yaml[s.revision]
  }

  // Nothing published is lost or altered.
  ghost predicate Keeps(d: DiskState, d': DiskState) {
    forall r :: r in d.json ==> r in d'.json && d'.json[r] == d.json[r] && r in d.yaml && r in d'.yaml && d'.yaml[r] == d.yaml[r]
  }

  // Writing revision n + 1 publishes it, or publishes nothing; either way
  // revisions 1..n are untouched.
  lemma WriteOutcome(d: DiskState, n: nat, meta: Meta, raw: Bytes, fault: Fault)
    requires HistoryUpTo(d, n) && meta.revision == n + 1 && meta.parent == n
    ensures var (w, d') := WriteNext(d, meta, raw, fault);
            && d'.active == d.active && Keeps(d, d')
            && (w != Done ==> HistoryUpTo(d', n) && d'.json == d.json && !fault.Healthy?)
            && (w == Done ==> HistoryUpTo(d', n + 1) && d'.json == d.json[n + 1 := meta] && d'.yaml == d.yaml[n + 1 := raw])
  {
    assert n + 1 !in d.json;
    assert d.json - {n + 1} == d.json;
  }

  // Withdrawing the revision just written restores the published history.
  lemma RemoveOutcome(d: DiskState, n: nat, d': DiskState, meta: Meta)
    requires HistoryUpTo(d, n) && Keeps(d, d') && d'.json == d.json[n + 1 := meta]
    ensures var back := Remove(d', n + 1);
            HistoryUpTo(back, n) && back.json == d.json && Keeps(d, back) && back.active == d'.active
  {
    assert n + 1 !in d.json;
    assert d'.json - {n + 1} == d.json;
  }

  // Opening repairs whatever state the history was left in: the newest
  // revision found is n, and afterwards the newest one is the active file.
  lemma OpenRestores(d: DiskState, n: nat, latest: nat, updated: int, now: int, fault: Fault)
    requires HistoryUpTo(d, n) && IsLatest(d, latest, updated)
    ensures latest == n && updated == UpdatedAt(d, n)
    ensures var (s, d') := OpenNext(d, latest, updated, now, fault);
            && Sound(d') && Keeps(d, d') && d'.active == d.active
            && (s.Ok? ==> InStep(s.value, d') && d'.active == s.value.raw)
            && (fault.Healthy? ==> s.Ok?)
  {
    assert latest == n && updated == UpdatedAt(d, n) by {
      if latest > 0 { var k :| k in d.json && d.json[k].revision == latest && d.json[k].createdAt == updated; }
      if n > 0 { assert d.json[n].revision == n; }
    }
    if n == 0 || d.yaml[n] != d.active {
      WriteOutcome(d, n, BootMeta(n, now), d.active, fault);
    }
  }

  // Apply through every fault: the history stays sound and keeps what was
  // published; without a crash the store stays in step, and a failure leaves
  // file, store and published history as they were.
  lemma ApplySurvives(s: StoreState, d: DiskState, req: ApplyRequest, now: int, fault: Fault)
    requires InStep(s, d)
    ensures var (r, s', d') := ApplyNext(s, d, req, now, fault);
            && Sound(d') && Keeps(d, d')
            && (r != Err(Crashed) ==> InStep(s', d'))
            && (r.Err? && r.error != Crashed ==> s' == s && d'.active == d.active && d'.json == d.json)
            && (r.Ok? ==> && d.active == s.raw && d'.active == req.raw && s'.revision == s.revision + 1
                          && HistoryGetOf(d', s'.revision) == Ok((r.value.meta, req.raw))
                          && d'.json.Keys == d.json.Keys + {s'.revision})
  {
    var n, meta := s.revision, ApplyMeta(s, req, now);
    WriteOutcome(d, n, meta, req.raw, fault);
    if WriteNext(d, meta, req.raw, fault).0 == Done {
      WrittenOutcome(s, d, req, now, fault);
      if fault != FailsAt(2) && fault != CrashesAt(2) {
        assert (d.json[n + 1 := meta]).Keys == d.json.Keys + {n + 1};
      }
    }
  }

  // An apply is accepted exactly when the file is still what the store last
  // read, the caller names no revision or the current one, and the text is
  // not too long. Refused, it changes nothing, whatever would have gone
  // wrong; accepted without a fault, it publishes the next revision.
  lemma ApplyAcceptsIff(s: StoreState, d: DiskState, req: ApplyRequest, now: int, fault: Fault)
    ensures var (r, s', d') := ApplyNext(s, d, req, now, fault);
            var current := d.active == s.raw && (req.expectedRevision == 0 || req.expectedRevision == s.revision);
            if !current || |req.raw| > 131_072 then
              r == Err(if !current then Conflict else TooLarge) && s' == s && d' == d
            else if fault.Healthy? then
              var meta := Meta(s.revision + 1, s.revision, if req.action != "" then req.action else "apply", req.actor, req.reason,
                               req.rollbackTarget, req.changed, req.danger, req.restartRequired, now);
              && r == Ok(ApplyResult(s.revision + 1, s.revision, meta, req.restartRequired))
              && s' == StoreState(req.raw, s.revision + 1, now, None, true)
              && d' == DiskState(req.raw, d.yaml[s.revision + 1 := req.raw], d.json[s.revision + 1 := meta])
            else r.Err? ==> r.error == IOError || r.error == Crashed
  {
  }

  // What a boot records: nothing if the newest revision is the active file,
  // else the file as a bootstrap or as an edit made outside.
  lemma OpenRecords(d: DiskState, n: nat, updated: int, now: int)
    requires HistoryUpTo(d, n) && IsLatest(d, n, updated)
    ensures var (s, d') := OpenNext(d, n, updated, now, Healthy);
            if n > 0 && d.yaml[n] == d.active then s == Ok(StoreState(d.active, n, updated, None, false)) && d' == d
            else
              var meta := Meta(n + 1, n, if n == 0 then "bootstrap" else "external", "", "", 0, 0, "", false, now);
              && s == Ok(StoreState(d.active, n + 1, now, None, false))
              && d' == DiskState(d.active, d.yaml[n + 1 := d.active], d.json[n + 1 := meta])
  {
  }

  lemma HistoryGetIff(d: DiskState, r: nat)
    ensures match HistoryGetOf(d, r)
            case Ok((meta, raw)) => r > 0 && r in d.json && r in d.yaml && meta == d.json[r] && raw == d.yaml[r]
            case Err(e) => if r == 0 || r !in d.json then e == RevisionNotFound else r !in d.yaml && e == IOError
  {
  }

  // The revision is published: what becomes of it at the last replacement.
  lemma WrittenOutcome(s: StoreState, d: DiskState, req: ApplyRequest, now: int, fault: Fault)
    requires InStep(s, d) && WriteNext(d, ApplyMeta(s, req, now), req.raw, fault).0 == Done
    ensures var n, meta, written := s.revision, ApplyMeta(s, req, now), WriteNext(d, ApplyMeta(s, req, now), req.raw, fault).1;
            var back, d' := Remove(written, n + 1), written.(active := req.raw);
            && HistoryUpTo(back, n) && back.json == d.json && Keeps(d, back) && back.active == d.active
            && HistoryUpTo(d', n + 1) && Keeps(d, d') && d'.json == d.json[n + 1 := meta] && d'.yaml == d.yaml[n + 1 := req.raw]
  {
    var n, meta := s.revision, ApplyMeta(s, req, now);
    WriteOutcome(d, n, meta, req.raw, fault);
    var written := WriteNext(d, meta, req.raw, fault).1;
    RemoveOutcome(d, n, written, meta);
    assert HistoryUpTo(written.(active := req.raw), n + 1);
  }

  // ---------------------------------------------------------------- runs

  // A boot finds `latest`, recorded at `updated`, in the history.
  datatype Event =
    | Boot(latest: nat, updated: int, now: int, fault: Fault)
    | Apply(req: ApplyRequest, now: int, fault: Fault)
    | Edit(bytes: Bytes)

  // The disk, and the store while a process is alive.
  datatype World = World(disk: DiskState, store: Option<StoreState>)

  // A crash, or an error from New, leaves no process behind.
  ghost predicate Step(w: World, e: Event, w': World) {
    match e
    case Edit(bytes) => w' == w.(disk := w.disk.(active := bytes))
    case Boot(latest, updated, now, fault) =>
      IsLatest(w.disk, latest, updated)
      && var (s, d) := OpenNext(w.disk, latest, updated, now, fault);
         w' == World(d, if s.Ok? then Some(s.value) else None)
    case Apply(req, now, fault) =>
      if w.store.None? then w' == w
      else
        var (r, s, d) := ApplyNext(w.store.value, w.disk, req, now, fault);
        w' == World(d, if r == Err(Crashed) then None else Some(s))
  }

  ghost predicate WorldInv(w: World) {
    Sound(w.disk) && (w.store.Some? ==> InStep(w.store.value, w.disk))
  }

  lemma BootKeepsWorld(w: World, e: Event, w': World)
    requires WorldInv(w) && e.Boot? && Step(w, e, w')
    ensures WorldInv(w') && Keeps(w.disk, w'.disk) && w'.disk.active == w.disk.active
    ensures e.fault.Healthy? ==> w'.store.Some?
    ensures w'.store.Some? ==> w'.disk.active == w'.disk.yaml[w'.store.value.revision]
  {
    var n :| HistoryUpTo(w.disk, n);
    OpenRestores(w.disk, n, e.latest, e.updated, e.now, e.fault);
  }

  lemma StepKeepsWorld(w: World, e: Event, w': World)
    requires WorldInv(w) && Step(w, e, w')
    ensures WorldInv(w') && Keeps(w.disk, w'.disk)
  {
    match e {
      case Edit(bytes) =>
        var n :| HistoryUpTo(w.disk, n);
        assert HistoryUpTo(w'.disk, n);
      case Boot(_, _, _, _) => BootKeepsWorld(w, e, w');
      case Apply(req, now, fault) =>
        if w.store.Some? { ApplySurvives(w.store.value, w.disk, req, now, fault); }
    }
  }

  // Any run from an empty history and no process.
  ghost predicate IsRun(ws: seq<World>, events: seq<Event>) {
    && |ws| == |events| + 1
    && ws[0].disk.json == map[] && ws[0].store.None?
    && forall i :: 0 <= i < |events| ==> Step(ws[i], events[i], ws[i + 1])
  }

  // Over any run of boots, applies and outside edits, with every replacement
  // allowed to fail or to be cut off by a crash: the history is sound at
  // every point, and what was published at one point is published unchanged
  // at every later one.
  lemma {:induction false} HistoryIsAppendOnly(ws: seq<World>, events: seq<Event>, i: nat, j: nat)
    requires IsRun(ws, events) && i <= j < |ws|
    ensures WorldInv(ws[j]) && Keeps(ws[i].disk, ws[j].disk)
    decreases j
  {
    if j == 0 {
      assert HistoryUpTo(ws[0].disk, 0);
    } else {
      HistoryIsAppendOnly(ws, events, if i < j then i else j - 1, j - 1);
      StepKeepsWorld(ws[j - 1], events[j - 1], ws[j]);
    }
  }

  // Whatever happened before, booting without a fault leaves a running store
  // whose newest revision is the active file.
  lemma {:induction false} ReopeningRestores(ws: seq<World>, events: seq<Event>, i: nat)
    requires IsRun(ws, events) && i < |events| && events[i].Boot? && events[i].fault.Healthy?
    ensures ws[i + 1].store.Some?
    ensures var s, d := ws[i + 1].store.value, ws[i + 1].disk;
            InStep(s, d) && d.active == d.yaml[s.revision] && d.active == ws[i].disk.active
  {
    HistoryIsAppendOnly(ws, events, i, i);
    BootKeepsWorld(ws[i], events[i], ws[i + 1]);
  }

  // An applied revision can be fetched with its bytes at any later time.
  lemma {:induction false} AppliedStaysRetrievable(ws: seq<World>, events: seq<Event>, i: nat, j: nat)
    requires IsRun(ws, events) && i < j < |ws| && events[i].Apply? && ws[i].store.Some?
    ensures var (r, _, _) := ApplyNext(ws[i].store.value, ws[i].disk, events[i].req, events[i].now, events[i].fault);
            r.Ok? ==> HistoryGetOf(ws[j].disk, r.value.revision) == Ok((r.value.meta, events[i].req.raw))
  {
    HistoryIsAppendOnly(ws, events, i, i);
    HistoryIsAppendOnly(ws, events, i + 1, j);
    ApplySurvives(ws[i].store.value, ws[i].disk, events[i].req, events[i].now, events[i].fault);
  }

  // No lost update: an apply that names revision n succeeds only while n is
  // the newest published revision and the active file holds its bytes, the
  // same ones it had at any earlier point of the run.
  lemma {:induction false} ApplyNeverOverwritesUnseen(ws: seq<World>, events: seq<Event>, i: nat, seen: nat, n: nat)
    requires IsRun(ws, events) && seen <= i < |events| && events[i].Apply? && ws[i].store.Some?
    requires events[i].req.expectedRevision == n > 0 && n in ws[seen].disk.json
    ensures var (r, s', d') := ApplyNext(ws[i].store.value, ws[i].disk, events[i].req, events[i].now, events[i].fault);
            r.Ok? ==>
              && (forall k :: k in ws[i].disk.json ==> k <= n) && n in ws[i].disk.yaml && n in ws[seen].disk.yaml
              && ws[i].disk.active == ws[i].disk.yaml[n] == ws[seen].disk.yaml[n]
              && r.value.revision == n + 1 && r.value.meta.parent == n && d'.active == events[i].req.raw
  {
    HistoryIsAppendOnly(ws, events, seen, i);
    ApplyAcceptsIff(ws[i].store.value, ws[i].disk, events[i].req, events[i].now, events[i].fault);
    ApplySurvives(ws[i].store.value, ws[i].disk, events[i].req, events[i].now, events[i].fault);
  }

  // ------------------------------------------------------- draft editing

  // A save goes through exactly on the current revision, within the size
  // limit, and either starts a draft or names the one there with its revision.
  lemma SaveAcceptsIff(s: StoreState, baseRevision: nat, id: string, expected: nat, raw: Bytes, freshID: string, now: int)
    ensures var (r, s') := SaveDraftNext(s, baseRevision, id, expected, raw, freshID, now);
            var current := baseRevision == 0 || baseRevision == s.revision;
            var known := if s.draft.Some? then id != "" && s.draft.value.id == id && s.draft.value.revision == expected else id == "";
            && (r.Ok? <==> |raw| <= 131_072 && current && known)
            && (r.Err? ==>
                  s' == s
                  && r.error == if |raw| > 131_072 then TooLarge else if !current then Conflict
                                else if s.draft.Some? then DraftConflict else DraftNotFound)
            && (r.Ok? ==>
                  s' == s.(draft := Some(r.value))
                  && r.value == if s.draft.Some? then Draft(id, expected + 1, s.revision, raw, now, false, 0)
                                else Draft(freshID, 1, s.revision, raw, now, false, 0))
  {
  }

  // Fetching, marking and discarding a draft.
  lemma DraftAnswers(s: StoreState, id: string, expected: nat, diffRevision: nat, now: int)
    ensures var (r, s') := GetDraftNext(s, id, now);
            var there := s.draft.Some? && (id == "" || s.draft.value.id == id);
            var stale := there && now > s.draft.value.updatedAt + 86_400_000_000_000;
            && r == (if !there then Err(DraftNotFound) else if stale then Err(DraftExpired) else Ok(s.draft.value))
            && s' == if stale then s.(draft := None) else s
    ensures var (r, s') := MarkDraftNext(s, id, expected, diffRevision);
            var there := s.draft.Some? && s.draft.value.id == id;
            && r == (if !there then Err(DraftNotFound) else if s.draft.value.revision != expected then Err(DraftConflict) else Ok(()))
            && s' == if r.Ok? then s.(draft := Some(s.draft.value.(validated := true, diffRevision := diffRevision))) else s
    ensures var (r, s') := DiscardDraftNext(s, id, expected);
            var there := s.draft.Some? && s.draft.value.id == id;
            && r == (if !there then Err(DraftNotFound)
                     else if expected != 0 && expected != s.draft.value.revision then Err(DraftConflict) else Ok(()))
            && s' == if r.Ok? then s.(draft := None) else s
  {
  }

  datatype DraftOp =
    | Save(baseRevision: nat, id: string, expected: nat, raw: Bytes, freshID: string, now: int)
    | Get(id: string, now: int)
    | Mark(id: string, expected: nat, diffRevision: nat)
    | Discard(id: string, expected: nat)

  function DraftNext(s: StoreState, op: DraftOp): StoreState {
    match op
    case Save(base, id, expected, raw, freshID, now) => SaveDraftNext(s, base, id, expected, raw, freshID, now).1
    case Get(id, now) => GetDraftNext(s, id, now).1
    case Mark(id, expected, diff) => MarkDraftNext(s, id, expected, diff).1
    case Discard(id, expected) => DiscardDraftNext(s, id, expected).1
  }

  function DraftRun(s: StoreState, ops: seq<DraftOp>): StoreState {
    if ops == [] then s else DraftNext(DraftRun(s, ops[..|ops| - 1]), ops[|ops| - 1])
  }

  // The draft is gone, another one, a later revision, or still what was saved.
  ghost predicate LaterOrSame(s: StoreState, d: Draft) {
    s.draft.Some? && s.draft.value.id == d.id ==>
      s.draft.value.revision > d.revision
      || s.draft.value.(validated := d.validated, diffRevision := d.diffRevision) == d
  }

  lemma {:induction false} DraftsMoveForward(s: StoreState, d: Draft, ops: seq<DraftOp>)
    requires s.draft == Some(d) && d.id != ""
    requires forall op :: op in ops && op.Save? ==> op.freshID != d.id
    ensures LaterOrSame(DraftRun(s, ops), d) && DraftRun(s, ops).revision == s.revision
  {
    if ops != [] { DraftsMoveForward(s, d, ops[..|ops| - 1]); }
  }

  // No lost update: whatever others did since this draft revision was saved,
  // a later save that names it succeeds only on top of exactly those bytes.
  lemma {:induction false} SaveNeverOverwritesUnseen(s: StoreState, d: Draft, ops: seq<DraftOp>, baseRevision: nat,
                                                     raw: Bytes, freshID: string, now: int)
    requires s.draft == Some(d) && d.id != ""
    requires forall op :: op in ops && op.Save? ==> op.freshID != d.id
    ensures var before := DraftRun(s, ops);
            var (r, after) := SaveDraftNext(before, baseRevision, d.id, d.revision, raw, freshID, now);
            r.Ok? ==> && before.draft.Some? && before.draft.value.raw == d.raw && before.draft.value.updatedAt == d.updatedAt
                      && r.value.id == d.id && r.value.revision == d.revision + 1 && after.draft == Some(r.value)
  {
    DraftsMoveForward(s, d, ops);
  }
}
