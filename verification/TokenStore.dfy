/** The token and device tables (`internal/store/sqlitestore/tokens.go`, `devices.go` and the
    queries behind them).  Every transaction is one atomic step on the tables. */
module TokenStore {
  import opened Text
  import opened Timestamps
  import opened Auth

  datatype DeviceRow = DeviceRow(name: string, platform: string, shell: string, revokedAt: Option<Instant>)

  /** The tables: tokens by their unique lookup, devices by id, profile ids, and which device is in
      which profile. */
  datatype Db = Db(tokens: map<string, Token>, devices: map<string, DeviceRow>, profiles: set<string>,
                   memberships: set<(string, string)>)

  datatype StoreError = NotFound | Conflict | InvalidReference

  datatype Outcome = Done | Born(deviceId: string) | Refused(error: StoreError)

  datatype NewDevice = NewDevice(id: string, name: string, platform: string, shell: string)

  // ----- The steps -----

  predicate IdTaken(db: Db, id: string) {
    exists l :: l in db.tokens && db.tokens[l].id == id
  }

  function AfterCreate(db: Db, lookup: string, t: Token): (Db, Outcome) {
    if lookup in db.tokens || IdTaken(db, t.id) then (db, Refused(Conflict))
    else (db.(tokens := db.tokens[lookup := t]), Done)
  }

  /** The WHERE clause of the consuming UPDATE; timestamps are compared as text. */
  predicate Consumable(t: Token, now: Instant) {
    && t.kind == Enrollment && t.usedAt == None && t.revokedAt == None
    && SqlLive(if t.expiresAt.None? then None else Some(FormatTime(t.expiresAt.value)), FormatTime(now))
  }

  /** The error of adding the device to the profiles one by one, if there is one. */
  function JoinError(profiles: set<string>, joined: set<string>, ids: seq<string>): Option<StoreError>
    decreases |ids|
  {
    if ids == [] then None
    else if ids[0] !in profiles then Some(InvalidReference)
    else if ids[0] in joined then Some(Conflict)
    else JoinError(profiles, joined + {ids[0]}, ids[1..])
  }

  function DeviceId(dev: NewDevice, freshId: string): string {
    if dev.id == "" then freshId else dev.id
  }

  /** Marks the token used and creates the device with its memberships, or changes nothing. */
  function AfterConsume(db: Db, lookup: string, dev: NewDevice, freshId: string, now: Instant): (Db, Outcome) {
    if lookup !in db.tokens then (db, Refused(NotFound))
    else
      var t := db.tokens[lookup];
      var id := DeviceId(dev, freshId);
      if !Consumable(t, now) then (db, Refused(Conflict))
      else if id in db.devices then (db, Refused(Conflict))
      else
        match JoinError(db.profiles, Memberships(db.memberships, id), t.profileIds)
        case Some(e) => (db, Refused(e))
        case None =>
          (Db(db.tokens[lookup := t.(usedAt := Some(now), subjectId := id)],
              db.devices[id := DeviceRow(dev.name, dev.platform, dev.shell, None)],
              db.profiles, db.memberships + set p | p in t.profileIds :: (id, p)),
           Born(id))
  }

  /** The profiles a device is in. */
  function Memberships(rows: set<(string, string)>, device: string): set<string> {
    set r | r in rows && r.0 == device :: r.1
  }

  function AfterRevoke(db: Db, id: string, at: Instant): (Db, Outcome) {
    if !IdTaken(db, id) then (db, Refused(NotFound))
    else
      (db.(tokens := map l | l in db.tokens ::
             if db.tokens[l].id == id then db.tokens[l].(revokedAt := Some(at)) else db.tokens[l]), Done)
  }

  /** Only rows with revoked_at IS NULL are touched. */
  function AfterRevokeSubject(db: Db, kind: TokenKind, subject: string, at: Instant): Db {
    db.(tokens := map l | l in db.tokens ::
          var t := db.tokens[l];
          if t.kind == kind && t.subjectId == subject && t.revokedAt == None then t.(revokedAt := Some(at)) else t)
  }

  function AfterDelete(db: Db, id: string): (Db, Outcome) {
    if id !in db.devices then (db, Refused(NotFound))
    else (db.(devices := db.devices - {id}, memberships := set m | m in db.memberships && m.0 != id), Done)
  }

  function AfterRevokeDevice(db: Db, id: string, at: Instant): (Db, Outcome) {
    if id !in db.devices then (db, Refused(NotFound))
    else (db.(devices := db.devices[id := db.devices[id].(revokedAt := Some(at))]), Done)
  }

  // ----- What each step changes, row by row -----

  /** The tables apart from the tokens. */
  predicate SameDevices(a: Db, b: Db) {
    a.devices == b.devices && a.profiles == b.profiles && a.memberships == b.memberships
  }

  /** Inserting adds exactly this row, unless its lookup or its id is taken. */
  lemma CreateEffect(db: Db, lookup: string, t: Token)
    ensures var (next, r) := AfterCreate(db, lookup, t);
            && SameDevices(next, db)
            && (r == Done <==> lookup !in db.tokens && forall l :: l in db.tokens ==> db.tokens[l].id != t.id)
            && (r != Done ==> r == Refused(Conflict) && next == db)
            && (r == Done ==> lookup in next.tokens && next.tokens[lookup] == t)
            && (forall l :: l != lookup ==> (l in next.tokens <==> l in db.tokens))
            && (forall l :: l != lookup && l in db.tokens ==> next.tokens[l] == db.tokens[l])
  {
  }

  /** Revoking a token sets the time on every row with the id, whether it was revoked before or not, and
      changes nothing else. */
  lemma RevokeEffect(db: Db, id: string, at: Instant)
    ensures var (next, r) := AfterRevoke(db, id, at);
            && SameDevices(next, db) && next.tokens.Keys == db.tokens.Keys
            && (r == Done <==> exists l :: l in db.tokens && db.tokens[l].id == id)
            && (r != Done ==> r == Refused(NotFound))
            && forall l :: l in db.tokens ==>
                 next.tokens[l] == if db.tokens[l].id == id then db.tokens[l].(revokedAt := Some(at)) else db.tokens[l]
  {
    if !IdTaken(db, id) {
      assert forall l :: l in db.tokens ==> db.tokens[l].id != id;
    }
  }

  /** Revoking by subject sets the time on exactly the unrevoked rows of the kind and the subject. */
  lemma RevokeSubjectEffect(db: Db, kind: TokenKind, subject: string, at: Instant)
    ensures var next := AfterRevokeSubject(db, kind, subject, at);
            && SameDevices(next, db) && next.tokens.Keys == db.tokens.Keys
            && forall l :: l in db.tokens ==>
                 var t := db.tokens[l];
                 && (t.kind == kind && t.subjectId == subject && t.revokedAt == None ==>
                       next.tokens[l] == t.(revokedAt := Some(at)))
                 && (t.kind != kind || t.subjectId != subject || t.revokedAt != None ==> next.tokens[l] == t)
  {
  }

  /** Deleting a device removes its row and its memberships, and nothing else. */
  lemma DeleteEffect(db: Db, id: string)
    ensures var (next, r) := AfterDelete(db, id);
            && next.tokens == db.tokens && next.profiles == db.profiles
            && (r == Done <==> id in db.devices) && (r != Done ==> r == Refused(NotFound) && next == db)
            && (r == Done ==>
                  && (forall d :: d in next.devices <==> d in db.devices && d != id)
                  && (forall d :: d in next.devices ==> next.devices[d] == db.devices[d])
                  && (forall d, p :: (d, p) in next.memberships <==> (d, p) in db.memberships && d != id))
  {
  }

  /** Revoking a device marks its row with the time, and nothing else. */
  lemma RevokeDeviceEffect(db: Db, id: string, at: Instant)
    ensures var (next, r) := AfterRevokeDevice(db, id, at);
            && next.tokens == db.tokens && next.profiles == db.profiles && next.memberships == db.memberships
            && next.devices.Keys == db.devices.Keys
            && (r == Done <==> id in db.devices) && (r != Done ==> r == Refused(NotFound) && next == db)
            && forall d :: d in db.devices ==>
                 next.devices[d] == if d == id then db.devices[d].(revokedAt := Some(at)) else db.devices[d]
  {
  }

  /** A birth adds the device as it was given, not revoked, and its memberships in the profiles of the token;
      it marks the token used at this instant by this device; and nothing else changes. */
  lemma ConsumeEffect(db: Db, lookup: string, dev: NewDevice, freshId: string, now: Instant)
    requires AfterConsume(db, lookup, dev, freshId, now).1.Born?
    ensures lookup in db.tokens
    ensures var (next, r) := AfterConsume(db, lookup, dev, freshId, now);
            var id, t := r.deviceId, db.tokens[lookup];
            && id == (if dev.id == "" then freshId else dev.id) && id !in db.devices
            && next.devices == db.devices[id := DeviceRow(dev.name, dev.platform, dev.shell, None)]
            && (forall d, p :: (d, p) in next.memberships <==>
                  (d, p) in db.memberships || (d == id && p in t.profileIds))
            && next.profiles == db.profiles && next.tokens.Keys == db.tokens.Keys
            && next.tokens[lookup] == t.(usedAt := Some(now), subjectId := id)
            && (forall l :: l in db.tokens && l != lookup ==> next.tokens[l] == db.tokens[l])
  {
    hide FormatTime, SqlLive, JoinError, Memberships;
  }

  /** Why consuming is refused. */
  lemma ConsumeRefusal(db: Db, lookup: string, dev: NewDevice, freshId: string, now: Instant)
    ensures var r := AfterConsume(db, lookup, dev, freshId, now).1;
            && (r == Refused(NotFound) <==> lookup !in db.tokens)
            && (r == Refused(InvalidReference) ==> exists p :: p in db.tokens[lookup].profileIds && p !in db.profiles)
            && (lookup in db.tokens && (!Consumable(db.tokens[lookup], now) || DeviceId(dev, freshId) in db.devices) ==>
                  r == Refused(Conflict))
  {
    hide Consumable, Memberships;
    if lookup in db.tokens {
      var joined := Memberships(db.memberships, DeviceId(dev, freshId));
      JoinErrorKind(db.profiles, joined, db.tokens[lookup].profileIds);
    }
  }

  lemma {:induction false} JoinErrorKind(profiles: set<string>, joined: set<string>, ids: seq<string>)
    ensures JoinError(profiles, joined, ids) != Some(NotFound)
    ensures JoinError(profiles, joined, ids) == Some(InvalidReference) ==> exists p :: p in ids && p !in profiles
    decreases |ids|
  {
    if ids != [] {
      JoinErrorKind(profiles, joined + {ids[0]}, ids[1..]);
      assert ids[0] in ids;
    }
  }

  // ----- The tables in place -----

  /** Inserts one device_profiles row per profile, up to the first that cannot be inserted. */
  method JoinProfiles(memberships: set<(string, string)>, profiles: set<string>, id: string, ids: seq<string>)
    returns (rows: set<(string, string)>, error: Option<StoreError>)
    ensures error == JoinError(profiles, Memberships(memberships, id), ids)
    ensures error.None? ==> rows == memberships + set p | p in ids :: (id, p)
  {
    rows := memberships;
    for i := 0 to |ids|
      invariant rows == memberships + set p | p in ids[..i] :: (id, p)
      invariant JoinError(profiles, Memberships(rows, id), ids[i..])
                == JoinError(profiles, Memberships(memberships, id), ids)
    {
      var p := ids[i];
      assert ids[i..][0] == p && ids[i..][1..] == ids[i + 1..];
      assert ids[..i + 1] == ids[..i] + [p];
      if p !in profiles {
        return rows, Some(InvalidReference);
      }
      MembershipsMember(rows, id, p);
      if (id, p) in rows {
        return rows, Some(Conflict);
      }
      MembershipsAdd(rows, id, p);
      rows := rows + {(id, p)};
    }
    assert ids[..|ids|] == ids;
    return rows, None;
  }

  class Store {
    var tokens: map<string, Token>
    var devices: map<string, DeviceRow>
    var profiles: set<string>
    var memberships: set<(string, string)>

    constructor (db: Db)
      ensures Contents() == db
    {
      tokens, devices, profiles, memberships := db.tokens, db.devices, db.profiles, db.memberships;
    }

    function Contents(): Db
      reads this
    {
      Db(tokens, devices, profiles, memberships)
    }

    method Create(lookup: string, t: Token) returns (r: Outcome)
      modifies this
      ensures (Contents(), r) == AfterCreate(old(Contents()), lookup, t)
    {
      if lookup in tokens || IdTaken(Contents(), t.id) {
        return Refused(Conflict);
      }
      tokens := tokens[lookup := t];
      return Done;
    }

    /** One transaction: the tables are written only at the commit. */
    method ConsumeEnrollment(lookup: string, dev: NewDevice, freshId: string, now: Instant) returns (r: Outcome)
      modifies this
      ensures (Contents(), r) == AfterConsume(old(Contents()), lookup, dev, freshId, now)
    {
      if lookup !in tokens {
        return Refused(NotFound);
      }
      var tok := tokens[lookup];
      var id := DeviceId(dev, freshId);
      if !Consumable(tok, now) {
        return Refused(Conflict);
      }
      var txTokens := tokens[lookup := tok.(usedAt := Some(now), subjectId := id)];
      if id in devices {
        return Refused(Conflict);
      }
      var txDevices := devices[id := DeviceRow(dev.name, dev.platform, dev.shell, None)];
      var txMemberships, error := JoinProfiles(memberships, profiles, id, tok.profileIds);
      if error.Some? {
        return Refused(error.value);
      }
      tokens, devices, memberships := txTokens, txDevices, txMemberships;
      return Born(id);
    }

    method Revoke(id: string, at: Instant) returns (r: Outcome)
      modifies this
      ensures (Contents(), r) == AfterRevoke(old(Contents()), id, at)
    {
      if !IdTaken(Contents(), id) {
        return Refused(NotFound);
      }
      tokens := map l | l in tokens :: if tokens[l].id == id then tokens[l].(revokedAt := Some(at)) else tokens[l];
      return Done;
    }

    method RevokeSubject(kind: TokenKind, subject: string, at: Instant)
      modifies this
      ensures Contents() == AfterRevokeSubject(old(Contents()), kind, subject, at)
    {
      tokens := map l | l in tokens ::
        if tokens[l].kind == kind && tokens[l].subjectId == subject && tokens[l].revokedAt == None
        then tokens[l].(revokedAt := Some(at)) else tokens[l];
    }

    method DeleteDevice(id: string) returns (r: Outcome)
      modifies this
      ensures (Contents(), r) == AfterDelete(old(Contents()), id)
    {
      if id !in devices {
        return Refused(NotFound);
      }
      devices := devices - {id};
      memberships := set m | m in memberships && m.0 != id;
      return Done;
    }

    method RevokeDevice(id: string, at: Instant) returns (r: Outcome)
      modifies this
      ensures (Contents(), r) == AfterRevokeDevice(old(Contents()), id, at)
    {
      if id !in devices {
        return Refused(NotFound);
      }
      devices := devices[id := devices[id].(revokedAt := Some(at))];
      return Done;
    }
  }

  lemma MembershipsMember(rows: set<(string, string)>, device: string, p: string)
    ensures p in Memberships(rows, device) <==> (device, p) in rows
  {
    if p in Memberships(rows, device) {
      var r :| r in rows && r.0 == device && r.1 == p;
      assert r == (device, p);
    }
    if (device, p) in rows {
      assert (device, p).0 == device && (device, p).1 == p;
    }
  }

  lemma MembershipsAdd(rows: set<(string, string)>, device: string, p: string)
    ensures Memberships(rows + {(device, p)}, device) == Memberships(rows, device) + {p}
  {
    forall q ensures q in Memberships(rows + {(device, p)}, device) <==> q in Memberships(rows, device) + {p} {
      MembershipsMember(rows + {(device, p)}, device, q);
      MembershipsMember(rows, device, q);
    }
  }

  // ----- Runs of interleaved transactions -----

  datatype Op =
    | OpCreate(lookup: string, token: Token)
    | OpConsume(lookup: string, dev: NewDevice, freshId: string, now: Instant)
    | OpRevoke(id: string, at: Instant)
    | OpRevokeSubject(kind: TokenKind, subject: string, at: Instant)
    | OpDeleteDevice(id: string)
    | OpRevokeDevice(id: string, at: Instant)

  function Apply(db: Db, op: Op): (Db, Outcome) {
    match op
    case OpCreate(lookup, token) => AfterCreate(db, lookup, token)
    case OpConsume(lookup, dev, freshId, now) => AfterConsume(db, lookup, dev, freshId, now)
    case OpRevoke(id, at) => AfterRevoke(db, id, at)
    case OpRevokeSubject(kind, subject, at) => (AfterRevokeSubject(db, kind, subject, at), Done)
    case OpDeleteDevice(id) => AfterDelete(db, id)
    case OpRevokeDevice(id, at) => AfterRevokeDevice(db, id, at)
  }

  function RunOps(db: Db, ops: seq<Op>): Db
    decreases |ops|
  {
    if ops == [] then db else RunOps(Apply(db, ops[0]).0, ops[1..])
  }

  /** A column never holds the zero time: writing the zero time stores NULL. */
  predicate SoundTimes(t: Token) {
    && (t.expiresAt.Some? ==> InRange(t.expiresAt.value) && t.expiresAt.value != ZERO_TIME)
    && (t.revokedAt.Some? ==> t.revokedAt.value != ZERO_TIME)
  }

  /** What every reachable state of the tables satisfies: sound times, and memberships only of
      existing devices in existing profiles. */
  predicate Sound(db: Db) {
    && (forall l :: l in db.tokens ==> SoundTimes(db.tokens[l]))
    && (forall m :: m in db.memberships ==> m.0 in db.devices && m.1 in db.profiles)
  }

  lemma StepSound(db: Db, op: Op)
    requires Sound(db) && Ordinary(op)
    ensures Sound(Apply(db, op).0)
  {
    hide FormatTime, SqlLive, InRange;
    if op.OpConsume? && Apply(db, op).1.Born? {
      var t := db.tokens[op.lookup];
      JoinErrorExactly(db.profiles, Memberships(db.memberships, DeviceId(op.dev, op.freshId)), t.profileIds);
    }
  }

  lemma {:induction false} RunSound(db: Db, ops: seq<Op>)
    requires Sound(db) && AllOrdinary(ops)
    ensures Sound(RunOps(db, ops))
    decreases |ops|
  {
    if ops != [] {
      assert ops[0] in ops;
      StepSound(db, ops[0]);
      RunSound(Apply(db, ops[0]).0, ops[1..]);
    }
  }

  /** What callers do: tokens are created unused, and the clock never shows the zero time. */
  predicate Ordinary(op: Op) {
    match op
    case OpCreate(_, t) => t.usedAt == None && SoundTimes(t)
    case OpRevoke(_, at) => at != ZERO_TIME
    case OpRevokeSubject(_, _, at) => at != ZERO_TIME
    case _ => true
  }

  ghost predicate AllOrdinary(ops: seq<Op>) {
    forall op :: op in ops ==> Ordinary(op)
  }

  /** The devices born in a run, each with the lookup of the token that gave birth to it. */
  function Births(db: Db, ops: seq<Op>): seq<(string, string)>
    decreases |ops|
  {
    if ops == [] then []
    else
      var (next, r) := Apply(db, ops[0]);
      (if r.Born? then [(ops[0].lookup, r.deviceId)] else []) + Births(next, ops[1..])
  }

  predicate Used(db: Db, lookup: string) {
    lookup in db.tokens && db.tokens[lookup].usedAt.Some?
  }

  /** A refused step changes nothing. */
  lemma RefusedUnchanged(db: Db, op: Op)
    ensures Apply(db, op).1.Refused? ==> Apply(db, op).0 == db
  {
  }

  /** What one step does to the token with lookup l: it does not disappear, its kind and expiry stay,
      a revocation stays, it becomes used exactly when the step is the birth of a device from it,
      and a use is for ever, with the device it gave birth to. */
  ghost predicate StepKeeps(db: Db, op: Op, l: string) {
    var (next, r) := Apply(db, op);
    && (r.Born? ==> op.OpConsume?)
    && (l in db.tokens ==>
          && l in next.tokens && next.tokens[l].kind == db.tokens[l].kind
          && next.tokens[l].expiresAt == db.tokens[l].expiresAt
          && (Time(db.tokens[l].revokedAt) != ZERO_TIME ==> Time(next.tokens[l].revokedAt) != ZERO_TIME))
    && (Used(next, l) <==> Used(db, l) || (r.Born? && op.lookup == l))
    && (Used(db, l) ==>
          && next.tokens[l].usedAt == db.tokens[l].usedAt && next.tokens[l].subjectId == db.tokens[l].subjectId
          && !(r.Born? && op.lookup == l))
    && (r.Born? && op.lookup == l ==> next.tokens[l].subjectId == r.deviceId && next.tokens[l].kind == Enrollment)
  }

  lemma StepTokens(db: Db, op: Op, l: string)
    requires Ordinary(op)
    ensures StepKeeps(db, op, l)
  {
    hide FormatTime, SqlLive, JoinError, Memberships;
  }

  predicate BirthRecorded(db: Db, end: Db, lookup: string, device: string) {
    && !Used(db, lookup) && Used(end, lookup)
    && end.tokens[lookup].subjectId == device && end.tokens[lookup].kind == Enrollment
  }

  predicate BirthOf(born: seq<(string, string)>, l: string) {
    exists i :: 0 <= i < |born| && born[i].0 == l
  }

  predicate UseKept(db: Db, end: Db, l: string)
    requires Used(db, l)
  {
    Used(end, l) && end.tokens[l].subjectId == db.tokens[l].subjectId && end.tokens[l].kind == db.tokens[l].kind
  }

  /** In every interleaving, a token gives birth to at most one device; the used tokens are those that
      were used before and those that gave birth, and each records its device for ever. */
  lemma EnrollmentOnce(db: Db, ops: seq<Op>)
    requires AllOrdinary(ops)
    ensures var born, end := Births(db, ops), RunOps(db, ops);
            && (forall i, j :: 0 <= i < j < |born| ==> born[i].0 != born[j].0)
            && (forall i :: 0 <= i < |born| ==> BirthRecorded(db, end, born[i].0, born[i].1))
            && (forall l :: Used(end, l) ==> Used(db, l) || BirthOf(born, l))
            && (forall l :: Used(db, l) ==> UseKept(db, end, l))
  {
    hide Used, UseKept, BirthRecorded, RunOps, Births;
    var born, end := Births(db, ops), RunOps(db, ops);
    forall i, j | 0 <= i < j < |born| ensures born[i].0 != born[j].0 {
      BirthsDiffer(db, ops, i, j);
    }
    forall i | 0 <= i < |born| ensures BirthRecorded(db, end, born[i].0, born[i].1) {
      BirthsRecorded(db, ops, i);
    }
    forall l | Used(end, l) ensures Used(db, l) || BirthOf(born, l) {
      UsesAreBirths(db, ops, l);
    }
    forall l | Used(db, l) ensures UseKept(db, end, l) {
      UsesKept(db, ops, l);
    }
  }

  lemma {:induction false} UsesKept(db: Db, ops: seq<Op>, l: string)
    requires AllOrdinary(ops) && Used(db, l)
    ensures UseKept(db, RunOps(db, ops), l)
    decreases |ops|
  {
    hide Apply, Ordinary;
    if ops != [] {
      assert ops[0] in ops;
      StepTokens(db, ops[0], l);
      UsesKept(Apply(db, ops[0]).0, ops[1..], l);
    }
  }

  lemma {:induction false} UsesAreBirths(db: Db, ops: seq<Op>, l: string)
    requires AllOrdinary(ops) && Used(RunOps(db, ops), l)
    ensures Used(db, l) || BirthOf(Births(db, ops), l)
    decreases |ops|
  {
    hide Apply, Ordinary;
    if ops != [] {
      assert ops[0] in ops;
      var (next, r) := Apply(db, ops[0]);
      StepTokens(db, ops[0], l);
      UsesAreBirths(next, ops[1..], l);
      var born := Births(db, ops);
      if !Used(next, l) {
        var more := Births(next, ops[1..]);
        var i :| 0 <= i < |more| && more[i].0 == l;
        assert born[|born| - |more| + i].0 == l;
      } else if !Used(db, l) {
        assert born[0] == (ops[0].lookup, r.deviceId);
      }
    }
  }

  lemma {:induction false} BirthsRecorded(db: Db, ops: seq<Op>, i: nat)
    requires AllOrdinary(ops) && i < |Births(db, ops)|
    ensures BirthRecorded(db, RunOps(db, ops), Births(db, ops)[i].0, Births(db, ops)[i].1)
    decreases |ops|
  {
    hide Apply, Ordinary;
    assert ops[0] in ops;
    var (next, r) := Apply(db, ops[0]);
    var b := Births(db, ops)[i];
    StepTokens(db, ops[0], b.0);
    if r.Born? && i == 0 {
      UsesKept(next, ops[1..], b.0);
    } else {
      var k := if r.Born? then i - 1 else i;
      assert Births(next, ops[1..])[k] == b;
      BirthsRecorded(next, ops[1..], k);
    }
  }

  lemma {:induction false} BirthsDiffer(db: Db, ops: seq<Op>, i: nat, j: nat)
    requires AllOrdinary(ops) && i < j < |Births(db, ops)|
    ensures Births(db, ops)[i].0 != Births(db, ops)[j].0
    decreases |ops|
  {
    hide Apply, Ordinary;
    assert ops[0] in ops;
    var (next, r) := Apply(db, ops[0]);
    var k := if r.Born? then j - 1 else j;
    assert Births(next, ops[1..])[k] == Births(db, ops)[j];
    if r.Born? && i == 0 {
      StepTokens(db, ops[0], Births(db, ops)[0].0);
      BirthsRecorded(next, ops[1..], k);
    } else {
      BirthsDiffer(next, ops[1..], if r.Born? then i - 1 else i, k);
    }
  }

  /** A token refused for a kind is refused for that kind at every later time, whatever happens. */
  lemma {:induction false} RefusalIsForEver(db: Db, ops: seq<Op>, l: string, kind: TokenKind, now: Instant,
                                            later: Instant)
    requires AllOrdinary(ops) && now <= later
    requires l in db.tokens && Verify(db.tokens[l], kind, now).Some?
    ensures l in RunOps(db, ops).tokens && Verify(RunOps(db, ops).tokens[l], kind, later).Some?
    decreases |ops|
  {
    hide Apply, Ordinary;
    if ops != [] {
      assert ops[0] in ops;
      StepTokens(db, ops[0], l);
      RefusalIsForEver(Apply(db, ops[0]).0, ops[1..], l, kind, now, later);
    }
  }

  /** A list of profiles can be joined exactly when all exist and none repeats. */
  lemma {:induction false} JoinErrorExactly(profiles: set<string>, joined: set<string>, ids: seq<string>)
    ensures JoinError(profiles, joined, ids) == None <==>
            && (forall p :: p in ids ==> p in profiles && p !in joined)
            && forall i, j :: 0 <= i < j < |ids| ==> ids[i] != ids[j]
    decreases |ids|
  {
    if ids != [] {
      JoinErrorExactly(profiles, joined + {ids[0]}, ids[1..]);
      assert ids == [ids[0]] + ids[1..];
    }
  }

  /** Consuming succeeds exactly when the token is an unused one that `Verify` accepts for enrollment
      at this instant, the device id is new, and the token's profiles exist and do not repeat: the
      text comparison in the database and the check in the program never disagree. */
  lemma ConsumeExactly(db: Db, lookup: string, dev: NewDevice, freshId: string, now: Instant)
    requires Sound(db) && lookup in db.tokens && InRange(now)
    ensures AfterConsume(db, lookup, dev, freshId, now).1.Born? <==>
            var t := db.tokens[lookup];
            && Verify(t, Enrollment, now).None? && t.usedAt == None && DeviceId(dev, freshId) !in db.devices
            && (forall p :: p in t.profileIds ==> p in db.profiles)
            && forall i, j :: 0 <= i < j < |t.profileIds| ==> t.profileIds[i] != t.profileIds[j]
  {
    hide FormatTime, InRange;
    var t := db.tokens[lookup];
    JoinErrorExactly(db.profiles, Memberships(db.memberships, DeviceId(dev, freshId)), t.profileIds);
    if t.expiresAt.Some? {
      GuardAgrees(t.expiresAt.value, now);
    }
  }
}
