/** The credential handlers (`internal/api/devices.go`, `internal/api/auth.go`, the composition in
    `internal/auth/token.go` and the check in `internal/auth/middleware.go`).  A handler is a
    sequence of store calls; `budget` says how many of them succeed before one fails, the process
    dies or the client gives up, so a handler can stop anywhere. */
module Handlers {
  import opened Text
  import opened Timestamps
  import opened Auth
  import opened TokenStore
  import D = Domain

  /** What minting draws at random, and the row id the store draws for it. */
  datatype Minted = Minted(tokenId: string, lookup: string, secretHash: string)

  /** A request, with what the checks in front of the token store found: the operator of that name, whether
      the limiter admits one more password verification and what it says; the session of the caller. */
  datatype Request =
    | Login(operator: Option<string>, capacity: bool, verified: bool, mint: Minted, now: Instant, expiresAt: Instant)
    | Logout(tokenId: Option<string>, now: Instant)
    | NewEnrollment(profileIds: seq<string>, mint: Minted, now: Instant, expiresAt: Instant)
    | Register(wire: string, dev: NewDevice, freshId: string, mint: Minted, now: Instant)
    | Delete(id: string, now: Instant)
    | Revoke(id: string, now: Instant)
    | Rotate(id: string, mint: Minted, now: Instant)

  datatype Failure =
    | Malformed | WrongTokenKind | WrongSecret | BadRequest | InvalidCredentials | Busy | Unauthorized
    | Store(error: StoreError)

  datatype Answer = Completed | Stopped | Failed(why: Failure)

  function AnswerOf(r: Outcome): Answer {
    if r.Refused? then Failed(Store(r.error)) else Completed
  }

  function Nullable(t: Instant): Option<Instant> {
    if t == ZERO_TIME then None else Some(t)
  }

  function NewToken(m: Minted, kind: TokenKind, subject: string, profileIds: seq<string>, now: Instant,
                    expiresAt: Instant)
    : Token
  {
    Token(m.tokenId, kind, subject, m.secretHash, profileIds, now, Nullable(expiresAt), None, None)
  }

  function DeviceTokenFor(m: Minted, id: string, now: Instant): Token {
    NewToken(m, DeviceToken, id, [], now, ZERO_TIME)
  }

  // ----- Authentication -----

  /** Who a bearer token speaks for, on a route that requires one kind. */
  function Authenticate(hash: SecretHash, db: Db, wire: string, kind: TokenKind, now: Instant): Option<string> {
    match Parse(wire)
    case None => None
    case Some(p) =>
      if p.lookup !in db.tokens || hash(p.secret) != db.tokens[p.lookup].secretHash
         || Verify(db.tokens[p.lookup], kind, now).Some?
      then None
      else Some(db.tokens[p.lookup].subjectId)
  }

  /** Exchanging an enrollment token: two store calls. */
  function Enrolled(hash: SecretHash, db: Db, wire: string, dev: NewDevice, freshId: string, now: Instant, budget: nat)
    : (Db, Answer)
  {
    match Parse(wire)
    case None => (db, Failed(Malformed))
    case Some(p) =>
      if p.kind != Enrollment then (db, Failed(WrongTokenKind))
      else if budget < 1 then (db, Stopped)
      else if p.lookup !in db.tokens then (db, Failed(Store(NotFound)))
      else if hash(p.secret) != db.tokens[p.lookup].secretHash then (db, Failed(WrongSecret))
      else if budget < 2 then (db, Stopped)
      else
        var (next, r) := AfterConsume(db, p.lookup, dev, freshId, now);
        (next, AnswerOf(r))
  }

  /** Enrolling succeeds exactly for the wire form of an enrollment token whose secret matches, that is
      unused and accepted by Verify, with a new device id and existing, unrepeated profiles;
      otherwise nothing changes. */
  lemma EnrollExactly(hash: SecretHash, db: Db, wire: string, dev: NewDevice, freshId: string, now: Instant)
    requires Sound(db) && InRange(now)
    ensures var (next, a) := Enrolled(hash, db, wire, dev, freshId, now, 2);
            && (a != Completed ==> next == db && a.Failed?)
            && (a == Completed <==>
                  exists p: ParsedToken ::
                    && wire == Wire(Enrollment, p.lookup, p.secret) && p.kind == Enrollment
                    && p.lookup != "" && p.secret != "" && '.' !in p.lookup
                    && p.lookup in db.tokens && hash(p.secret) == db.tokens[p.lookup].secretHash
                    && Fresh(db, db.tokens[p.lookup], DeviceId(dev, freshId), now))
  {
    hide InRange, AfterConsume, Wire, Parse, Fresh;
    forall p: ParsedToken ensures Parse(wire) == Some(p) <==>
        wire == Wire(p.kind, p.lookup, p.secret) && p.lookup != "" && p.secret != "" && '.' !in p.lookup {
      ParseExactly(wire, p);
    }
    if Parse(wire).Some? && Parse(wire).value.lookup in db.tokens {
      FreshConsumes(db, Parse(wire).value.lookup, dev, freshId, now);
    }
  }

  /** A token that may still give birth to the device. */
  predicate Fresh(db: Db, t: Token, id: string, now: Instant) {
    && Verify(t, Enrollment, now).None? && t.usedAt == None && id !in db.devices
    && (forall p :: p in t.profileIds ==> p in db.profiles)
    && forall i, j :: 0 <= i < j < |t.profileIds| ==> t.profileIds[i] != t.profileIds[j]
  }

  lemma FreshConsumes(db: Db, lookup: string, dev: NewDevice, freshId: string, now: Instant)
    requires Sound(db) && InRange(now) && lookup in db.tokens
    ensures var (next, r) := AfterConsume(db, lookup, dev, freshId, now);
            && (r.Born? <==> Fresh(db, db.tokens[lookup], DeviceId(dev, freshId), now))
            && (r.Born? || (r.Refused? && next == db))
  {
    ConsumeExactly(db, lookup, dev, freshId, now);
  }

  // ----- The handlers, as functions -----

  function AfterRegister(hash: SecretHash, db: Db, r: Request, budget: nat): (Db, Answer)
    requires r.Register?
  {
    if !D.ValidPlatform(r.dev.platform) || !D.ValidShell(r.dev.shell) then (db, Failed(BadRequest))
    else
      var (born, a) := Enrolled(hash, db, r.wire, r.dev, r.freshId, r.now, budget);
      if a != Completed || budget < 3 then (born, if a == Completed then Stopped else a)
      else
        var (next, c) := AfterCreate(born, r.mint.lookup, DeviceTokenFor(r.mint, DeviceId(r.dev, r.freshId), r.now));
        (next, AnswerOf(c))
  }

  function AfterDeleteRequest(db: Db, r: Request, budget: nat): (Db, Answer)
    requires r.Delete?
  {
    if budget < 1 then (db, Stopped)
    else
      var revoked := AfterRevokeSubject(db, DeviceToken, r.id, r.now);
      if budget < 2 then (revoked, Stopped)
      else
        var (next, d) := AfterDelete(revoked, r.id);
        (next, AnswerOf(d))
  }

  function AfterRevokeRequest(db: Db, r: Request, budget: nat): (Db, Answer)
    requires r.Revoke?
  {
    if budget < 1 then (db, Stopped)
    else
      var (revoked, d) := AfterRevokeDevice(db, r.id, r.now);
      if d.Refused? then (revoked, AnswerOf(d))
      else if budget < 2 then (revoked, Stopped)
      else (AfterRevokeSubject(revoked, DeviceToken, r.id, r.now), Completed)
  }

  function AfterRotate(db: Db, r: Request, budget: nat): (Db, Answer)
    requires r.Rotate?
  {
    if budget < 1 then (db, Stopped)
    else if r.id !in db.devices then (db, Failed(Store(NotFound)))
    else if budget < 2 then (db, Stopped)
    else
      var revoked := AfterRevokeSubject(db, DeviceToken, r.id, r.now);
      if budget < 3 then (revoked, Stopped)
      else
        var (next, c) := AfterCreate(revoked, r.mint.lookup, DeviceTokenFor(r.mint, r.id, r.now));
        (next, AnswerOf(c))
  }

  function Served(hash: SecretHash, db: Db, r: Request, budget: nat): (Db, Answer) {
    match r
    case Login(operator, capacity, verified, mint, now, expiresAt) =>
      if operator.None? then (db, Failed(InvalidCredentials))
      else if !capacity then (db, Failed(Busy))
      else if !verified then (db, Failed(InvalidCredentials))
      else if budget < 1 then (db, Stopped)
      else
        var (next, c) := AfterCreate(db, mint.lookup, NewToken(mint, Session, operator.value, [], now, expiresAt));
        (next, AnswerOf(c))
    case Logout(tokenId, now) =>
      if tokenId.None? then (db, Failed(Unauthorized))
      else if budget < 1 then (db, Stopped)
      else
        var (next, c) := AfterRevoke(db, tokenId.value, now);
        (next, AnswerOf(c))
    case NewEnrollment(profileIds, mint, now, expiresAt) =>
      if budget < 1 then (db, Stopped)
      else
        var (next, c) := AfterCreate(db, mint.lookup, NewToken(mint, Enrollment, "", profileIds, now, expiresAt));
        (next, AnswerOf(c))
    case Register(_, _, _, _, _) => AfterRegister(hash, db, r, budget)
    case Delete(_, _) => AfterDeleteRequest(db, r, budget)
    case Revoke(_, _) => AfterRevokeRequest(db, r, budget)
    case Rotate(_, _, _) => AfterRotate(db, r, budget)
  }

  // ----- The handlers, in place -----

  class Server {
    const store: Store
    const hash: SecretHash

    constructor (store: Store, hash: SecretHash)
      ensures this.store == store && this.hash == hash
    {
      this.store, this.hash := store, hash;
    }

    method Enroll(wire: string, dev: NewDevice, freshId: string, now: Instant, budget: nat)
      returns (a: Answer, id: string)
      modifies store
      ensures (store.Contents(), a) == Enrolled(hash, old(store.Contents()), wire, dev, freshId, now, budget)
      ensures a == Completed ==> id == DeviceId(dev, freshId)
    {
      id := "";
      var parsed := Parse(wire);
      if parsed.None? {
        return Failed(Malformed), id;
      }
      var p := parsed.value;
      if p.kind != Enrollment {
        return Failed(WrongTokenKind), id;
      }
      if budget < 1 {
        return Stopped, id;
      }
      if p.lookup !in store.tokens {
        return Failed(Store(NotFound)), id;
      }
      if hash(p.secret) != store.tokens[p.lookup].secretHash {
        return Failed(WrongSecret), id;
      }
      if budget < 2 {
        return Stopped, id;
      }
      var r := store.ConsumeEnrollment(p.lookup, dev, freshId, now);
      if r.Born? {
        id := r.deviceId;
      }
      return AnswerOf(r), id;
    }

    method Register(r: Request, budget: nat) returns (a: Answer)
      requires r.Register?
      modifies store
      ensures (store.Contents(), a) == AfterRegister(hash, old(store.Contents()), r, budget)
    {
      if !D.ValidPlatform(r.dev.platform) || !D.ValidShell(r.dev.shell) {
        return Failed(BadRequest);
      }
      var id;
      a, id := Enroll(r.wire, r.dev, r.freshId, r.now, budget);
      if a != Completed {
        return;
      }
      if budget < 3 {
        return Stopped;
      }
      var c := store.Create(r.mint.lookup, DeviceTokenFor(r.mint, id, r.now));
      return AnswerOf(c);
    }

    /** Revokes first and deletes second, so that a stop in between leaves no credential behind. */
    method Delete(r: Request, budget: nat) returns (a: Answer)
      requires r.Delete?
      modifies store
      ensures (store.Contents(), a) == AfterDeleteRequest(old(store.Contents()), r, budget)
    {
      if budget < 1 {
        return Stopped;
      }
      store.RevokeSubject(DeviceToken, r.id, r.now);
      if budget < 2 {
        return Stopped;
      }
      var d := store.DeleteDevice(r.id);
      return AnswerOf(d);
    }

    method Revoke(r: Request, budget: nat) returns (a: Answer)
      requires r.Revoke?
      modifies store
      ensures (store.Contents(), a) == AfterRevokeRequest(old(store.Contents()), r, budget)
    {
      if budget < 1 {
        return Stopped;
      }
      var d := store.RevokeDevice(r.id, r.now);
      if d.Refused? {
        return AnswerOf(d);
      }
      if budget < 2 {
        return Stopped;
      }
      store.RevokeSubject(DeviceToken, r.id, r.now);
      return Completed;
    }

    method Rotate(r: Request, budget: nat) returns (a: Answer)
      requires r.Rotate?
      modifies store
      ensures (store.Contents(), a) == AfterRotate(old(store.Contents()), r, budget)
    {
      if budget < 1 {
        return Stopped;
      }
      if r.id !in store.devices {
        return Failed(Store(NotFound));
      }
      if budget < 2 {
        return Stopped;
      }
      store.RevokeSubject(DeviceToken, r.id, r.now);
      if budget < 3 {
        return Stopped;
      }
      var c := store.Create(r.mint.lookup, DeviceTokenFor(r.mint, r.id, r.now));
      return AnswerOf(c);
    }

    /** An unknown operator is refused before the limiter, a wrong password after it. */
    method LogIn(r: Request, budget: nat) returns (a: Answer)
      requires r.Login?
      modifies store
      ensures (store.Contents(), a) == Served(hash, old(store.Contents()), r, budget)
    {
      if r.operator == None {
        return Failed(InvalidCredentials);
      }
      if !r.capacity {
        return Failed(Busy);
      }
      if !r.verified {
        return Failed(InvalidCredentials);
      }
      if budget < 1 {
        return Stopped;
      }
      var c := store.Create(r.mint.lookup, NewToken(r.mint, Session, r.operator.value, [], r.now, r.expiresAt));
      return AnswerOf(c);
    }

    method Serve(r: Request, budget: nat) returns (a: Answer)
      modifies store
      ensures (store.Contents(), a) == Served(hash, old(store.Contents()), r, budget)
    {
      match r {
        case Register(_, _, _, _, _) => a := Register(r, budget);
        case Delete(_, _) => a := Delete(r, budget);
        case Revoke(_, _) => a := Revoke(r, budget);
        case Rotate(_, _, _) => a := Rotate(r, budget);
        case Login(_, _, _, _, _, _) => a := LogIn(r, budget);
        case Logout(tokenId, now) =>
          if tokenId == None {
            return Failed(Unauthorized);
          }
          if budget < 1 {
            return Stopped;
          }
          var c := store.Revoke(tokenId.value, now);
          a := AnswerOf(c);
        case NewEnrollment(profileIds, mint, now, expiresAt) =>
          if budget < 1 {
            return Stopped;
          }
          var c := store.Create(mint.lookup, NewToken(mint, Enrollment, "", profileIds, now, expiresAt));
          a := AnswerOf(c);
      }
    }
  }

  // ----- The credential invariant -----

  /** A device token that authenticates its device. */
  predicate Live(t: Token) {
    t.kind == DeviceToken && Time(t.revokedAt) == ZERO_TIME
  }

  predicate LiveFor(db: Db, lookup: string, device: string) {
    lookup in db.tokens && Live(db.tokens[lookup]) && db.tokens[lookup].subjectId == device
  }

  /** Every device has at most one live token, and every live token names an existing device. */
  ghost predicate OneTokenEach(db: Db) {
    && (forall l1, l2, device :: LiveFor(db, l1, device) && LiveFor(db, l2, device) ==> l1 == l2)
    && (forall l, device :: LiveFor(db, l, device) ==> device in db.devices)
  }

  ghost predicate NoLiveToken(db: Db, device: string) {
    forall l :: !LiveFor(db, l, device)
  }

  /** The clock never shows the zero time, and expiry times are in the range the database can hold. */
  predicate Timely(r: Request) {
    && r.now != ZERO_TIME
    && (r.Login? || r.NewEnrollment? ==> r.expiresAt == ZERO_TIME || InRange(r.expiresAt))
  }

  ghost predicate Good(db: Db) {
    Sound(db) && OneTokenEach(db)
  }

  lemma RevokeSubjectClears(db: Db, device: string, now: Instant)
    requires Good(db) && now != ZERO_TIME
    ensures var next := AfterRevokeSubject(db, DeviceToken, device, now); Good(next) && NoLiveToken(next, device)
  {
    hide InRange;
    StepSound(db, OpRevokeSubject(DeviceToken, device, now));
    var next := AfterRevokeSubject(db, DeviceToken, device, now);
    forall l, d | LiveFor(next, l, d) ensures LiveFor(db, l, d) && d != device {
      assert SoundTimes(db.tokens[l]);
    }
  }

  /** A row inserted into the tokens table keeps the invariant unless it is a second live token. */
  lemma CreateKeeps(db: Db, lookup: string, t: Token)
    requires Good(db) && SoundTimes(t) && t.usedAt == None && t.revokedAt == None
    requires t.kind == DeviceToken ==> t.subjectId in db.devices && NoLiveToken(db, t.subjectId)
    ensures var (next, r) := AfterCreate(db, lookup, t);
            && Good(next) && (r == Done || (r == Refused(Conflict) && next == db))
            && (r == Done && t.kind == DeviceToken ==>
                  forall l :: LiveFor(next, l, t.subjectId) <==> l == lookup)
  {
    hide InRange;
    StepSound(db, OpCreate(lookup, t));
    var (next, r) := AfterCreate(db, lookup, t);
    if r == Done {
      forall l, d ensures LiveFor(next, l, d) <==> LiveFor(db, l, d) || (l == lookup && Live(t) && d == t.subjectId) {
        if l == lookup {
          assert next.tokens[l] == t;
        }
      }
    }
  }

  /** A birth concerns no device token, and the device is new. */
  lemma ConsumeKeeps(db: Db, lookup: string, dev: NewDevice, freshId: string, now: Instant)
    requires Good(db)
    ensures var (next, r) := AfterConsume(db, lookup, dev, freshId, now);
            && Good(next)
            && (r.Born? ==> r.deviceId in next.devices && NoLiveToken(next, r.deviceId))
  {
    hide InRange, FormatTime, SqlLive, Memberships, JoinError;
    StepSound(db, OpConsume(lookup, dev, freshId, now));
    var (next, r) := AfterConsume(db, lookup, dev, freshId, now);
    forall l, d | LiveFor(next, l, d) ensures LiveFor(db, l, d) {
    }
  }

  /** Every handler, stopped after any number of its store calls, keeps the invariant. */
  lemma HandlerKeeps(hash: SecretHash, db: Db, r: Request, budget: nat)
    requires Good(db) && Timely(r)
    ensures Good(Served(hash, db, r, budget).0)
  {
    hide InRange, Good, AfterCreate, AfterConsume, AfterRevokeSubject, AfterDelete, AfterRevokeDevice, AfterRevoke;
    match r
    case Login(operator, _, _, mint, now, expiresAt) =>
      if operator.Some? {
        CreateKeeps(db, mint.lookup, NewToken(mint, Session, operator.value, [], now, expiresAt));
      }
    case NewEnrollment(profileIds, mint, now, expiresAt) =>
      CreateKeeps(db, mint.lookup, NewToken(mint, Enrollment, "", profileIds, now, expiresAt));
    case Logout(tokenId, now) =>
      if tokenId.Some? {
        RevokeKeeps(db, tokenId.value, now);
      }
    case Register(_, _, _, _, _) => RegisterKeeps(hash, db, r, budget);
    case Delete(_, _) => DeleteKeeps(db, r, budget);
    case Revoke(_, _) => RevokeRequestKeeps(db, r, budget);
    case Rotate(_, _, _) => RotateKeeps(db, r, budget);
  }

  lemma RevokeKeeps(db: Db, tokenId: string, now: Instant)
    requires Good(db) && now != ZERO_TIME
    ensures Good(AfterRevoke(db, tokenId, now).0)
  {
    hide InRange;
    StepSound(db, OpRevoke(tokenId, now));
    var next := AfterRevoke(db, tokenId, now).0;
    forall l, d | LiveFor(next, l, d) ensures LiveFor(db, l, d) {
    }
  }

  lemma RegisterKeeps(hash: SecretHash, db: Db, r: Request, budget: nat)
    requires r.Register? && Good(db)
    ensures Good(AfterRegister(hash, db, r, budget).0)
  {
    hide InRange, Good, AfterCreate, AfterConsume, Parse;
    if Parse(r.wire).Some? {
      var lookup := Parse(r.wire).value.lookup;
      ConsumeKeeps(db, lookup, r.dev, r.freshId, r.now);
      var (born, o) := AfterConsume(db, lookup, r.dev, r.freshId, r.now);
      ConsumeNames(db, lookup, r.dev, r.freshId, r.now);
      if o.Born? {
        CreateKeeps(born, r.mint.lookup, DeviceTokenFor(r.mint, o.deviceId, r.now));
      }
    }
  }

  lemma ConsumeNames(db: Db, lookup: string, dev: NewDevice, freshId: string, now: Instant)
    ensures var r := AfterConsume(db, lookup, dev, freshId, now).1;
            r.Refused? || r == Born(DeviceId(dev, freshId))
    ensures AfterConsume(db, lookup, dev, freshId, now).1.Refused? ==>
              AfterConsume(db, lookup, dev, freshId, now).0 == db
  {
  }

  /** A completed deletion leaves neither the device nor a live token of it. */
  lemma DeleteKeeps(db: Db, r: Request, budget: nat)
    requires r.Delete? && Good(db) && r.now != ZERO_TIME
    ensures var (next, a) := AfterDeleteRequest(db, r, budget);
            Good(next) && (a == Completed ==> r.id !in next.devices && NoLiveToken(next, r.id))
  {
    hide InRange;
    RevokeSubjectClears(db, r.id, r.now);
    var revoked := AfterRevokeSubject(db, DeviceToken, r.id, r.now);
    StepSound(revoked, OpDeleteDevice(r.id));
    var next := AfterDelete(revoked, r.id).0;
    assert forall l, d :: LiveFor(next, l, d) <==> LiveFor(revoked, l, d);
  }

  /** A completed revocation leaves no live token of the device. */
  lemma RevokeRequestKeeps(db: Db, r: Request, budget: nat)
    requires r.Revoke? && Good(db) && r.now != ZERO_TIME
    ensures var (next, a) := AfterRevokeRequest(db, r, budget);
            && Good(next)
            && (a == Completed ==>
                  NoLiveToken(next, r.id) && r.id in next.devices && next.devices[r.id].revokedAt.Some?)
  {
    hide InRange;
    StepSound(db, OpRevokeDevice(r.id, r.now));
    var (revoked, d) := AfterRevokeDevice(db, r.id, r.now);
    assert forall l, d :: LiveFor(revoked, l, d) <==> LiveFor(db, l, d);
    RevokeSubjectClears(revoked, r.id, r.now);
  }

  /** A completed rotation leaves exactly one live token, the new one; a stopped one leaves at most
      what was there. */
  lemma RotateKeeps(db: Db, r: Request, budget: nat)
    requires r.Rotate? && Good(db) && r.now != ZERO_TIME
    ensures var (next, a) := AfterRotate(db, r, budget);
            Good(next) && (a == Completed ==> forall l :: LiveFor(next, l, r.id) <==> l == r.mint.lookup)
  {
    hide InRange, Good, AfterCreate;
    RevokeSubjectClears(db, r.id, r.now);
    var revoked := AfterRevokeSubject(db, DeviceToken, r.id, r.now);
    if r.id in db.devices {
      CreateKeeps(revoked, r.mint.lookup, DeviceTokenFor(r.mint, r.id, r.now));
    }
  }

  // ----- Runs of whole handlers -----

  function ServedAll(hash: SecretHash, db: Db, rs: seq<(Request, nat)>): Db
    decreases |rs|
  {
    if rs == [] then db else ServedAll(hash, Served(hash, db, rs[0].0, rs[0].1).0, rs[1..])
  }

  /** The invariant holds after every sequence of handlers, each stopped anywhere. */
  lemma {:induction false} RunsKeep(hash: SecretHash, db: Db, rs: seq<(Request, nat)>)
    requires Good(db) && forall r :: r in rs ==> Timely(r.0)
    ensures Good(ServedAll(hash, db, rs))
    decreases |rs|
  {
    hide Good, Timely, Served;
    if rs != [] {
      assert rs[0] in rs;
      HandlerKeeps(hash, db, rs[0].0, rs[0].1);
      RunsKeep(hash, Served(hash, db, rs[0].0, rs[0].1).0, rs[1..]);
    }
  }

  // ----- Handlers as runs of store transactions -----

  /** The transactions a stopped or completed handler has performed. */
  function Steps(hash: SecretHash, db: Db, r: Request, budget: nat): seq<Op> {
    match r
    case Login(operator, capacity, verified, mint, now, expiresAt) =>
      if operator.None? || !capacity || !verified then []
      else First([OpCreate(mint.lookup, NewToken(mint, Session, operator.value, [], now, expiresAt))], budget)
    case Logout(tokenId, now) => if tokenId.None? then [] else First([OpRevoke(tokenId.value, now)], budget)
    case NewEnrollment(profileIds, mint, now, expiresAt) =>
      First([OpCreate(mint.lookup, NewToken(mint, Enrollment, "", profileIds, now, expiresAt))], budget)
    case Register(wire, dev, freshId, mint, now) =>
      if Parse(wire).None? || Enrolled(hash, db, wire, dev, freshId, now, budget).1 != Completed
         || !D.ValidPlatform(dev.platform) || !D.ValidShell(dev.shell)
      then []
      else
        First([OpConsume(Parse(wire).value.lookup, dev, freshId, now),
               OpCreate(mint.lookup, DeviceTokenFor(mint, DeviceId(dev, freshId), now))], budget - 1)
    case Delete(id, now) => First([OpRevokeSubject(DeviceToken, id, now), OpDeleteDevice(id)], budget)
    case Revoke(id, now) =>
      if id !in db.devices then []
      else First([OpRevokeDevice(id, now), OpRevokeSubject(DeviceToken, id, now)], budget)
    case Rotate(id, mint, now) =>
      if id !in db.devices || budget < 1 then []
      else
        First([OpRevokeSubject(DeviceToken, id, now),
               OpCreate(mint.lookup, DeviceTokenFor(mint, id, now))], budget - 1)
  }

  /** The first n transactions of a handler. */
  function First(ops: seq<Op>, n: nat): seq<Op> {
    if n < |ops| then ops[..n] else ops
  }

  /** A handler does what its transactions do in turn, so what holds for every interleaving of
      transactions holds for every interleaving of handlers. */
  lemma HandlerIsSteps(hash: SecretHash, db: Db, r: Request, budget: nat)
    requires Timely(r)
    ensures var ops := Steps(hash, db, r, budget);
            AllOrdinary(ops) && Served(hash, db, r, budget).0 == RunOps(db, ops)
  {
    hide InRange, AfterCreate, AfterRevoke, AfterRevokeSubject, AfterDelete, AfterConsume, Parse;
    var ops := Steps(hash, db, r, budget);
    RunTwo(db, ops);
    if r.Register? && Parse(r.wire).Some? {
      ConsumeNames(db, Parse(r.wire).value.lookup, r.dev, r.freshId, r.now);
    }
  }

  lemma {:induction false} RunTwo(db: Db, ops: seq<Op>)
    requires |ops| <= 2
    ensures RunOps(db, ops) ==
            if |ops| == 0 then db
            else if |ops| == 1 then Apply(db, ops[0]).0
            else Apply(Apply(db, ops[0]).0, ops[1]).0
    decreases |ops|
  {
    hide Apply;
    if ops != [] {
      RunTwo(Apply(db, ops[0]).0, ops[1..]);
    }
  }

  // ----- What the bearer of a token can do -----

  /** After a completed rotation, a bearer authenticates as the device, at any instant, exactly with the
      secret of the new token. */
  lemma RotatedAuthenticates(hash: SecretHash, db: Db, r: Request, wire: string, at: Instant)
    requires r.Rotate? && Good(db) && r.now != ZERO_TIME
    requires AfterRotate(db, r, 3).1 == Completed
    ensures Authenticate(hash, AfterRotate(db, r, 3).0, wire, DeviceToken, at) == Some(r.id) <==>
            && Parse(wire).Some? && Parse(wire).value.lookup == r.mint.lookup
            && hash(Parse(wire).value.secret) == r.mint.secretHash
  {
    hide InRange, Good, Parse;
    RotateKeeps(db, r, 3);
    var next := AfterRotate(db, r, 3).0;
    assert next.tokens[r.mint.lookup] == DeviceTokenFor(r.mint, r.id, r.now);
    if Parse(wire).Some? {
      assert LiveFor(next, Parse(wire).value.lookup, r.id) <==> Parse(wire).value.lookup == r.mint.lookup;
    }
  }

  /** Whether a request has revoked every device token there was: rotation and revocation once completed,
      deletion from its first store call on. */
  predicate Kills(db: Db, r: Request, budget: nat) {
    match r
    case Rotate(_, _, _) => AfterRotate(db, r, budget).1 == Completed
    case Revoke(_, _) => AfterRevokeRequest(db, r, budget).1 == Completed
    case Delete(_, _) => budget >= 1
    case _ => false
  }

  /** A device token that was live before a rotation, a revocation or a deletion never authenticates
      again, at any later instant and after any interleaving of later transactions. */
  lemma OldTokensDie(hash: SecretHash, db: Db, r: Request, budget: nat, l: string, ops: seq<Op>, wire: string,
                     at: Instant)
    requires Good(db) && Timely(r) && Kills(db, r, budget) && LiveFor(db, l, r.id) && AllOrdinary(ops)
    requires Parse(wire).Some? && Parse(wire).value.lookup == l
    ensures Authenticate(hash, RunOps(Served(hash, db, r, budget).0, ops), wire, DeviceToken, at).None?
  {
    hide InRange, Good, Parse, RunOps, Ordinary;
    var next := Served(hash, db, r, budget).0;
    KilledTokens(hash, db, r, budget, l);
    RefusalIsForEver(next, ops, l, DeviceToken, at, at);
  }

  /** A device token that a revocation by subject finds never authenticates again, whatever transactions of
      whatever handlers follow: this needs no whole handlers. */
  lemma RevokedForEver(hash: SecretHash, db: Db, id: string, now: Instant, l: string, ops: seq<Op>,
                       wire: string, at: Instant)
    requires Sound(db) && now != ZERO_TIME && AllOrdinary(ops)
    requires l in db.tokens && db.tokens[l].kind == DeviceToken && db.tokens[l].subjectId == id
    requires Parse(wire).Some? && Parse(wire).value.lookup == l
    ensures var revoked := AfterRevokeSubject(db, DeviceToken, id, now);
            Authenticate(hash, RunOps(revoked, ops), wire, DeviceToken, at).None?
  {
    hide InRange, Parse, RunOps, Ordinary;
    var revoked := AfterRevokeSubject(db, DeviceToken, id, now);
    assert SoundTimes(db.tokens[l]);
    RefusalIsForEver(revoked, ops, l, DeviceToken, at, at);
  }

  lemma KilledTokens(hash: SecretHash, db: Db, r: Request, budget: nat, l: string)
    requires Good(db) && Timely(r) && Kills(db, r, budget) && LiveFor(db, l, r.id)
    ensures var next := Served(hash, db, r, budget).0;
            l in next.tokens && forall at :: Verify(next.tokens[l], DeviceToken, at).Some?
  {
    hide InRange, OneTokenEach;
    var t := db.tokens[l];
    assert SoundTimes(t);
    assert t.revokedAt == None;
  }

  /** A wire that has enrolled a device is refused for ever, whatever happens in between, and refusing it
      changes nothing. */
  lemma ReplayRefused(hash: SecretHash, db: Db, wire: string, dev: NewDevice, freshId: string, now: Instant,
                      ops: seq<Op>, again: NewDevice, againId: string, later: Instant)
    requires AllOrdinary(ops)
    requires Enrolled(hash, db, wire, dev, freshId, now, 2).1 == Completed
    ensures var end := RunOps(Enrolled(hash, db, wire, dev, freshId, now, 2).0, ops);
            var (next, a) := Enrolled(hash, end, wire, again, againId, later, 2);
            next == end && a.Failed?
  {
    hide Parse, RunOps, Ordinary, JoinError, Memberships, SqlLive, FormatTime;
    var l := Parse(wire).value.lookup;
    var born := Enrolled(hash, db, wire, dev, freshId, now, 2).0;
    assert Used(born, l);
    UsesKept(born, ops, l);
  }

  // ----- What each handler is for -----

  /** Logging out revokes the caller's token: whatever transactions follow, no wire with the lookup of a row
      with that id authenticates again, for any kind and at any instant. */
  lemma LogoutForEver(hash: SecretHash, db: Db, id: string, now: Instant, budget: nat, l: string, ops: seq<Op>,
                      wire: string, kind: TokenKind, at: Instant)
    requires Served(hash, db, Logout(Some(id), now), budget).1 == Completed && now != ZERO_TIME
    requires l in db.tokens && db.tokens[l].id == id && AllOrdinary(ops)
    requires Parse(wire).Some? && Parse(wire).value.lookup == l
    ensures var next := Served(hash, db, Logout(Some(id), now), budget).0;
            Authenticate(hash, RunOps(next, ops), wire, kind, at).None?
  {
    hide InRange, Parse, RunOps, Ordinary, AfterRevoke;
    RevokeEffect(db, id, now);
    var next := AfterRevoke(db, id, now).0;
    RefusalIsForEver(next, ops, l, kind, at, at);
  }

  /** Logging out completes exactly for the caller of an existing token, and otherwise changes nothing. */
  lemma LogoutExactly(hash: SecretHash, db: Db, tokenId: Option<string>, now: Instant)
    ensures var (next, a) := Served(hash, db, Logout(tokenId, now), 1);
            && (a == Completed <==> tokenId.Some? && exists l :: l in db.tokens && db.tokens[l].id == tokenId.value)
            && (a != Completed ==> next == db)
            && (tokenId.None? ==> a == Failed(Unauthorized))
  {
    hide AfterRevoke;
    if tokenId.Some? {
      RevokeEffect(db, tokenId.value, now);
      RefusedUnchanged(db, OpRevoke(tokenId.value, now));
    }
  }

  /** A session is created only for a known operator whose password was verified within the limit; nothing
      else changes, and a refusal says whether the limiter or the credentials stand in the way. */
  lemma LoginExactly(hash: SecretHash, db: Db, r: Request)
    requires r.Login?
    ensures var (next, a) := Served(hash, db, r, 1);
            && (a == Completed <==>
                  && r.operator.Some? && r.capacity && r.verified
                  && r.mint.lookup !in db.tokens && forall l :: l in db.tokens ==> db.tokens[l].id != r.mint.tokenId)
            && (a != Completed ==> next == db) && SameDevices(next, db)
            && (a == Failed(InvalidCredentials) <==> r.operator.None? || (r.capacity && !r.verified))
            && (a == Failed(Busy) <==> r.operator.Some? && !r.capacity)
  {
    hide AfterCreate;
    if r.operator.Some? {
      CreateEffect(db, r.mint.lookup, NewToken(r.mint, Session, r.operator.value, [], r.now, r.expiresAt));
    }
  }

  /** The session authenticates its operator with its secret until it expires, and no other wire of that
      lookup does. */
  lemma LoginAuthenticates(hash: SecretHash, db: Db, r: Request, wire: string, at: Instant)
    requires r.Login? && Served(hash, db, r, 1).1 == Completed
    requires Parse(wire).Some? && Parse(wire).value.lookup == r.mint.lookup
    ensures Authenticate(hash, Served(hash, db, r, 1).0, wire, Session, at)
            == if hash(Parse(wire).value.secret) == r.mint.secretHash && (r.expiresAt == ZERO_TIME || at < r.expiresAt)
               then r.operator else None
  {
    hide AfterCreate, Parse;
    CreateEffect(db, r.mint.lookup, NewToken(r.mint, Session, r.operator.value, [], r.now, r.expiresAt));
  }

  /** A completed registration has created the device as requested, in exactly the profiles of the enrollment
      token and not revoked; its new token, and only that, speaks for it. */
  lemma RegisterEffect(hash: SecretHash, db: Db, r: Request, wire: string, at: Instant)
    requires r.Register? && Good(db) && AfterRegister(hash, db, r, 3).1 == Completed
    ensures Parse(r.wire).Some? && Parse(r.wire).value.lookup in db.tokens
    ensures var next := AfterRegister(hash, db, r, 3).0;
            var id, t := DeviceId(r.dev, r.freshId), db.tokens[Parse(r.wire).value.lookup];
            && id !in db.devices
            && next.devices == db.devices[id := DeviceRow(r.dev.name, r.dev.platform, r.dev.shell, None)]
            && (forall d, p :: (d, p) in next.memberships <==>
                  (d, p) in db.memberships || (d == id && p in t.profileIds))
            && next.profiles == db.profiles
            && (Authenticate(hash, next, wire, DeviceToken, at) == Some(id) <==>
                  && Parse(wire).Some? && Parse(wire).value.lookup == r.mint.lookup
                  && hash(Parse(wire).value.secret) == r.mint.secretHash)
  {
    hide InRange, Good, Parse, AfterConsume, AfterCreate, OneTokenEach;
    var lookup, id := Parse(r.wire).value.lookup, DeviceId(r.dev, r.freshId);
    ConsumeNames(db, lookup, r.dev, r.freshId, r.now);
    ConsumeEffect(db, lookup, r.dev, r.freshId, r.now);
    ConsumeKeeps(db, lookup, r.dev, r.freshId, r.now);
    var born := AfterConsume(db, lookup, r.dev, r.freshId, r.now).0;
    CreateEffect(born, r.mint.lookup, DeviceTokenFor(r.mint, id, r.now));
    CreateKeeps(born, r.mint.lookup, DeviceTokenFor(r.mint, id, r.now));
    var next := AfterRegister(hash, db, r, 3).0;
    if Parse(wire).Some? {
      assert LiveFor(next, Parse(wire).value.lookup, id) <==> Parse(wire).value.lookup == r.mint.lookup;
    }
  }

  /** Why enrolling is refused: the first check that fails decides. */
  lemma EnrollRefusal(hash: SecretHash, db: Db, wire: string, dev: NewDevice, freshId: string, now: Instant)
    ensures var a := Enrolled(hash, db, wire, dev, freshId, now, 2).1;
            match Parse(wire)
            case None => a == Failed(Malformed)
            case Some(p) =>
              && (a == Failed(WrongTokenKind) <==> p.kind != Enrollment)
              && (a == Failed(Store(NotFound)) <==> p.kind == Enrollment && p.lookup !in db.tokens)
              && (a == Failed(WrongSecret) <==>
                    p.kind == Enrollment && p.lookup in db.tokens && hash(p.secret) != db.tokens[p.lookup].secretHash)
  {
    hide AfterConsume, Parse;
    if Parse(wire).Some? && Parse(wire).value.lookup in db.tokens {
      ConsumeRefusal(db, Parse(wire).value.lookup, dev, freshId, now);
    }
  }

  /** A registration that stops early has done a prefix of its work: nothing before the enrollment, and the
      enrollment alone before the new token. */
  lemma StoppedRegister(hash: SecretHash, db: Db, r: Request, budget: nat)
    requires r.Register?
    ensures var (next, a) := AfterRegister(hash, db, r, budget);
            && (budget < 2 ==> next == db)
            && (a == Completed ==> budget >= 3) && (a == Stopped ==> budget < 3)
            && (budget == 2 && a == Stopped ==>
                  Enrolled(hash, db, r.wire, r.dev, r.freshId, r.now, 2) == (next, Completed))
            && (budget == 2 && next != db ==> a == Stopped)
            && (budget >= 3 ==> AfterRegister(hash, db, r, budget) == AfterRegister(hash, db, r, 3))
  {
    hide Parse, AfterConsume, AfterCreate;
    if Parse(r.wire).Some? {
      RefusedUnchanged(db, OpConsume(Parse(r.wire).value.lookup, r.dev, r.freshId, r.now));
    }
  }

  /** What an operator asks for when minting an enrollment token is what the device gets: presented with its
      secret before it expires, the token registers a new device into the profiles it was minted for. */
  lemma EnrollmentRegisters(hash: SecretHash, db: Db, e: Request, r: Request, secret: string)
    requires e.NewEnrollment? && r.Register? && Sound(db) && Timely(e) && InRange(r.now)
    requires Served(hash, db, e, 1).1 == Completed
    requires r.wire == Wire(Enrollment, e.mint.lookup, secret) && hash(secret) == e.mint.secretHash
    requires e.mint.lookup != "" && '.' !in e.mint.lookup && secret != ""
    requires e.expiresAt == ZERO_TIME || r.now < e.expiresAt
    requires D.ValidPlatform(r.dev.platform) && D.ValidShell(r.dev.shell)
    requires DeviceId(r.dev, r.freshId) !in db.devices
    requires forall p :: p in e.profileIds ==> p in db.profiles
    requires forall i, j :: 0 <= i < j < |e.profileIds| ==> e.profileIds[i] != e.profileIds[j]
    requires r.mint.lookup !in db.tokens && r.mint.lookup != e.mint.lookup
    requires r.mint.tokenId != e.mint.tokenId && forall l :: l in db.tokens ==> db.tokens[l].id != r.mint.tokenId
    ensures var (next, a) := AfterRegister(hash, Served(hash, db, e, 1).0, r, 3);
            var id := DeviceId(r.dev, r.freshId);
            && a == Completed && id in next.devices
            && (forall p :: (id, p) in next.memberships <==> p in e.profileIds)
  {
    hide InRange, Parse, AfterConsume, AfterCreate, D.ValidPlatform, D.ValidShell, Wire;
    var t := NewToken(e.mint, Enrollment, "", e.profileIds, e.now, e.expiresAt);
    CreateEffect(db, e.mint.lookup, t);
    StepSound(db, OpCreate(e.mint.lookup, t));
    var minted := Served(hash, db, e, 1).0;
    ParseExactly(r.wire, ParsedToken(Enrollment, e.mint.lookup, secret));
    FreshConsumes(minted, e.mint.lookup, r.dev, r.freshId, r.now);
    ConsumeNames(minted, e.mint.lookup, r.dev, r.freshId, r.now);
    ConsumeEffect(minted, e.mint.lookup, r.dev, r.freshId, r.now);
    var born := AfterConsume(minted, e.mint.lookup, r.dev, r.freshId, r.now).0;
    CreateEffect(born, r.mint.lookup, DeviceTokenFor(r.mint, DeviceId(r.dev, r.freshId), r.now));
  }

  // ----- Interleaved handlers -----

  /** What a transaction must find for the invariant to survive it: a device token that will be inserted
      and live needs an existing device without a live token, and a device to be deleted must have none. */
  ghost predicate Guarded(db: Db, op: Op) {
    match op
    case OpCreate(lookup, t) =>
      lookup !in db.tokens && !IdTaken(db, t.id) && Live(t) ==>
        t.subjectId in db.devices && NoLiveToken(db, t.subjectId)
    case OpDeleteDevice(id) => NoLiveToken(db, id)
    case _ => true
  }

  /** A transaction keeps the invariant exactly when it is guarded. */
  lemma StepKeepsExactly(db: Db, op: Op)
    requires Good(db) && Ordinary(op)
    ensures OneTokenEach(Apply(db, op).0) <==> Guarded(db, op)
  {
    hide InRange, Good, OneTokenEach, NoLiveToken, AfterConsume, AfterRevoke, AfterRevokeSubject;
    match op
    case OpCreate(lookup, t) => CreateExactly(db, lookup, t);
    case OpConsume(lookup, dev, freshId, now) => ConsumeKeeps(db, lookup, dev, freshId, now);
      GoodIs(AfterConsume(db, lookup, dev, freshId, now).0);
    case OpRevoke(id, at) => RevokeKeeps(db, id, at);
      GoodIs(AfterRevoke(db, id, at).0);
    case OpRevokeSubject(kind, subject, at) => RevocationKeeps(db, kind, subject, at);
    case OpDeleteDevice(id) => DeleteExactly(db, id);
    case OpRevokeDevice(id, at) => MarkKeeps(db, id, at);
  }

  lemma GoodIs(db: Db)
    requires Good(db)
    ensures Sound(db) && OneTokenEach(db)
  {
  }

  lemma CreateExactly(db: Db, lookup: string, t: Token)
    requires Good(db)
    ensures OneTokenEach(AfterCreate(db, lookup, t).0) <==> Guarded(db, OpCreate(lookup, t))
  {
    hide InRange, Live;
    var next := AfterCreate(db, lookup, t).0;
    if lookup !in db.tokens && !IdTaken(db, t.id) {
      forall l, d ensures LiveFor(next, l, d) <==> LiveFor(db, l, d) || (l == lookup && Live(t) && d == t.subjectId) {
        if l == lookup {
          assert next.tokens[l] == t;
        }
      }
      if Live(t) {
        assert LiveFor(next, lookup, t.subjectId);
      }
    }
  }

  lemma DeleteExactly(db: Db, id: string)
    requires Good(db)
    ensures OneTokenEach(AfterDelete(db, id).0) <==> NoLiveToken(db, id)
  {
    hide InRange, Live;
    var next := AfterDelete(db, id).0;
    assert forall l, d :: LiveFor(next, l, d) <==> LiveFor(db, l, d);
  }

  lemma RevocationKeeps(db: Db, kind: TokenKind, subject: string, at: Instant)
    requires Good(db) && at != ZERO_TIME
    ensures OneTokenEach(AfterRevokeSubject(db, kind, subject, at))
  {
    hide InRange;
    var next := AfterRevokeSubject(db, kind, subject, at);
    forall l, d | LiveFor(next, l, d) ensures LiveFor(db, l, d) {
    }
  }

  lemma MarkKeeps(db: Db, id: string, at: Instant)
    requires Good(db)
    ensures OneTokenEach(AfterRevokeDevice(db, id, at).0)
  {
    hide InRange, Live;
    var next := AfterRevokeDevice(db, id, at).0;
    assert forall l, d :: LiveFor(next, l, d) <==> LiveFor(db, l, d);
  }

  /** The invariant after every transaction of a run. */
  ghost predicate AlwaysOneToken(db: Db, ops: seq<Op>)
    decreases |ops|
  {
    OneTokenEach(db) && (ops != [] ==> AlwaysOneToken(Apply(db, ops[0]).0, ops[1..]))
  }

  /** Every transaction of a run is guarded when its turn comes. */
  ghost predicate AllGuarded(db: Db, ops: seq<Op>)
    decreases |ops|
  {
    ops != [] ==> Guarded(db, ops[0]) && AllGuarded(Apply(db, ops[0]).0, ops[1..])
  }

  /** Whatever handlers the transactions belong to and however they interleave, the invariant holds all
      along exactly when every insertion of a device token and every deletion finds what it needs. */
  lemma {:induction false} InterleavingExactly(db: Db, ops: seq<Op>)
    requires Good(db) && AllOrdinary(ops)
    ensures AlwaysOneToken(db, ops) <==> AllGuarded(db, ops)
    decreases |ops|
  {
    hide Apply, Ordinary, Sound, OneTokenEach, Guarded;
    if ops != [] {
      assert ops[0] in ops;
      StepKeepsExactly(db, ops[0]);
      StepSound(db, ops[0]);
      if OneTokenEach(Apply(db, ops[0]).0) {
        InterleavingExactly(Apply(db, ops[0]).0, ops[1..]);
      }
    }
  }

  /** The first transaction that is not guarded breaks the invariant, whatever came before it. */
  lemma {:induction false} FirstUnguarded(db: Db, ops: seq<Op>, op: Op)
    requires Good(db) && AllOrdinary(ops) && Ordinary(op)
    requires AllGuarded(db, ops) && !Guarded(RunOps(db, ops), op)
    ensures Good(RunOps(db, ops)) && !OneTokenEach(Apply(RunOps(db, ops), op).0)
    decreases |ops|
  {
    hide Apply, Ordinary, Sound, OneTokenEach, Guarded;
    if ops == [] {
      StepKeepsExactly(db, op);
    } else {
      assert ops[0] in ops;
      StepKeepsExactly(db, ops[0]);
      StepSound(db, ops[0]);
      FirstUnguarded(Apply(db, ops[0]).0, ops[1..], op);
    }
  }

  lemma {:induction false} RunThree(db: Db, ops: seq<Op>)
    requires |ops| == 3
    ensures RunOps(db, ops) == Apply(Apply(Apply(db, ops[0]).0, ops[1]).0, ops[2]).0
    ensures AllGuarded(db, ops) <==>
            && Guarded(db, ops[0]) && Guarded(Apply(db, ops[0]).0, ops[1])
            && Guarded(Apply(Apply(db, ops[0]).0, ops[1]).0, ops[2])
  {
    hide Apply, Guarded;
    var rest := ops[1..];
    RunTwo(Apply(db, ops[0]).0, rest);
    assert rest[1..] == [ops[2]] && rest[1..][1..] == [];
    assert AllGuarded(Apply(Apply(db, ops[0]).0, ops[1]).0, rest[1..])
           <==> Guarded(Apply(Apply(db, ops[0]).0, ops[1]).0, ops[2]);
  }

  /** Two transactions at most: the guards, one by one. */
  lemma GuardedTwo(db: Db, ops: seq<Op>)
    requires |ops| <= 2
    ensures AllGuarded(db, ops) <==>
            && (|ops| > 0 ==> Guarded(db, ops[0]))
            && (|ops| > 1 ==> Guarded(Apply(db, ops[0]).0, ops[1]))
  {
    hide Apply, Guarded;
    if |ops| == 2 {
      assert ops[1..] == [ops[1]] && ops[1..][1..] == [];
      assert AllGuarded(Apply(db, ops[0]).0, ops[1..]) <==> Guarded(Apply(db, ops[0]).0, ops[1]);
    }
  }

  /** A handler that runs alone finds all its transactions guarded, wherever it stops. */
  lemma HandlerGuarded(hash: SecretHash, db: Db, r: Request, budget: nat)
    requires Good(db) && Timely(r)
    ensures AllGuarded(db, Steps(hash, db, r, budget))
  {
    hide InRange, Good, AfterCreate, AfterConsume, AfterRevokeSubject, AfterRevoke, NoLiveToken, Parse, AllGuarded,
         AfterRevokeDevice, AfterDelete;
    GuardedTwo(db, Steps(hash, db, r, budget));
    match r
    case Register(wire, dev, freshId, mint, now) =>
      if Parse(wire).Some? {
        ConsumeKeeps(db, Parse(wire).value.lookup, dev, freshId, now);
        ConsumeNames(db, Parse(wire).value.lookup, dev, freshId, now);
      }
    case Delete(id, now) => RevokeSubjectClears(db, id, now);
    case Rotate(id, mint, now) =>
      RevokeSubjectClears(db, id, now);
      RevokeSubjectKeepsRows(db, id, now);
    case _ =>
  }

  /** The transactions of handlers that run one after the other. */
  function StepsAll(hash: SecretHash, db: Db, rs: seq<(Request, nat)>): seq<Op>
    decreases |rs|
  {
    if rs == [] then []
    else Steps(hash, db, rs[0].0, rs[0].1) + StepsAll(hash, Served(hash, db, rs[0].0, rs[0].1).0, rs[1..])
  }

  lemma {:induction false} RunAppend(db: Db, a: seq<Op>, b: seq<Op>)
    ensures RunOps(db, a + b) == RunOps(RunOps(db, a), b)
    ensures AllGuarded(db, a + b) <==> AllGuarded(db, a) && AllGuarded(RunOps(db, a), b)
    decreases |a|
  {
    hide Apply, Guarded;
    if a == [] {
      assert a + b == b;
    } else {
      assert (a + b)[0] == a[0] && (a + b)[1..] == a[1..] + b;
      RunAppend(Apply(db, a[0]).0, a[1..], b);
    }
  }

  /** Handlers in sequence, each stopped anywhere, are a run of guarded transactions. */
  lemma {:induction false} RunsGuarded(hash: SecretHash, db: Db, rs: seq<(Request, nat)>)
    requires Good(db) && forall r :: r in rs ==> Timely(r.0)
    ensures var ops := StepsAll(hash, db, rs);
            AllGuarded(db, ops) && AllOrdinary(ops) && RunOps(db, ops) == ServedAll(hash, db, rs)
    decreases |rs|
  {
    hide Good, Timely, Served, Steps, Ordinary, RunOps, AllGuarded;
    if rs == [] {
      assert AllGuarded(db, []) && RunOps(db, []) == db by { EmptyRun(db); }
    } else {
      assert rs[0] in rs;
      var (r, budget) := rs[0];
      var next := Served(hash, db, r, budget).0;
      HandlerKeeps(hash, db, r, budget);
      HandlerGuarded(hash, db, r, budget);
      HandlerIsSteps(hash, db, r, budget);
      RunsGuarded(hash, next, rs[1..]);
      RunAppend(db, Steps(hash, db, r, budget), StepsAll(hash, next, rs[1..]));
    }
  }

  lemma EmptyRun(db: Db)
    ensures AllGuarded(db, []) && RunOps(db, []) == db
  {
  }

  /** Two rotations that both revoke before either inserts: the first insertion is guarded, the second is
      not, and two live tokens remain. */
  lemma InterleavedRotations(db: Db, id: string, m1: Minted, m2: Minted, now: Instant)
    requires Good(db) && id in db.devices && now != ZERO_TIME
    requires m1.lookup != m2.lookup && m1.tokenId != m2.tokenId && m1.lookup !in db.tokens && m2.lookup !in db.tokens
    requires !IdTaken(db, m1.tokenId) && !IdTaken(db, m2.tokenId)
    ensures var r, insert := OpRevokeSubject(DeviceToken, id, now), OpCreate(m2.lookup, DeviceTokenFor(m2, id, now));
            var before := RunOps(db, [r, r, OpCreate(m1.lookup, DeviceTokenFor(m1, id, now))]);
            var end := Apply(before, insert).0;
            && Good(before) && !Guarded(before, insert) && !OneTokenEach(end)
            && LiveFor(end, m1.lookup, id) && LiveFor(end, m2.lookup, id)
  {
    hide InRange, Sound, OneTokenEach, Live, AfterRevokeSubject, AfterCreate, NoLiveToken, RunOps, AllGuarded;
    var r := OpRevokeSubject(DeviceToken, id, now);
    var t1, t2 := DeviceTokenFor(m1, id, now), DeviceTokenFor(m2, id, now);
    var ops := [r, r, OpCreate(m1.lookup, t1)];
    var once := AfterRevokeSubject(db, DeviceToken, id, now);
    var twice := AfterRevokeSubject(once, DeviceToken, id, now);
    RevokeSubjectKeepsRows(db, id, now);
    RevokeSubjectKeepsRows(once, id, now);
    RevokeSubjectClears(db, id, now);
    RevokeSubjectClears(once, id, now);
    CreateFresh(twice, m1, id, now);
    CreateFresh(AfterCreate(twice, m1.lookup, t1).0, m2, id, now);
    RunThree(db, ops);
    LiveMeans(RunOps(db, ops), m1.lookup, id);
    assert Live(t2) by { FreshIsLive(m2, id, now); }
    FirstUnguarded(db, ops, OpCreate(m2.lookup, t2));
  }

  lemma LiveMeans(db: Db, l: string, device: string)
    requires LiveFor(db, l, device)
    ensures !NoLiveToken(db, device)
  {
  }

  lemma FreshIsLive(m: Minted, id: string, now: Instant)
    ensures Live(DeviceTokenFor(m, id, now))
  {
  }

  lemma RevokeSubjectKeepsRows(db: Db, id: string, now: Instant)
    ensures var next := AfterRevokeSubject(db, DeviceToken, id, now);
            && next.devices == db.devices
            && (forall l :: l in next.tokens <==> l in db.tokens)
            && (forall i :: IdTaken(next, i) <==> IdTaken(db, i))
  {
    var next := AfterRevokeSubject(db, DeviceToken, id, now);
    assert forall l :: l in db.tokens ==> next.tokens[l].id == db.tokens[l].id;
  }

  /** A device token with a new lookup and a new id is inserted, and is live. */
  lemma CreateFresh(db: Db, m: Minted, id: string, now: Instant)
    requires m.lookup !in db.tokens && !IdTaken(db, m.tokenId)
    ensures var next := AfterCreate(db, m.lookup, DeviceTokenFor(m, id, now)).0;
            && next.devices == db.devices && LiveFor(next, m.lookup, id)
            && (forall l :: l in next.tokens <==> l in db.tokens || l == m.lookup)
            && (forall i :: IdTaken(next, i) ==> IdTaken(db, i) || i == m.tokenId)
            && (forall l :: LiveFor(db, l, id) ==> LiveFor(next, l, id))
  {
  }

  /** A rotation whose device is deleted before its last store call: the insertion is not guarded, and a
      live token of a device that does not exist remains. */
  lemma RotationOvertakenByDeletion(db: Db, id: string, m: Minted, now: Instant)
    requires Good(db) && id in db.devices && now != ZERO_TIME && m.lookup !in db.tokens && !IdTaken(db, m.tokenId)
    ensures var r, insert := OpRevokeSubject(DeviceToken, id, now), OpCreate(m.lookup, DeviceTokenFor(m, id, now));
            var before := RunOps(db, [r, r, OpDeleteDevice(id)]);
            var end := Apply(before, insert).0;
            && Good(before) && !Guarded(before, insert) && !OneTokenEach(end)
            && LiveFor(end, m.lookup, id) && id !in end.devices
  {
    hide InRange, Sound, OneTokenEach, Live, AfterRevokeSubject, AfterCreate, NoLiveToken, RunOps, AllGuarded;
    var r := OpRevokeSubject(DeviceToken, id, now);
    var t := DeviceTokenFor(m, id, now);
    var ops := [r, r, OpDeleteDevice(id)];
    var once := AfterRevokeSubject(db, DeviceToken, id, now);
    var twice := AfterRevokeSubject(once, DeviceToken, id, now);
    RevokeSubjectKeepsRows(db, id, now);
    RevokeSubjectKeepsRows(once, id, now);
    RevokeSubjectClears(db, id, now);
    RevokeSubjectClears(once, id, now);
    CreateFresh(AfterDelete(twice, id).0, m, id, now);
    RunThree(db, ops);
    assert Live(t) by { FreshIsLive(m, id, now); }
    FirstUnguarded(db, ops, OpCreate(m.lookup, t));
  }
}
