/**
 The service's operations. Each takes the store lock, works on the tables, and then, where it has an
 event to record, takes the audit lock and writes one line. The two halves are separate functions, so
 that an operation is `StorePart` followed by the audit write.
 */
module Service {
  import opened Basics
  import opened Json
  import opened JsonValue
  import opened AuditEvent
  import opened AuditChain
  import opened AuditLog
  import opened Crypto
  import opened Tables
  import opened Requests
  import opened Clock

  /** The randomness an operation draws: ids, keys, nonces and secrets. */
  datatype Draw = Draw(
    vendorId: Uuid, printId: Uuid, shareId: Uuid, dek: Key, nonce: Nonce, wrapNonce: Nonce,
    urlToken: string, accessCode: string)

  /** When an operation runs and how its calls turn out. `ts` is the RFC 3339 text of the event's time. */
  datatype Moment = Moment(now: int, ts: string, weather: Weather, write: WriteFault)

  datatype Op =
    | Login(login: LoginRequest, sessionToken: string, csrf: Bytes, at: Moment)
    | Logout(token: string, caller: Caller, at: Moment)
    | Authenticate(token: string, at: Moment)
    | CreateShare(share: NewShareRequest, draw: Draw, at: Moment)
    | RedeemShare(redeem: RedeemRequest, at: Moment)
    | RevokeShare(id: Uuid, admin: Uuid, caller: Caller, at: Moment)
    | DeletePrint(id: Uuid, at: Moment)
    | DisableVendor(id: Uuid, at: Moment)
    | EndUserSessions(user: Uuid, at: Moment)
    | PurgeShares(graceSeconds: nat, at: Moment)
    | PurgeSessions(at: Moment)

  datatype ServiceError = StorageErr | CryptoErr | AuditErr | InvalidCredentials | NoSuchShare | ShareUnavailable

  datatype Reply =
    | LoggedIn(session: Session)
    | LoggedOut
    | Identified(found: Option<(Session, User)>)
    | Created(shareId: Uuid, urlToken: string, accessCode: string, vendor: Vendor)
    | Redeemed(shareId: Uuid, filename: string, content: Bytes, sha: Digest)
    | Done
    | Failed(error: ServiceError)

  /** After the store half: the tables, the line still to write, the answer, and the slot consumed. */
  datatype Mid = Mid(db: Db, line: Option<Event>, reply: Reply, slot: Option<Uuid>)

  /** A failing `?`: no line, no slot. */
  function Fail(db: Db, e: ServiceError): Mid {
    Mid(db, None, Failed(e), None)
  }

  // ----- event lines ----------------------------------------------------------------

  const NOTHING: Value := Object([])

  /** A scalar member put before those of an object whose names come later. */
  function With(name: string, v: Json, rest: Value): (o: Value)
    requires rest.Object? && !v.Array? && !v.Object?
    requires rest.members == [] || Before(name, rest.members[0].name)
    ensures o == Object([Member(name, v)] + rest.members)
    ensures Depth(o) == Depth(rest)
  {
    WithIsValue(name, v, rest);
    Object([Member(name, v)] + rest.members)
  }

  predicate Before(a: string, b: string) {
    a != "" && b != "" && a[0] < b[0]
  }

  lemma WithIsValue(name: string, v: Json, rest: Value)
    requires rest.Object? && !v.Array? && !v.Object?
    requires rest.members == [] || Before(name, rest.members[0].name)
    ensures IsValue(Object([Member(name, v)] + rest.members))
    ensures Depth(Object([Member(name, v)] + rest.members)) == Depth(rest)
  {
    var ms := [Member(name, v)] + rest.members;
    assert ms[1..] == rest.members && Depth(v) == 0;
    assert MembersDepth(ms) == MembersDepth(rest.members);
    forall j | 0 < j < |ms| ensures Less(ms[0].name, ms[j].name) {
      if j > 1 { LessTransitive(name, ms[1].name, ms[j].name); }
    }
  }

  function One(name: string, v: Json): (o: Value)
    requires !v.Array? && !v.Object?
    ensures Depth(o) == 1
  {
    With(name, v, NOTHING)
  }

  function Line(at: Moment, name: string, outcome: Outcome, user: Option<Uuid>, caller: Caller,
                target: Value, meta: Value): (e: Event)
    ensures e.target == target && e.meta == meta
  {
    Event(at.ts, name, Actor(user, caller.ip, caller.userAgent), target, outcome, meta, "", "")
  }

  function ShortToken(t: string): string {
    if |t| > 6 then t[..6] + "\U{2026}" else t
  }

  function ShareTarget(s: Share): (o: Value) {
    With("print_id", String(s.printId), With("share_id", String(s.id), One("vendor_id", String(s.vendorId))))
  }

  function CreatedMeta(r: NewShareRequest): (o: Value) {
    With("expires_in_hours", Number(NatText(r.expiresInHours)),
         With("filename", String(r.printFilename),
              With("max_downloads", Number(NatText(r.maxDownloads)),
                   With("note_present", Bool(r.note.Some?), One("size_bytes", Number(NatText(|r.printBytes|)))))))
  }

  function RedeemedMeta(f: Print): (o: Value) {
    With("filename", String(f.filename), One("size_bytes", Number(NatText(f.size))))
  }

  /** A line that says a redemption of share `id` succeeded. */
  predicate IsRedeemLine(e: Event, id: Uuid) {
    e.event == "share.redeem" && e.outcome == Success && Get(e.target, "share_id") == Some(String(id))
  }

  predicate IsRevokeLine(e: Event, id: Uuid) {
    e.event == "share.revoked" && Get(e.target, "share_id") == Some(String(id))
  }

  // ----- sessions -------------------------------------------------------------------

  ghost function UserByEmail(us: Users, email: string): (r: Option<Uuid>)
    ensures r.Some? ==> r.value in us && us[r.value].email == email
    ensures r.None? ==> forall id | id in us :: us[id].email != email
  {
    if id :| id in us && us[id].email == email then Some(id) else None
  }

  const TTL_HOURS: int := 12

  function NewSession(p: Provider, user: Uuid, token: string, csrf: Bytes, caller: Caller, now: int): Session {
    Session(p.sha(token), user, csrf, caller.ip, caller.userAgent,
            Millis(now + TTL_HOURS * 3600 * NANOS_PER_SECOND), Millis(now))
  }

  ghost function LoginStore(p: Provider, db: Db, r: LoginRequest, token: string, csrf: Bytes, at: Moment): (m: Mid)
    ensures m.db == db.(sessions := m.db.sessions)
  {
    var user := UserByEmail(db.users, r.email);
    if at.weather.failing == UserFind then Fail(db, StorageErr)
    else if user.None? || !PasswordFits(p, db.users[user.value], r.password) then
      Mid(db, Some(Line(at, "auth.login", Denied, None, r.caller, One("email", String(r.email)),
                        One("reason", String("invalid credentials")))), Failed(InvalidCredentials), None)
    else IssueSession(p, db, user.value, r.caller, token, csrf, at)
  }

  /** `sessions::create` and the line that records the login. */
  function IssueSession(p: Provider, db: Db, user: Uuid, caller: Caller, token: string, csrf: Bytes, at: Moment)
    : (m: Mid)
    ensures m.db == db.(sessions := m.db.sessions)
  {
    var s := NewSession(p, user, token, csrf, caller, at.now);
    if at.weather.failing == SessionInsert || !SessionInsertable(db, s) then Fail(db, StorageErr)
    else Mid(db.(sessions := db.sessions[s.idHash := s]),
             Some(Line(at, "auth.login", Success, Some(user), caller, One("user_id", String(user)), NOTHING)),
             LoggedIn(s), None)
  }

  /** `find_valid`: None where one of its two statements fails. */
  function LookUp(p: Provider, db: Db, token: string, at: Moment): (r: Option<(Db, Option<Session>)>)
    ensures r.Some? ==> r.value.0 == db.(sessions := r.value.0.sessions)
  {
    var h := p.sha(token);
    var found := FindSession(db.sessions, h, Millis(at.now));
    if at.weather.failing == SessionFind then None
    else if found.None? then Some((db, None))
    else if at.weather.failing == SessionTouch then None
    else Some((db.(sessions := TouchSession(db.sessions, h, Millis(at.now))), found))
  }

  function LogoutStore(p: Provider, db: Db, token: string, caller: Caller, at: Moment): (m: Mid)
    ensures m.db == db.(sessions := m.db.sessions)
  {
    var r := LookUp(p, db, token, at);
    if r.None? then Fail(db, StorageErr)
    else
      var (db', found) := r.value;
      if at.weather.failing == SessionDelete then Fail(db', StorageErr)
      else Mid(db'.(sessions := db'.sessions - {p.sha(token)}),
               Some(Line(at, "auth.logout", Success, if found.None? then None else Some(found.value.userId),
                         caller, NOTHING, NOTHING)), LoggedOut, None)
  }

  function AuthenticateStore(p: Provider, db: Db, token: string, at: Moment): (m: Mid)
    ensures m.db == db.(sessions := m.db.sessions)
  {
    var r := LookUp(p, db, token, at);
    if r.None? then Fail(db, StorageErr)
    else
      var (db', found) := r.value;
      if found.None? then Mid(db', None, Identified(None), None)
      else if at.weather.failing == UserFind then Fail(db', StorageErr)
      else
        var id := found.value.userId;
        if id !in db'.users || db'.users[id].disabledAt.Some? then Mid(db', None, Identified(None), None)
        else Mid(db', None, Identified(Some((found.value, db'.users[id]))), None)
  }

  // ----- shares ---------------------------------------------------------------------

  function NewVendor(r: NewShareRequest, id: Uuid, now: int): Vendor {
    Vendor(id, r.vendorDisplayName, r.vendorEmail, r.vendorPhone, r.createdBy, Millis(now), None)
  }

  function NewUpload(r: NewShareRequest, d: Draw, now: int): Upload {
    Upload(d.printId, r.printFilename, r.printBytes, r.createdBy, r.cuiAttested, d.dek, d.nonce, d.wrapNonce,
           Millis(now))
  }

  function NewShare(p: Provider, r: NewShareRequest, d: Draw, vendorId: Uuid, now: int): Share {
    Share(d.shareId, d.printId, vendorId, p.sha(d.urlToken), p.sha(d.accessCode),
          Millis(now + r.expiresInHours * 3600 * NANOS_PER_SECOND), r.maxDownloads, 0, r.note, r.createdBy,
          Millis(now), None)
  }

  /** The vendor to send to: the active one with that address, or a new row. */
  ghost function PickVendor(users: Users, vs: Vendors, r: NewShareRequest, d: Draw, at: Moment)
    : (Vendors, Option<Vendor>)
  {
    var known := VendorByEmail(vs, r.vendorEmail);
    var added := NewVendor(r, d.vendorId, at.now);
    if at.weather.failing == VendorFind then (vs, None)
    else if known.Some? then (vs, Some(vs[known.value]))
    else if at.weather.failing == VendorInsert || !VendorInsertable(users, vs, added) then (vs, None)
    else (vs[d.vendorId := added], Some(added))
  }

  /** No transaction: what the first statements did stays when a later one fails. */
  ghost function CreateStore(p: Provider, kek: Key, db: Db, r: NewShareRequest, d: Draw, at: Moment): Mid {
    var (vendors, vendor) := PickVendor(db.users, db.vendors, r, d, at);
    var db1 := db.(vendors := vendors);
    if vendor.None? then Fail(db1, StorageErr)
    else
      var (db2, row) := InsertPrint(p, kek, db1, NewUpload(r, d, at.now), at.weather);
      if row.Err? then Fail(db2, StorageErr) else CreateRow(p, db2, r, d, vendor.value, at)
  }

  /** What a creation leaves and answers, by how far it got. */
  lemma CreateParts(p: Provider, kek: Key, db: Db, r: NewShareRequest, d: Draw, at: Moment)
    ensures var (vendors, vendor) := PickVendor(db.users, db.vendors, r, d, at);
      var (db2, row) := InsertPrint(p, kek, db.(vendors := vendors), NewUpload(r, d, at.now), at.weather);
      CreateStore(p, kek, db, r, d, at)
        == if vendor.None? then Fail(db.(vendors := vendors), StorageErr)
           else if row.Err? then Fail(db2, StorageErr)
           else CreateRow(p, db2, r, d, vendor.value, at)
  {
    hide InsertPrint, PickVendor, CreateRow, NewUpload;
  }

  lemma CreateLeavesSessions(p: Provider, kek: Key, db: Db, r: NewShareRequest, d: Draw, at: Moment)
    ensures CreateStore(p, kek, db, r, d, at).db.sessions == db.sessions
    ensures CreateStore(p, kek, db, r, d, at).db.users == db.users
  {
    hide PickVendor, InsertPrint, CreateRow;
  }

  /** `shares::create` and the line that records it. */
  function CreateRow(p: Provider, db: Db, r: NewShareRequest, d: Draw, vendor: Vendor, at: Moment): (m: Mid)
    ensures m.db == db.(shares := m.db.shares)
  {
    var share := NewShare(p, r, d, vendor.id, at.now);
    if at.weather.failing == SecretDraw || at.weather.failing == ShareInsert || !ShareInsertable(db, share)
    then Fail(db, StorageErr)
    else Mid(db.(shares := db.shares[share.id := share]),
             Some(Line(at, "share.created", Success, Some(r.createdBy), r.caller, ShareTarget(share), CreatedMeta(r))),
             Created(share.id, d.urlToken, d.accessCode, vendor), None)
  }

  function Refusal(db: Db, at: Moment, caller: Caller, target: Value, reason: string, e: ServiceError): (m: Mid)
    ensures m.db == db
  {
    Mid(db, Some(Line(at, "share.redeem", Denied, None, caller, target, One("reason", String(reason)))),
        Failed(e), None)
  }

  ghost function RedeemStore(p: Provider, kek: Key, db: Db, r: RedeemRequest, at: Moment): (m: Mid)
    ensures m.db == db.(shares := m.db.shares)
    ensures var id := ShareByTokenHash(db.shares, p.sha(r.token));
      m.db.shares == db.shares || (id.Some? && m.db.shares == TryConsume(db.shares, id.value, Millis(at.now)).0)
  {
    var id := ShareByTokenHash(db.shares, p.sha(r.token));
    if at.weather.failing == TokenHash then Fail(db, CryptoErr)
    else if at.weather.failing == ShareFind then Fail(db, StorageErr)
    else if id.None? then
      Refusal(db, at, r.caller, One("token_prefix", String(ShortToken(r.token))), "unknown_token", NoSuchShare)
    else RedeemFound(p, kek, db, id.value, r, at)
  }

  /** The share is known: check the code, consume a slot, hand the file over. */
  function RedeemFound(p: Provider, kek: Key, db: Db, id: Uuid, r: RedeemRequest, at: Moment): (m: Mid)
    requires id in db.shares
    ensures m.db == db.(shares := m.db.shares)
    ensures m.db.shares == db.shares || m.db.shares == TryConsume(db.shares, id, Millis(at.now)).0
  {
    if at.weather.failing == CodeHash then Fail(db, StorageErr)
    else if p.sha(r.accessCode) != db.shares[id].codeHash then
      Refusal(db, at, r.caller, One("share_id", String(id)), "bad_access_code", InvalidCredentials)
    else RedeemSlot(p, kek, db, id, r, at)
  }

  /** The code is right: consume a slot, hand the file over. */
  function RedeemSlot(p: Provider, kek: Key, db: Db, id: Uuid, r: RedeemRequest, at: Moment): (m: Mid)
    requires id in db.shares
    ensures m.db == db.(shares := m.db.shares)
    ensures m.db.shares == db.shares || m.db.shares == TryConsume(db.shares, id, Millis(at.now)).0
  {
    if at.weather.failing == SlotConsume then Fail(db, StorageErr)
    else
      var (shares, consumed) := TryConsume(db.shares, id, Millis(at.now));
      if !consumed then
        Refusal(db, at, r.caller, One("share_id", String(id)), "unavailable", ShareUnavailable)
      else Deliver(p, kek, db.(shares := shares), db.shares[id], r, at)
  }

  /** After the slot is consumed: every exit below keeps it consumed. */
  function Deliver(p: Provider, kek: Key, db: Db, s: Share, r: RedeemRequest, at: Moment): (m: Mid)
    ensures m.db == db
  {
    if at.weather.failing == PrintFind then Fail(db, StorageErr).(slot := Some(s.id))
    else if s.printId !in db.prints then Fail(db, NoSuchShare).(slot := Some(s.id))
    else
      var f := db.prints[s.printId];
      var content := ReadBlob(p, kek, db, s.printId, at.weather.failing);
      if content.Err? then Fail(db, StorageErr).(slot := Some(s.id))
      else Mid(db, Some(Line(at, "share.redeem", Success, None, r.caller, ShareTarget(s), RedeemedMeta(f))),
               Redeemed(s.id, f.filename, content.value, f.sha), Some(s.id))
  }

  function Revoked(ss: Shares, id: Uuid, nowMs: int): Shares {
    var r := Tables.RevokeShare(ss, id, nowMs);
    if r.Err? then ss else r.value
  }

  function RevokeStore(db: Db, id: Uuid, admin: Uuid, caller: Caller, at: Moment): (m: Mid)
    ensures m.db == db.(shares := if at.weather.failing == RowUpdate then db.shares
                                  else Revoked(db.shares, id, Millis(at.now)))
  {
    var shares := Tables.RevokeShare(db.shares, id, Millis(at.now));
    if at.weather.failing == RowUpdate || shares.Err? then Fail(db, StorageErr)
    else Mid(db.(shares := shares.value),
             Some(Line(at, "share.revoked", Success, Some(admin), caller, One("share_id", String(id)), NOTHING)),
             Done, None)
  }

  /** A maintenance call of the storage crate: a new state or an error, never a line. */
  function Quiet(db: Db, failing: bool, db': Db): Mid {
    if failing then Fail(db, StorageErr) else Mid(db', None, Done, None)
  }

  function DeleteStore(db: Db, id: Uuid, at: Moment): Mid {
    var (db', r) := Tables.DeletePrint(db, id, at.weather);
    Quiet(db', r.Err?, db')
  }

  function DisableStore(db: Db, id: Uuid, at: Moment): Mid {
    var vendors := Tables.DisableVendor(db.vendors, id, Millis(at.now));
    if vendors.Err? then Fail(db, StorageErr)
    else Quiet(db, at.weather.failing == RowUpdate, db.(vendors := vendors.value))
  }

  function EndSessionsStore(db: Db, user: Uuid, at: Moment): (m: Mid)
    ensures m.db == db.(sessions := m.db.sessions)
  {
    Quiet(db, at.weather.failing == RowsDelete, db.(sessions := Tables.RevokeUserSessions(db.sessions, user)))
  }

  function PurgeSharesStore(db: Db, grace: nat, at: Moment): (m: Mid)
    ensures m.db == db.(shares := m.db.shares)
    ensures forall id | id in m.db.shares :: id in db.shares && m.db.shares[id] == db.shares[id]
  {
    Quiet(db, at.weather.failing == RowsDelete,
          db.(shares := Tables.PurgeShares(db.shares, PurgeCutoff(at.now, grace))))
  }

  function PurgeSessionsStore(db: Db, at: Moment): (m: Mid)
    ensures m.db == db.(sessions := m.db.sessions)
  {
    Quiet(db, at.weather.failing == RowsDelete, db.(sessions := Tables.PurgeSessions(db.sessions, Millis(at.now))))
  }

  ghost function StorePart(p: Provider, kek: Key, db: Db, op: Op): Mid {
    match op
    case Login(r, token, csrf, at) => LoginStore(p, db, r, token, csrf, at)
    case Logout(token, caller, at) => LogoutStore(p, db, token, caller, at)
    case Authenticate(token, at) => AuthenticateStore(p, db, token, at)
    case CreateShare(r, d, at) => CreateStore(p, kek, db, r, d, at)
    case RedeemShare(r, at) => RedeemStore(p, kek, db, r, at)
    case RevokeShare(id, admin, caller, at) => RevokeStore(db, id, admin, caller, at)
    case DeletePrint(id, at) => DeleteStore(db, id, at)
    case DisableVendor(id, at) => DisableStore(db, id, at)
    case EndUserSessions(user, at) => EndSessionsStore(db, user, at)
    case PurgeShares(grace, at) => PurgeSharesStore(db, grace, at)
    case PurgeSessions(at) => PurgeSessionsStore(db, at)
  }

  // ----- whole operations -------------------------------------------------------------

  /** The tables behind the store lock and the log behind the audit lock. */
  datatype World = World(db: Db, log: LogState)

  /** What a finished operation answered, and the download slot it used up. */
  datatype Answer = Answer(reply: Reply, slot: Option<Uuid>)

  function AuditPart(sha: Sha, log: LogState, m: Mid, fault: WriteFault): (LogState, Answer) {
    if m.line.None? then (log, Answer(m.reply, m.slot))
    else
      var (log', written) := WriteEvent(sha, log, m.line.value, fault);
      (log', Answer(if written then m.reply else Failed(AuditErr), m.slot))
  }

  ghost function Apply(p: Provider, kek: Key, w: World, op: Op): (World, Answer) {
    var m := StorePart(p, kek, w.db, op);
    var (log, answer) := AuditPart(p.sha, w.log, m, op.at.write);
    (World(m.db, log), answer)
  }

  /** The store half decides tables and reply, but that a reply whose line is not written for certain is an error. */
  lemma AnswerOf(p: Provider, kek: Key, w: World, op: Op)
    ensures var m, (w', a) := StorePart(p, kek, w.db, op), Apply(p, kek, w, op);
      && w'.db == m.db && a.slot == m.slot
      && a.reply == if m.line.None? || op.at.write.NoFault? then m.reply else Failed(AuditErr)
  {
    hide StorePart, AuditLog.Seal;
  }

  /** A run of operations one after the other, with their answers. */
  ghost function Run(p: Provider, kek: Key, w: World, ops: seq<Op>): (World, seq<Answer>)
    decreases |ops|
  {
    if ops == [] then (w, [])
    else
      var (w', answers) := Run(p, kek, w, ops[..|ops| - 1]);
      var (w'', answer) := Apply(p, kek, w', ops[|ops| - 1]);
      (w'', answers + [answer])
  }

  lemma RunSnoc(p: Provider, kek: Key, w: World, ops: seq<Op>, op: Op)
    ensures var (w', answers) := Run(p, kek, w, ops);
      var (w'', answer) := Apply(p, kek, w', op);
      Run(p, kek, w, ops + [op]) == (w'', answers + [answer])
  {
    assert (ops + [op])[..|ops|] == ops;
  }
}
