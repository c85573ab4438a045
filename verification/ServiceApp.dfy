/**
 The service object: the store, the log and the keys, with the operations as they are carried out, call by
 call with their early exits. Each is proved to be one step of the run that `Service` describes.
 */
module ServiceApp {
  import opened Basics
  import opened Json
  import opened JsonValue
  import opened AuditEvent
  import opened AuditChain
  import opened AuditLog
  import opened AuditExport
  import opened Clock
  import opened Crypto
  import opened Mac
  import opened Requests
  import opened Tables
  import opened Service
  import opened Storage
  import opened Lookups

  /** The line was put to the log, and the reply stands or becomes the log's error. */
  predicate Wrote(sha: Sha, before: LogState, line: Event, fault: WriteFault, after: LogState, reply: Reply, r: Reply) {
    var (log, written) := WriteEvent(sha, before, line, fault);
    after == log && r == if written then reply else Failed(AuditErr)
  }

  /** The store half came to `m`, and then its line, if any, was written. */
  predicate Follows(sha: Sha, before: LogState, m: Mid, fault: WriteFault, after: World, reply: Reply) {
    && after.db == m.db
    && (if m.line.None? then after.log == before && reply == m.reply
        else Wrote(sha, before, m.line.value, fault, after.log, m.reply, reply))
  }

  ghost predicate Did(p: Provider, kek: Key, before: World, op: Op, after: World, reply: Reply) {
    Follows(p.sha, before.log, StorePart(p, kek, before.db, op), op.at.write, after, reply)
  }

  /** What the methods do is one step of a run, with its answer. */
  lemma DidApply(p: Provider, kek: Key, before: World, op: Op, after: World, reply: Reply)
    ensures Did(p, kek, before, op, after, reply)
       <==> (after, reply) == (Apply(p, kek, before, op).0, Apply(p, kek, before, op).1.reply)
  {
    hide StorePart, WriteEvent;
  }

  lemma NothingToRead()
    ensures ReadText(TextOf(None)) == Ok([])
  {
    NoLines();
  }

  /** Where nobody else has written to it, the file reads as the logged events, unless one of them nests too deep. */
  lemma LinkedReads(app: App)
    requires app.Linked()
    ensures ReadText(TextOf(app.log.file.content))
         == if forall e | e in app.events :: Readable(e) then Ok(app.events) else Err(Serde)
  {
    ReadBack(app.events);
    hide ReadText, FileText, Readable;
  }

  /** The store half of each operation by its own name; queries by unique column keep one answer. */
  lemma PartOf(p: Provider, kek: Key, db: Db, op: Op)
    requires Determined(db)
    ensures Determined(StorePart(p, kek, db, op).db)
    ensures match op
      case Login(r, token, csrf, at) => StorePart(p, kek, db, op) == LoginStore(p, db, r, token, csrf, at)
      case Logout(token, caller, at) => StorePart(p, kek, db, op) == LogoutStore(p, db, token, caller, at)
      case Authenticate(token, at) => StorePart(p, kek, db, op) == AuthenticateStore(p, db, token, at)
      case CreateShare(r, d, at) => StorePart(p, kek, db, op) == CreateStore(p, kek, db, r, d, at)
      case RedeemShare(r, at) => StorePart(p, kek, db, op) == RedeemStore(p, kek, db, r, at)
      case RevokeShare(id, admin, caller, at) => StorePart(p, kek, db, op) == RevokeStore(db, id, admin, caller, at)
      case _ => true
  {
    hide Determined, LoginStore, LogoutStore, AuthenticateStore, CreateStore, RedeemStore, RevokeStore,
         Tables.DeletePrint, Tables.DisableVendor;
    KeepsDetermined(p, kek, db, op);
  }

  lemma RefusedUntouched(ss: Shares, id: Uuid, nowMs: int)
    ensures !TryConsume(ss, id, nowMs).1 ==> TryConsume(ss, id, nowMs).0 == ss
  {
  }

  /** The statements of `find_valid` come to its lookup in the tables. */
  lemma LookUpIs(p: Provider, db: Db, token: string, at: Moment, db': Db, r: Result<Option<Session>, StorageError>)
    requires db' == db.(sessions := db'.sessions)
    requires var found := FindSession(db.sessions, p.sha(token), Millis(at.now));
      if at.weather.failing == SessionFind || (at.weather.failing == SessionTouch && found.Some?)
      then r.Err? && db'.sessions == db.sessions
      else r == Ok(found)
           && db'.sessions == if found.Some? then TouchSession(db.sessions, p.sha(token), Millis(at.now))
                             else db.sessions
    ensures LookUp(p, db, token, at) == if r.Err? then None else Some((db', r.value))
    ensures r.Err? ==> db' == db
  {
    hide FindSession, TouchSession;
  }

  class App {
    const p: Provider
    const kek: Key
    const store: Store
    const log: Log
    ghost var events: seq<Event>

    constructor (p: Provider, kek: Key, store: Store, log: Log, ghost events: seq<Event>)
      ensures this.p == p && this.kek == kek && this.store == store && this.log == log && this.events == events
    {
      this.p, this.kek, this.store, this.log, this.events := p, kek, store, log, events;
    }

    /** The file is the text of `events`, hashed with the provider's hash. */
    ghost predicate Linked()
      reads this, log, log.file
    {
      log.sha == p.sha && log.Holds(LogNow())
    }

    /** Besides, queries by a unique column have one answer. */
    ghost predicate Valid()
      reads this, store, log, log.file
    {
      Linked() && Determined(store.Db())
    }

    ghost function LogNow(): LogState
      reads this, log
    {
      LogState(events, log.prevHash)
    }

    ghost function State(): World
      reads this, store, log
    {
      World(store.Db(), LogNow())
    }

    /** `write_event`, and the reply it leaves standing. */
    method Record(line: Event, fault: WriteFault, reply: Reply) returns (r: Reply)
      requires Linked()
      modifies this`events, log, log.file
      ensures Linked()
      ensures Wrote(p.sha, old(LogNow()), line, fault, LogNow(), reply, r)
    {
      WriteEventText(p.sha, LogNow(), line, fault);
      ghost var after := WriteEvent(p.sha, LogNow(), line, fault).0;
      var written := log.Write(line, fault);
      events := after.events;
      return if written.Ok? then reply else Failed(AuditErr);
    }

    method Login(r: LoginRequest, token: string, csrf: Bytes, at: Moment) returns (reply: Reply)
      requires Valid()
      modifies this`events, store`sessions, log, log.file
      ensures Valid()
      ensures Did(p, kek, old(State()), Op.Login(r, token, csrf, at), State(), reply)
    {
      hide StorePart, Determined, PasswordFits, Wrote, Line, One, Service.IssueSession, FileText;
      PartOf(p, kek, store.Db(), Op.Login(r, token, csrf, at));
      var user := store.VerifyPassword(p, r.email, r.password, at.weather.failing);
      if user.Err? {
        return Failed(StorageErr);
      }
      OnlyUser(p, store.Db(), r.email, r.password, user.value);
      if user.value.None? {
        reply := Record(Line(at, "auth.login", Denied, None, r.caller, One("email", String(r.email)),
                             One("reason", String("invalid credentials"))), at.write, Failed(InvalidCredentials));
        return;
      }
      reply := IssueSession(user.value.value, r.caller, token, csrf, at);
    }

    method IssueSession(user: Uuid, caller: Caller, token: string, csrf: Bytes, at: Moment) returns (reply: Reply)
      requires Linked()
      modifies this`events, store`sessions, log, log.file
      ensures Linked()
      ensures Follows(p.sha, old(LogNow()), Service.IssueSession(p, old(store.Db()), user, caller, token, csrf, at),
                      at.write, State(), reply)
    {
      hide Wrote, Line, One, NewSession, FileText;
      var s := NewSession(p, user, token, csrf, caller, at.now);
      var issued := store.CreateSession(s, at.weather.failing);
      if issued.Err? {
        return Failed(StorageErr);
      }
      reply := Record(Line(at, "auth.login", Success, Some(user), caller, One("user_id", String(user)), NOTHING),
                      at.write, LoggedIn(s));
    }

    method Logout(token: string, caller: Caller, at: Moment) returns (reply: Reply)
      requires Valid()
      modifies this`events, store`sessions, log, log.file
      ensures Valid()
      ensures Did(p, kek, old(State()), Op.Logout(token, caller, at), State(), reply)
    {
      hide StorePart, Determined, Wrote, Line, FileText, FindSession, TouchSession, LookUp;
      PartOf(p, kek, store.Db(), Op.Logout(token, caller, at));
      ghost var db := store.Db();
      var found := store.FindValidSession(p.sha(token), at.now, at.weather.failing);
      LookUpIs(p, db, token, at, store.Db(), found);
      if found.Err? {
        return Failed(StorageErr);
      }
      var gone := store.RevokeSession(p.sha(token), at.weather.failing);
      if gone.Err? {
        return Failed(StorageErr);
      }
      var user := if found.value.None? then None else Some(found.value.value.userId);
      reply := Record(Line(at, "auth.logout", Success, user, caller, NOTHING, NOTHING), at.write, LoggedOut);
    }

    method FindAuthenticated(token: string, at: Moment) returns (reply: Reply)
      requires Valid()
      modifies store`sessions
      ensures Valid()
      ensures Did(p, kek, old(State()), Op.Authenticate(token, at), State(), reply)
    {
      hide StorePart, Determined, FileText, FindSession, TouchSession, LookUp;
      PartOf(p, kek, store.Db(), Op.Authenticate(token, at));
      ghost var db := store.Db();
      var found := store.FindValidSession(p.sha(token), at.now, at.weather.failing);
      LookUpIs(p, db, token, at, store.Db(), found);
      if found.Err? {
        return Failed(StorageErr);
      }
      if found.value.None? {
        return Identified(None);
      }
      var session := found.value.value;
      if at.weather.failing == UserFind {
        return Failed(StorageErr);
      }
      if session.userId !in store.users || store.users[session.userId].disabledAt.Some? {
        return Identified(None);
      }
      return Identified(Some((session, store.users[session.userId])));
    }

    /** The vendor to send to: looked up, or created where there is none. */
    method PickVendor(r: NewShareRequest, d: Draw, at: Moment) returns (vendor: Option<Vendor>)
      requires Valid()
      modifies store`vendors
      ensures (store.vendors, vendor) == Service.PickVendor(store.users, old(store.vendors), r, d, at)
    {
      var known := store.FindVendorByEmail(r.vendorEmail, at.weather.failing);
      if known.Err? {
        return None;
      }
      if known.value.Some? {
        OnlyVendor(store.Db(), known.value.value, r.vendorEmail);
        return Some(store.vendors[known.value.value]);
      }
      var created := store.CreateVendor(NewVendor(r, d.vendorId, at.now), at.weather.failing);
      return if created.Ok? then Some(created.value) else None;
    }

    /** Vendor, print, share, line: what is done stays done when a later step fails. */
    method CreateShare(r: NewShareRequest, d: Draw, at: Moment) returns (reply: Reply)
      requires Valid()
      modifies this`events, store`vendors, store`prints, store`blobs, store`shares, log, log.file
      ensures Valid()
      ensures Did(p, kek, old(State()), Op.CreateShare(r, d, at), State(), reply)
    {
      hide StorePart, Determined, Wrote, NewUpload, FileText, Service.PickVendor, Service.CreateRow, Tables.InsertPrint;
      PartOf(p, kek, store.Db(), Op.CreateShare(r, d, at));
      var vendor := PickVendor(r, d, at);
      if vendor.None? {
        return Failed(StorageErr);
      }
      var added := store.InsertPrint(p, kek, NewUpload(r, d, at.now), at.weather);
      if added.Err? {
        return Failed(StorageErr);
      }
      reply := CreateRow(r, d, vendor.value, at);
    }

    /** The share's row, and the line that records it. */
    method CreateRow(r: NewShareRequest, d: Draw, vendor: Vendor, at: Moment) returns (reply: Reply)
      requires Linked()
      modifies this`events, store`shares, log, log.file
      ensures Linked()
      ensures Follows(p.sha, old(LogNow()), Service.CreateRow(p, old(store.Db()), r, d, vendor, at), at.write,
                      State(), reply)
    {
      hide Wrote, Line, ShareTarget, CreatedMeta, NewShare, FileText;
      var share := NewShare(p, r, d, vendor.id, at.now);
      var created := store.CreateShare(share, at.weather.failing);
      if created.Err? {
        return Failed(StorageErr);
      }
      reply := Record(Line(at, "share.created", Success, Some(r.createdBy), r.caller, ShareTarget(share),
                           CreatedMeta(r)),
                      at.write, Created(share.id, d.urlToken, d.accessCode, vendor));
    }

    method RevokeShare(id: Uuid, admin: Uuid, caller: Caller, at: Moment) returns (reply: Reply)
      requires Valid()
      modifies this`events, store`shares, log, log.file
      ensures Valid()
      ensures Did(p, kek, old(State()), Op.RevokeShare(id, admin, caller, at), State(), reply)
    {
      hide StorePart, Determined, Wrote, Line, One, FileText, Millis;
      PartOf(p, kek, store.Db(), Op.RevokeShare(id, admin, caller, at));
      var revoked := store.RevokeShare(id, at.now, at.weather.failing);
      if revoked.Err? {
        return Failed(StorageErr);
      }
      reply := Record(Line(at, "share.revoked", Success, Some(admin), caller, One("share_id", String(id)), NOTHING),
                      at.write, Done);
    }

    /** A line that says why nothing is handed over, and the error it comes with. */
    method Refuse(caller: Caller, target: Value, reason: string, e: ServiceError, at: Moment) returns (reply: Reply)
      requires Linked()
      modifies this`events, log, log.file
      ensures Linked()
      ensures Follows(p.sha, old(LogNow()), Refusal(store.Db(), at, caller, target, reason, e), at.write, State(),
                      reply)
    {
      hide Wrote, Line, One, FileText;
      reply := Record(Line(at, "share.redeem", Denied, None, caller, target, One("reason", String(reason))),
                      at.write, Failed(e));
    }

    method RedeemShare(r: RedeemRequest, at: Moment) returns (reply: Reply)
      requires Valid()
      modifies this`events, store`shares, log, log.file
      ensures Valid()
      ensures Did(p, kek, old(State()), Op.RedeemShare(r, at), State(), reply)
    {
      hide StorePart, Determined, Wrote, Refusal, One, Service.RedeemFound, FileText;
      PartOf(p, kek, store.Db(), Op.RedeemShare(r, at));
      if at.weather.failing == TokenHash {
        return Failed(CryptoErr);
      }
      var id := store.FindShareByTokenHash(p.sha(r.token), at.weather.failing);
      if id.Err? {
        return Failed(StorageErr);
      }
      if id.value.None? {
        reply := Refuse(r.caller, One("token_prefix", String(ShortToken(r.token))), "unknown_token", NoSuchShare, at);
        return;
      }
      OnlyShare(store.Db(), id.value.value, p.sha(r.token));
      reply := RedeemFound(id.value.value, r, at);
    }

    /** The share is known: the code is compared. */
    method RedeemFound(id: Uuid, r: RedeemRequest, at: Moment) returns (reply: Reply)
      requires Linked() && id in store.shares
      modifies this`events, store`shares, log, log.file
      ensures Linked()
      ensures Follows(p.sha, old(LogNow()), Service.RedeemFound(p, kek, old(store.Db()), id, r, at), at.write,
                      State(), reply)
    {
      hide Wrote, Refusal, One, Service.RedeemSlot, FileText;
      if at.weather.failing == CodeHash {
        return Failed(StorageErr);
      }
      var fits := VerifyAccessCode(p.sha, store.shares[id].codeHash, r.accessCode);
      if !fits {
        reply := Refuse(r.caller, One("share_id", String(id)), "bad_access_code", InvalidCredentials, at);
        return;
      }
      reply := RedeemSlot(id, r, at);
    }

    /** The code is right: a slot is consumed, and the file read and handed over. */
    method RedeemSlot(id: Uuid, r: RedeemRequest, at: Moment) returns (reply: Reply)
      requires Linked() && id in store.shares
      modifies this`events, store`shares, log, log.file
      ensures Linked()
      ensures Follows(p.sha, old(LogNow()), Service.RedeemSlot(p, kek, old(store.Db()), id, r, at), at.write,
                      State(), reply)
    {
      hide Wrote, Refusal, One, TryConsume, Service.Deliver, FileText, Millis;
      ghost var db := store.Db();
      RefusedUntouched(store.shares, id, Millis(at.now));
      var share := store.shares[id];
      var consumed := store.TryConsumeDownload(id, at.now, at.weather.failing);
      if consumed.Err? {
        return Failed(StorageErr);
      }
      if !consumed.value {
        reply := Refuse(r.caller, One("share_id", String(id)), "unavailable", ShareUnavailable, at);
        return;
      }
      assert store.Db() == db.(shares := TryConsume(db.shares, id, Millis(at.now)).0);
      reply := Deliver(share, r, at);
    }

    /** The slot is gone already: every failure from here on loses it. */
    method Deliver(s: Share, r: RedeemRequest, at: Moment) returns (reply: Reply)
      requires Linked()
      modifies this`events, log, log.file
      ensures Linked()
      ensures Follows(p.sha, old(LogNow()), Service.Deliver(p, kek, store.Db(), s, r, at), at.write, State(), reply)
    {
      hide Wrote, Line, ShareTarget, RedeemedMeta, FileText, Tables.ReadBlob;
      var found := store.FindPrint(s.printId, at.weather.failing == PrintFind);
      if found.Err? {
        return Failed(StorageErr);
      }
      if found.value.None? {
        return Failed(NoSuchShare);
      }
      var f := found.value.value;
      var content := store.ReadBlob(p, kek, s.printId, at.weather.failing);
      if content.Err? {
        return Failed(StorageErr);
      }
      reply := Record(Line(at, "share.redeem", Success, None, r.caller, ShareTarget(s), RedeemedMeta(f)), at.write,
                      Redeemed(s.id, f.filename, content.value, f.sha));
    }

    /** `list_audit_events`: the file read back, verified, filtered, cut to the last `limit` and reversed. */
    method ListAuditEvents(prefix: Option<string>, limit: nat, io: bool) returns (r: Result<AuditView, AuditError>)
      ensures log.file.content.Some? && !io ==> r == Err(AuditError.Io)
      ensures log.file.content.None? || io ==>
        match ReadText(TextOf(log.file.content))
        case Err(e) => r == Err(e)
        case Ok(all) => r.Ok? && Shows(p.sha, all, prefix, limit, r.value)
    {
      hide ReadText, Shows;
      NothingToRead();
      var all := log.ReadAll(io);
      if all.Err? {
        return Err(all.error);
      }
      var view := BuildView(p.sha, all.value, prefix, limit);
      return Ok(view);
    }
  }
}
