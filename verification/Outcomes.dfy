/**
 What each operation comes to, said on the rows, the line and the answer themselves: every exit, every field.
 The helper functions the operations are made of do not occur here.
 */
module Outcomes {
  import opened Basics
  import opened Json
  import opened JsonValue
  import opened AuditEvent
  import opened AuditChain
  import opened AuditLog
  import opened Crypto
  import opened Tables
  import opened Requests
  import opened Clock
  import opened Service

  // ----- the line ---------------------------------------------------------------------

  /** The event in the file: when, what, who from where, about what, with which outcome and further data. */
  ghost predicate Says(e: Event, at: Moment, name: string, outcome: Outcome, who: Option<Uuid>, caller: Caller,
                       target: Json, meta: Json)
  {
    && e.ts == at.ts && e.event == name && e.outcome == outcome
    && e.actor.userId == who && e.actor.ip == caller.ip && e.actor.ua == caller.userAgent
    && e.target == target && e.meta == meta
  }

  /** One event was put to the log, and is in it where the append landed, linked to what was last written. */
  ghost predicate Records(sha: Sha, before: LogState, after: LogState, at: Moment, name: string, outcome: Outcome,
                          who: Option<Uuid>, caller: Caller, target: Json, meta: Json)
  {
    if at.write == HashFails then after == before
    else exists e: Event ::
      && Says(e, at, name, outcome, who, caller, target, meta) && Extends(sha, before.prev, e) && after.prev == e.hash
      && after.events == if at.write == NoFault || at.write == SyncFails then before.events + [e] else before.events
  }

  /** The reply if the line was written for certain, and the log's error otherwise. */
  predicate Answers(a: Answer, at: Moment, reply: Reply) {
    a.reply == if at.write == NoFault then reply else Failed(AuditErr)
  }

  /** An error, with nothing changed and nothing logged. */
  ghost predicate Refuses(w: World, w': World, a: Answer, e: ServiceError) {
    w' == w && a.reply == Failed(e) && a.slot == None
  }

  /** The store half's line is what is recorded. */
  lemma LineRecorded(p: Provider, kek: Key, w: World, op: Op, name: string, outcome: Outcome, who: Option<Uuid>,
                     caller: Caller, target: Json, meta: Json)
    requires var line := StorePart(p, kek, w.db, op).line;
      line.Some? && Says(line.value, op.at, name, outcome, who, caller, target, meta)
    ensures Records(p.sha, w.log, Apply(p, kek, w, op).0.log, op.at, name, outcome, who, caller, target, meta)
  {
    hide StorePart, HashOf;
    var s := AuditLog.Seal(p.sha, StorePart(p, kek, w.db, op).line.value, w.log.prev);
    assert Says(s, op.at, name, outcome, who, caller, target, meta);
  }

  /** Where the store half has no line, it is all there is. */
  lemma Unrecorded(p: Provider, kek: Key, w: World, op: Op)
    requires StorePart(p, kek, w.db, op).line.None?
    ensures var m, (w', a) := StorePart(p, kek, w.db, op), Apply(p, kek, w, op);
      w' == World(m.db, w.log) && a == Answer(m.reply, m.slot)
  {
    hide StorePart;
  }

  lemma ScalarIs(name: string, v: Json)
    requires !v.Array? && !v.Object?
    ensures One(name, v) == Object([Member(name, v)])
  {
    assert [Member(name, v)] + [] == [Member(name, v)];
  }

  // ----- logging in -----------------------------------------------------------------------

  lemma DeniedLogin(p: Provider, db: Db, r: LoginRequest, token: string, csrf: Bytes, at: Moment)
    requires Determined(db) && at.weather.failing != UserFind
    requires forall id | id in db.users && db.users[id].email == r.email && db.users[id].disabledAt.None? ::
      p.pbkdf2(r.password, db.users[id].passwordSalt, db.users[id].passwordIters) != db.users[id].passwordHash
    ensures var m := LoginStore(p, db, r, token, csrf, at);
      && m.db == db && m.reply == Failed(InvalidCredentials) && m.slot == None && m.line.Some?
      && Says(m.line.value, at, "auth.login", Denied, None, r.caller, Object([Member("email", String(r.email))]),
              Object([Member("reason", String("invalid credentials"))]))
  {
    ScalarIs("email", String(r.email));
    ScalarIs("reason", String("invalid credentials"));
    hide One, IssueSession, Determined;
  }

  lemma GrantedLogin(p: Provider, db: Db, r: LoginRequest, token: string, csrf: Bytes, at: Moment, id: Uuid)
    requires Determined(db) && at.weather.failing != UserFind
    requires id in db.users && db.users[id].email == r.email && db.users[id].disabledAt.None?
    requires p.pbkdf2(r.password, db.users[id].passwordSalt, db.users[id].passwordIters) == db.users[id].passwordHash
    ensures LoginStore(p, db, r, token, csrf, at) == IssueSession(p, db, id, r.caller, token, csrf, at)
  {
    hide One, Line, IssueSession, OneActiveVendor, DistinctTokens;
  }

  lemma SessionRow(p: Provider, db: Db, id: Uuid, caller: Caller, token: string, csrf: Bytes, at: Moment)
    requires id in db.users
    ensures var m, h := IssueSession(p, db, id, caller, token, csrf, at), p.sha(token);
      var s := Session(h, id, csrf, caller.ip, caller.userAgent, Millis(at.now + 12 * 3600 * 1_000_000_000),
                       Millis(at.now));
      if at.weather.failing == SessionInsert || h in db.sessions then m == Mid(db, None, Failed(StorageErr), None)
      else
        && m.db == db.(sessions := db.sessions[h := s]) && m.reply == LoggedIn(s) && m.slot == None && m.line.Some?
        && Says(m.line.value, at, "auth.login", Success, Some(id), caller, Object([Member("user_id", String(id))]),
                Object([]))
  {
    ScalarIs("user_id", String(id));
    hide One, Millis;
  }

  /** Refused, without a word on what did not fit. */
  ghost predicate LoginDenied(p: Provider, w: World, w': World, a: Answer, r: LoginRequest, at: Moment) {
    && w'.db == w.db && Answers(a, at, Failed(InvalidCredentials)) && a.slot == None
    && Records(p.sha, w.log, w'.log, at, "auth.login", Denied, None, r.caller,
               Object([Member("email", String(r.email))]), Object([Member("reason", String("invalid credentials"))]))
  }

  /** One session stored, for twelve hours and the client that asked, and handed out. */
  ghost predicate LoginGranted(p: Provider, w: World, w': World, a: Answer, id: Uuid, r: LoginRequest, token: string,
                               csrf: Bytes, at: Moment)
  {
    var h := p.sha(token);
    var s := Session(h, id, csrf, r.caller.ip, r.caller.userAgent, Millis(at.now + 12 * 3600 * 1_000_000_000),
                     Millis(at.now));
    && w'.db == w.db.(sessions := w.db.sessions[h := s]) && Answers(a, at, LoggedIn(s)) && a.slot == None
    && Records(p.sha, w.log, w'.log, at, "auth.login", Success, Some(id), r.caller,
               Object([Member("user_id", String(id))]), Object([]))
  }

  /**
   A login, exit by exit. It is granted exactly where an enabled user has the address and the password derives to
   the hash in that user's row; and then it stores one session for the client and twelve hours.
   */
  lemma LoginOutcome(p: Provider, kek: Key, w: World, r: LoginRequest, token: string, csrf: Bytes, at: Moment)
    requires Determined(w.db)
    ensures var (w', a) := Apply(p, kek, w, Op.Login(r, token, csrf, at));
      var us, h := w.db.users, p.sha(token);
      var fits := set id | id in us && us[id].email == r.email && us[id].disabledAt.None?
                           && p.pbkdf2(r.password, us[id].passwordSalt, us[id].passwordIters) == us[id].passwordHash;
      if at.weather.failing == UserFind then Refuses(w, w', a, StorageErr)
      else if fits == {} then LoginDenied(p, w, w', a, r, at)
      else if at.weather.failing == SessionInsert || h in w.db.sessions then Refuses(w, w', a, StorageErr)
      else exists id: Uuid :: fits == {id} && LoginGranted(p, w, w', a, id, r, token, csrf, at)
  {
    hide Apply, StorePart, LoginStore, IssueSession, OneActiveVendor, DistinctTokens, Says, Records, Millis;
    var op := Op.Login(r, token, csrf, at);
    LoginPart(p, kek, w.db, r, token, csrf, at);
    AnswerOf(p, kek, w, op);
    var us := w.db.users;
    var fits := set id | id in us && us[id].email == r.email && us[id].disabledAt.None?
                         && p.pbkdf2(r.password, us[id].passwordSalt, us[id].passwordIters) == us[id].passwordHash;
    if at.weather.failing == UserFind {
      LoginUnreached(p, w.db, r, token, csrf, at);
      Unrecorded(p, kek, w, op);
    } else if fits == {} {
      forall id | id in us && us[id].email == r.email && us[id].disabledAt.None?
        ensures p.pbkdf2(r.password, us[id].passwordSalt, us[id].passwordIters) != us[id].passwordHash
      {
        assert id !in fits;
      }
      DeniedLogin(p, w.db, r, token, csrf, at);
      LineRecorded(p, kek, w, op, "auth.login", Denied, None, r.caller, Object([Member("email", String(r.email))]),
                   Object([Member("reason", String("invalid credentials"))]));
    } else {
      var id :| id in fits;
      assert fits == {id};
      GrantedLogin(p, w.db, r, token, csrf, at, id);
      SessionRow(p, w.db, id, r.caller, token, csrf, at);
      if at.weather.failing == SessionInsert || p.sha(token) in w.db.sessions {
        Unrecorded(p, kek, w, op);
      } else {
        LineRecorded(p, kek, w, op, "auth.login", Success, Some(id), r.caller,
                     Object([Member("user_id", String(id))]), Object([]));
      }
    }
  }

  lemma LoginPart(p: Provider, kek: Key, db: Db, r: LoginRequest, token: string, csrf: Bytes, at: Moment)
    ensures StorePart(p, kek, db, Op.Login(r, token, csrf, at)) == LoginStore(p, db, r, token, csrf, at)
  {
    hide LoginStore;
  }

  lemma LoginUnreached(p: Provider, db: Db, r: LoginRequest, token: string, csrf: Bytes, at: Moment)
    requires at.weather.failing == UserFind
    ensures LoginStore(p, db, r, token, csrf, at) == Mid(db, None, Failed(StorageErr), None)
  {
    hide One, Line, IssueSession;
  }

  // ----- sessions ---------------------------------------------------------------------------

  lemma Removed(ss: Sessions, h: Digest, s: Session)
    requires h in ss
    ensures ss[h := s] - {h} == ss - {h}
  {
  }

  lemma LogoutPart(p: Provider, kek: Key, db: Db, token: string, caller: Caller, at: Moment)
    ensures var m, h, ss := StorePart(p, kek, db, Op.Logout(token, caller, at)), p.sha(token), db.sessions;
      var live := h in ss && ss[h].expiresAt > Millis(at.now);
      if at.weather.failing == SessionFind || (at.weather.failing == SessionTouch && live)
      then m == Mid(db, None, Failed(StorageErr), None)
      else if at.weather.failing == SessionDelete
      then m == Mid(db.(sessions := if live then ss[h := ss[h].(lastSeenAt := Millis(at.now))] else ss), None,
                    Failed(StorageErr), None)
      else m.db == db.(sessions := ss - {h}) && m.reply == LoggedOut && m.slot == None && m.line.Some?
           && Says(m.line.value, at, "auth.logout", Success, if live then Some(ss[h].userId) else None, caller,
                   Object([]), Object([]))
  {
    hide Millis;
    if p.sha(token) in db.sessions {
      var s := db.sessions[p.sha(token)];
      Removed(db.sessions, p.sha(token), s.(lastSeenAt := Millis(at.now)));
    }
  }

  /** A logout, exit by exit: the token's row goes, and the line names its user if the session was still valid. */
  lemma LogoutOutcome(p: Provider, kek: Key, w: World, token: string, caller: Caller, at: Moment)
    ensures var (w', a) := Apply(p, kek, w, Op.Logout(token, caller, at));
      var h, ss := p.sha(token), w.db.sessions;
      var live := h in ss && ss[h].expiresAt > Millis(at.now);
      if at.weather.failing == SessionFind || (at.weather.failing == SessionTouch && live)
      then Refuses(w, w', a, StorageErr)
      else if at.weather.failing == SessionDelete then
        && w' == w.(db := w.db.(sessions := if live then ss[h := ss[h].(lastSeenAt := Millis(at.now))] else ss))
        && a == Answer(Failed(StorageErr), None)
      else
        && w'.db == w.db.(sessions := ss - {h}) && Answers(a, at, LoggedOut) && a.slot == None
        && Records(p.sha, w.log, w'.log, at, "auth.logout", Success, if live then Some(ss[h].userId) else None,
                   caller, Object([]), Object([]))
  {
    hide Apply, StorePart, Says, Records, Millis;
    var op := Op.Logout(token, caller, at);
    LogoutPart(p, kek, w.db, token, caller, at);
    AnswerOf(p, kek, w, op);
    if StorePart(p, kek, w.db, op).line.None? {
      Unrecorded(p, kek, w, op);
    } else {
      var h, ss := p.sha(token), w.db.sessions;
      var live := h in ss && ss[h].expiresAt > Millis(at.now);
      LineRecorded(p, kek, w, op, "auth.logout", Success, if live then Some(ss[h].userId) else None, caller,
                   Object([]), Object([]));
    }
  }

  /**
   Looking a session up, exit by exit: the row and the enabled user it belongs to, while it lasts; the row is
   stamped with the time, and the log is not touched.
   */
  lemma AuthenticateOutcome(p: Provider, kek: Key, w: World, token: string, at: Moment)
    ensures var (w', a) := Apply(p, kek, w, Op.Authenticate(token, at));
      var h, ss, us := p.sha(token), w.db.sessions, w.db.users;
      var live := h in ss && ss[h].expiresAt > Millis(at.now);
      if at.weather.failing == SessionFind || (at.weather.failing == SessionTouch && live)
      then Refuses(w, w', a, StorageErr)
      else if !live then w' == w && a == Answer(Identified(None), None)
      else
        var id := ss[h].userId;
        && w' == w.(db := w.db.(sessions := ss[h := ss[h].(lastSeenAt := Millis(at.now))]))
        && a.slot == None
        && a.reply == if at.weather.failing == UserFind then Failed(StorageErr)
                      else if id in us && us[id].disabledAt.None? then Identified(Some((ss[h], us[id])))
                      else Identified(None)
  {
    hide Millis, WriteEvent;
  }

  // ----- revocation and maintenance ---------------------------------------------------------

  lemma RevokePart(p: Provider, kek: Key, db: Db, id: Uuid, admin: Uuid, caller: Caller, at: Moment)
    ensures var m, ss := StorePart(p, kek, db, Op.RevokeShare(id, admin, caller, at)), db.shares;
      if at.weather.failing != RowUpdate && id in ss && ss[id].revokedAt.None? then
        && m.db == db.(shares := ss[id := ss[id].(revokedAt := Some(Millis(at.now)))])
        && m.reply == Done && m.slot == None && m.line.Some?
        && Says(m.line.value, at, "share.revoked", Success, Some(admin), caller,
                Object([Member("share_id", String(id))]), Object([]))
      else m == Mid(db, None, Failed(StorageErr), None)
  {
    hide Millis, One;
    ScalarIs("share_id", String(id));
  }

  /** A revocation stamps every share not revoked yet, whatever became of it, and nothing else ever does. */
  lemma RevokedExactly(p: Provider, kek: Key, w: World, id: Uuid, admin: Uuid, caller: Caller, at: Moment)
    ensures var (w', a) := Apply(p, kek, w, Op.RevokeShare(id, admin, caller, at));
      var ss := w.db.shares;
      if at.weather.failing != RowUpdate && id in ss && ss[id].revokedAt.None? then
        && w'.db == w.db.(shares := ss[id := ss[id].(revokedAt := Some(Millis(at.now)))])
        && Answers(a, at, Done) && a.slot == None
        && Records(p.sha, w.log, w'.log, at, "share.revoked", Success, Some(admin), caller,
                   Object([Member("share_id", String(id))]), Object([]))
      else Refuses(w, w', a, StorageErr)
  {
    hide Apply, StorePart, Says, Records, Millis;
    var op := Op.RevokeShare(id, admin, caller, at);
    RevokePart(p, kek, w.db, id, admin, caller, at);
    AnswerOf(p, kek, w, op);
    if StorePart(p, kek, w.db, op).line.None? {
      Unrecorded(p, kek, w, op);
    } else {
      LineRecorded(p, kek, w, op, "share.revoked", Success, Some(admin), caller,
                   Object([Member("share_id", String(id))]), Object([]));
    }
  }

  lemma DisableOutcome(p: Provider, kek: Key, w: World, id: Uuid, at: Moment)
    ensures var (w', a) := Apply(p, kek, w, Op.DisableVendor(id, at));
      var vs := w.db.vendors;
      if at.weather.failing != RowUpdate && id in vs && vs[id].disabledAt.None? then
        && w' == w.(db := w.db.(vendors := vs[id := vs[id].(disabledAt := Some(Millis(at.now)))]))
        && a == Answer(Done, None)
      else Refuses(w, w', a, StorageErr)
  {
    hide Millis, WriteEvent;
  }

  /** The map keeps exactly these rows. */
  ghost predicate Keeps<K, V>(before: map<K, V>, after: map<K, V>, kept: iset<K>) {
    && (forall k | k in after :: k in before && after[k] == before[k])
    && (forall k | k in before :: k in after <==> k in kept)
  }

  /** Ending a user's sessions, and the purges: which rows stay. A purge of shares takes its grace period as an i64. */
  lemma DeletionOutcome(p: Provider, kek: Key, w: World, op: Op)
    requires op.EndUserSessions? || op.PurgeShares? || op.PurgeSessions?
    ensures var (w', a) := Apply(p, kek, w, op);
      var (ss, ts) := (w.db.sessions, w.db.shares);
      if op.at.weather.failing == RowsDelete then Refuses(w, w', a, StorageErr)
      else
        && a == Answer(Done, None) && w' == w.(db := w.db.(sessions := w'.db.sessions, shares := w'.db.shares))
        && (match op
            case EndUserSessions(user, _) =>
              w'.db.shares == ts && Keeps(ss, w'.db.sessions, iset h | h in ss && ss[h].userId != user)
            case PurgeSessions(at) =>
              w'.db.shares == ts && Keeps(ss, w'.db.sessions, iset h | h in ss && ss[h].expiresAt >= Millis(at.now))
            case PurgeShares(grace, at) =>
              var seconds := if grace < 0x8000_0000_0000_0000 then grace else grace - 0x1_0000_0000_0000_0000;
              && w'.db.sessions == ss
              && Keeps(ts, w'.db.shares,
                       iset id | id in ts && ts[id].expiresAt >= Millis(at.now - seconds * 1_000_000_000))
            case _ => true)
  {
    hide Millis, WriteEvent;
  }

  /** A print goes with its file, at best effort, unless some share refers to it. */
  lemma DeletePrintOutcome(p: Provider, kek: Key, w: World, id: Uuid, at: Moment)
    ensures var (w', a) := Apply(p, kek, w, Op.DeletePrint(id, at));
      var failing := at.weather.failing;
      if failing == RowRead || failing == RowsDelete || id !in w.db.prints
         || exists s :: s in w.db.shares && w.db.shares[s].printId == id
      then Refuses(w, w', a, StorageErr)
      else
        && a == Answer(Done, None)
        && w' == w.(db := w.db.(prints := w.db.prints - {id},
                                blobs := if at.weather.cleanup then w.db.blobs - {w.db.prints[id].blobPath}
                                         else w.db.blobs))
  {
    hide WriteEvent;
  }
}
