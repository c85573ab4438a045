/** Nobody is authenticated without having logged in: where a session's row comes from, over whole runs. */
module SessionOrigin {
  import opened Basics
  import opened AuditLog
  import opened Clock
  import opened Crypto
  import opened Requests
  import opened Tables
  import opened Service

  /**
   The session is that of a login to an enabled account whose stored hash is the one the password derives to, and
   lasts twelve hours from it.
   */
  ghost predicate FromLogin(p: Provider, users: Users, s: Session, op: Op)
    requires op.Login?
  {
    && s.idHash == p.sha(op.sessionToken) && s.csrf == op.csrf
    && s.ip == op.login.caller.ip && s.userAgent == op.login.caller.userAgent
    && s.userId in users && users[s.userId].email == op.login.email && users[s.userId].disabledAt.None?
    && p.pbkdf2(op.login.password, users[s.userId].passwordSalt, users[s.userId].passwordIters)
       == users[s.userId].passwordHash
    && s.expiresAt == Millis(op.at.now + 12 * 3600 * NANOS_PER_SECOND)
  }

  ghost predicate HasLogin(p: Provider, users: Users, ops: seq<Op>, s: Session) {
    exists i :: 0 <= i < |ops| && ops[i].Login? && FromLogin(p, users, s, ops[i])
  }

  ghost predicate AllFromLogins(p: Provider, db: Db, ops: seq<Op>) {
    forall h | h in db.sessions :: db.sessions[h].idHash == h && HasLogin(p, db.users, ops, db.sessions[h])
  }

  /** The same session, seen at another time perhaps. */
  predicate SameSession(s: Session, t: Session) {
    s == t.(lastSeenAt := s.lastSeenAt)
  }

  lemma LongerLogins(p: Provider, users: Users, ops: seq<Op>, op: Op, s: Session, t: Session)
    requires HasLogin(p, users, ops, t) && SameSession(s, t)
    ensures HasLogin(p, users, ops + [op], s)
  {
    var i :| 0 <= i < |ops| && ops[i].Login? && FromLogin(p, users, t, ops[i]);
    assert (ops + [op])[i] == ops[i] && FromLogin(p, users, s, ops[i]);
  }

  /** Only a login adds a session. */
  ghost predicate SessionsShrink(before: Sessions, after: Sessions) {
    forall h | h in after :: h in before && SameSession(after[h], before[h])
  }

  lemma LookUpShrinks(p: Provider, db: Db, token: string, at: Moment)
    ensures var r := LookUp(p, db, token, at); r.Some? ==> SessionsShrink(db.sessions, r.value.0.sessions)
  {
  }

  lemma FewerSessions(before: Sessions, after: Sessions, h: Digest)
    requires SessionsShrink(before, after)
    ensures SessionsShrink(before, after - {h}) && SessionsShrink(before, before)
  {
  }

  lemma LogoutShrinks(p: Provider, db: Db, token: string, caller: Caller, at: Moment)
    ensures SessionsShrink(db.sessions, LogoutStore(p, db, token, caller, at).db.sessions)
    ensures SessionsShrink(db.sessions, AuthenticateStore(p, db, token, at).db.sessions)
  {
    hide Line, LookUp;
    LookUpShrinks(p, db, token, at);
    assert SessionsShrink(db.sessions, db.sessions);
    hide SessionsShrink;
    var r := LookUp(p, db, token, at);
    if r.Some? {
      FewerSessions(db.sessions, r.value.0.sessions, p.sha(token));
    }
  }

  lemma OthersShrink(p: Provider, kek: Key, db: Db, op: Op)
    requires !op.Login?
    ensures var db' := StorePart(p, kek, db, op).db; SessionsShrink(db.sessions, db'.sessions) && db'.users == db.users
  {
    hide LogoutStore, AuthenticateStore, CreateStore, RedeemStore, RevokeStore, PurgeSharesStore;
    match op
    case Logout(token, caller, at) => LogoutShrinks(p, db, token, caller, at);
    case Authenticate(token, at) => LogoutShrinks(p, db, token, Caller("", ""), at);
    case CreateShare(r, d, at) => CreateLeavesSessions(p, kek, db, r, d, at);
    case _ =>
  }

  /** Either no session is added, or the one the login issues. */
  lemma SessionIssued(p: Provider, db: Db, user: Uuid, op: Op)
    requires op.Login?
    ensures var db' := IssueSession(p, db, user, op.login.caller, op.sessionToken, op.csrf, op.at).db;
      var s := NewSession(p, user, op.sessionToken, op.csrf, op.login.caller, op.at.now);
      && db'.users == db.users
      && (db'.sessions == db.sessions || (db'.sessions == db.sessions[s.idHash := s] && user in db.users))
  {
    hide Line, One;
  }

  lemma NewFromLogin(p: Provider, users: Users, user: Uuid, op: Op)
    requires op.Login? && user in users && users[user].email == op.login.email
    requires PasswordFits(p, users[user], op.login.password)
    ensures var s := NewSession(p, user, op.sessionToken, op.csrf, op.login.caller, op.at.now);
      s.idHash == p.sha(op.sessionToken) && FromLogin(p, users, s, op)
  {
    hide Millis;
  }

  lemma IssuedFromLogin(p: Provider, db: Db, op: Op)
    requires op.Login?
    ensures var db' := LoginStore(p, db, op.login, op.sessionToken, op.csrf, op.at).db;
      && db'.users == db.users
      && forall h | h in db'.sessions ::
           || (h in db.sessions && db'.sessions[h] == db.sessions[h])
           || (db'.sessions[h].idHash == h && FromLogin(p, db.users, db'.sessions[h], op))
  {
    hide Line, One, PasswordFits, IssueSession, NewSession, FromLogin;
    var user := UserByEmail(db.users, op.login.email);
    if user.Some? {
      SessionIssued(p, db, user.value, op);
      if PasswordFits(p, db.users[user.value], op.login.password) {
        NewFromLogin(p, db.users, user.value, op);
      }
    }
  }

  lemma StepFromLogins(p: Provider, kek: Key, db: Db, ops: seq<Op>, op: Op)
    requires AllFromLogins(p, db, ops)
    ensures var db' := StorePart(p, kek, db, op).db; AllFromLogins(p, db', ops + [op]) && db'.users == db.users
  {
    var db' := StorePart(p, kek, db, op).db;
    if op.Login? {
      IssuedFromLogin(p, db, op);
    } else {
      OthersShrink(p, kek, db, op);
    }
    hide StorePart, LoginStore, HasLogin, FromLogin;
    forall h | h in db'.sessions
      ensures db'.sessions[h].idHash == h && HasLogin(p, db'.users, ops + [op], db'.sessions[h])
    {
      if h in db.sessions && SameSession(db'.sessions[h], db.sessions[h]) {
        LongerLogins(p, db.users, ops, op, db'.sessions[h], db.sessions[h]);
      } else {
        NewLogin(p, db.users, ops, op, db'.sessions[h]);
      }
    }
  }

  lemma NewLogin(p: Provider, users: Users, ops: seq<Op>, op: Op, s: Session)
    requires op.Login? && FromLogin(p, users, s, op)
    ensures HasLogin(p, users, ops + [op], s)
  {
    assert (ops + [op])[|ops|] == op;
  }

  lemma {:induction false} RunFromLogins(p: Provider, kek: Key, w: World, ops: seq<Op>)
    requires w.db.sessions == map[]
    ensures var db := Run(p, kek, w, ops).0.db; AllFromLogins(p, db, ops) && db.users == w.db.users
    decreases |ops|
  {
    if ops == [] {
      hide Apply;
    } else {
      hide AllFromLogins, StorePart;
      var init, op := ops[..|ops| - 1], ops[|ops| - 1];
      RunFromLogins(p, kek, w, init);
      StepFromLogins(p, kek, Run(p, kek, w, init).0.db, init, op);
      SplitLast(ops);
    }
  }

  /**
   Whoever is authenticated in a state that a run can reach presents a token with the hash of one that a
   login in the run drew, less than twelve hours before, for the very user, given the right password and
   an account not disabled. `LoggedInExactly` says when that login was answered with it.
   */
  lemma AuthenticatedLoggedIn(p: Provider, kek: Key, w: World, ops: seq<Op>, token: string, at: Moment)
    requires w.db.sessions == map[]
    ensures var reply := Apply(p, kek, Run(p, kek, w, ops).0, Op.Authenticate(token, at)).1.reply;
      reply.Identified? && reply.found.Some? ==>
        var (s, u) := reply.found.value;
        && s.userId in w.db.users && u == w.db.users[s.userId] && u.disabledAt.None?
        && exists i :: 0 <= i < |ops| && ops[i].Login?
             && p.sha(ops[i].sessionToken) == p.sha(token)
             && u.email == ops[i].login.email
             && p.pbkdf2(ops[i].login.password, u.passwordSalt, u.passwordIters) == u.passwordHash
             && Millis(at.now) < Millis(ops[i].at.now + 12 * 3600 * NANOS_PER_SECOND)
  {
    RunFromLogins(p, kek, w, ops);
    var w' := Run(p, kek, w, ops).0;
    var reply := Apply(p, kek, w', Op.Authenticate(token, at)).1.reply;
    FoundIsSession(p, w'.db, token, at);
    hide Run, AuthenticateStore;
    if reply.Identified? && reply.found.Some? {
      var s := reply.found.value.0;
      assert HasLogin(p, w.db.users, ops, s);
      var i :| 0 <= i < |ops| && ops[i].Login? && FromLogin(p, w.db.users, s, ops[i]);
    }
  }

  lemma FoundIsSession(p: Provider, db: Db, token: string, at: Moment)
    ensures var m := AuthenticateStore(p, db, token, at);
      && m.line.None?
      && (m.reply.Identified? && m.reply.found.Some? ==>
            var (s, u) := m.reply.found.value;
            && p.sha(token) in db.sessions && s == db.sessions[p.sha(token)] && Millis(at.now) < s.expiresAt
            && s.userId in db.users && u == db.users[s.userId] && u.disabledAt.None?)
  {
  }

  // ----- a login lasts --------------------------------------------------------------------------

  /** The operation ends session `h` of `user` before its time. */
  ghost predicate Ends(p: Provider, op: Op, h: Digest, user: Uuid) {
    || (op.Logout? && p.sha(op.token) == h)
    || (op.EndUserSessions? && op.user == user)
  }

  /** The session is there, as `s` but for when it was last seen. */
  ghost predicate Lives(db: Db, h: Digest, s: Session) {
    h in db.sessions && SameSession(db.sessions[h], s)
  }

  lemma LookUpKeeps(p: Provider, db: Db, token: string, at: Moment, h: Digest, s: Session)
    requires Lives(db, h, s)
    ensures LookUp(p, db, token, at).Some? ==> Lives(LookUp(p, db, token, at).value.0, h, s)
  {
  }

  lemma SessionOpsKeep(p: Provider, db: Db, op: Op, h: Digest, s: Session)
    requires Lives(db, h, s) && !Ends(p, op, h, s.userId)
    ensures op.Login? ==> Lives(LoginStore(p, db, op.login, op.sessionToken, op.csrf, op.at).db, h, s)
    ensures op.Logout? ==> Lives(LogoutStore(p, db, op.token, op.caller, op.at).db, h, s)
    ensures op.Authenticate? ==> Lives(AuthenticateStore(p, db, op.token, op.at).db, h, s)
  {
    if op.Logout? || op.Authenticate? {
      LookUpKeeps(p, db, op.token, op.at, h, s);
    }
    hide LookUp, Line, One, PasswordFits, NewSession;
  }

  lemma StepKeeps(p: Provider, kek: Key, db: Db, op: Op, h: Digest, s: Session)
    requires Lives(db, h, s) && !Ends(p, op, h, s.userId) && Millis(op.at.now) < s.expiresAt
    ensures Lives(StorePart(p, kek, db, op).db, h, s)
  {
    hide LoginStore, LogoutStore, AuthenticateStore, CreateStore, RedeemStore, RevokeStore, PurgeSharesStore,
         Tables.DeletePrint, Tables.DisableVendor, Millis;
    match op
    case Login(_, _, _, _) => SessionOpsKeep(p, db, op, h, s);
    case Logout(_, _, _) => SessionOpsKeep(p, db, op, h, s);
    case Authenticate(_, _) => SessionOpsKeep(p, db, op, h, s);
    case CreateShare(r, d, at) => CreateLeavesSessions(p, kek, db, r, d, at);
    case _ =>
  }

  lemma {:induction false} RunKeeps(p: Provider, kek: Key, w: World, ops: seq<Op>, h: Digest, s: Session)
    requires Lives(w.db, h, s)
    requires forall i | 0 <= i < |ops| :: !Ends(p, ops[i], h, s.userId) && Millis(ops[i].at.now) < s.expiresAt
    ensures Lives(Run(p, kek, w, ops).0.db, h, s) && Run(p, kek, w, ops).0.db.users == w.db.users
    decreases |ops|
  {
    if ops == [] {
      hide Apply;
    } else {
      hide StorePart, Lives, Ends;
      var init, op := ops[..|ops| - 1], ops[|ops| - 1];
      RunKeeps(p, kek, w, init, h, s);
      var db := Run(p, kek, w, init).0.db;
      StepKeeps(p, kek, db, op, h, s);
      UsersStay(p, kek, db, op);
    }
  }

  lemma UsersStay(p: Provider, kek: Key, db: Db, op: Op)
    ensures StorePart(p, kek, db, op).db.users == db.users
  {
    if op.Login? {
      IssuedFromLogin(p, db, op);
    } else {
      OthersShrink(p, kek, db, op);
    }
    hide StorePart, LoginStore;
  }

  lemma IssueAnswers(p: Provider, db: Db, op: Op, user: Uuid)
    requires op.Login? && op.at.weather.failing == NoCall && user in db.users && p.sha(op.sessionToken) !in db.sessions
    ensures var m := IssueSession(p, db, user, op.login.caller, op.sessionToken, op.csrf, op.at);
      && m.reply.LoggedIn? && m.reply.session.userId == user && Lives(m.db, p.sha(op.sessionToken), m.reply.session)
      && m.reply.session.expiresAt == Millis(op.at.now + 12 * 3600 * NANOS_PER_SECOND) && m.db.users == db.users
  {
    hide Line, One;
  }

  lemma OneUser(db: Db, email: string, user: Uuid)
    requires Determined(db) && user in db.users && db.users[user].email == email
    ensures UserByEmail(db.users, email) == Some(user)
  {
    hide OneActiveVendor, DistinctTokens;
  }

  lemma LoginIs(p: Provider, kek: Key, db: Db, op: Op)
    requires op.Login?
    ensures StorePart(p, kek, db, op) == LoginStore(p, db, op.login, op.sessionToken, op.csrf, op.at)
  {
    hide LoginStore;
  }

  /**
   While no call fails and the token is new, a login is answered with a session exactly when there is a user with
   the address, enabled and whose stored hash is the one the password derives to; unknown, disabled and wrong are
   refused alike, and change no table.
   */
  lemma LoginAnswers(p: Provider, kek: Key, w: World, op: Op)
    requires op.Login? && op.at.weather.failing == NoCall && op.at.write == NoFault
    requires Determined(w.db) && p.sha(op.sessionToken) !in w.db.sessions
    ensures var (w', a) := Apply(p, kek, w, op);
      var us := w.db.users;
      && (a.reply.LoggedIn? <==>
            exists id :: id in us && us[id].email == op.login.email && us[id].disabledAt.None?
              && p.pbkdf2(op.login.password, us[id].passwordSalt, us[id].passwordIters) == us[id].passwordHash)
      && (if a.reply.LoggedIn? then
            var s := a.reply.session;
            && s.userId in us && us[s.userId].email == op.login.email
            && Lives(w'.db, p.sha(op.sessionToken), s) && w'.db.users == w.db.users
            && s.expiresAt == Millis(op.at.now + 12 * 3600 * NANOS_PER_SECOND)
          else a.reply == Failed(InvalidCredentials) && w'.db == w.db)
  {
    hide Apply, StorePart, Line, One, IssueSession, Lives, OneActiveVendor, DistinctTokens;
    LoginIs(p, kek, w.db, op);
    AnswerOf(p, kek, w, op);
    var user := UserByEmail(w.db.users, op.login.email);
    if user.Some? {
      IssueAnswers(p, w.db, op, user.value);
    }
  }

  /** A login is answered with a session if and only if one was stored and its line was written. */
  lemma LoggedInExactly(p: Provider, kek: Key, w: World, op: Op)
    requires op.Login?
    ensures var h, (w', a) := p.sha(op.sessionToken), Apply(p, kek, w, op);
      var stored := h in w'.db.sessions && h !in w.db.sessions;
      && (a.reply.LoggedIn? <==> stored && op.at.write == NoFault)
      && (!a.reply.LoggedIn? ==> a.reply.Failed?)
      && (stored && op.at.write != NoFault ==> a.reply == Failed(AuditErr))
      && (!stored ==> w'.db == w.db)
  {
    hide Apply, StorePart, LoginStore;
    LoginIs(p, kek, w.db, op);
    LoginStored(p, w.db, op);
    AnswerOf(p, kek, w, op);
  }

  lemma LoginStored(p: Provider, db: Db, op: Op)
    requires op.Login?
    ensures var h, m := p.sha(op.sessionToken), LoginStore(p, db, op.login, op.sessionToken, op.csrf, op.at);
      var stored := h in m.db.sessions && h !in db.sessions;
      && (m.reply.LoggedIn? <==> stored) && (!stored ==> m.reply.Failed? && m.db == db)
      && (stored ==> m.line.Some?)
  {
    hide Line, One, PasswordFits, UserByEmail;
  }

  /**
   A login lasts. After a login answered with its session, through any further run that neither logs that
   session out nor ends that user's sessions, the token identifies the user until the twelve hours are over:
   the counterpart of `AuthenticatedLoggedIn`.
   */
  lemma LoginLasts(p: Provider, kek: Key, w: World, login: Op, user: Uuid, w1: World, s: Session, ops: seq<Op>,
                   at: Moment)
    requires login.Login? && login.at.weather.failing == NoCall && login.at.write == NoFault
    requires Determined(w.db) && user in w.db.users && w.db.users[user].email == login.login.email
    requires w.db.users[user].disabledAt.None? && p.sha(login.sessionToken) !in w.db.sessions
    requires Apply(p, kek, w, login) == (w1, Answer(LoggedIn(s), None))
    requires forall i | 0 <= i < |ops| ::
      !Ends(p, ops[i], p.sha(login.sessionToken), user) && ops[i].at.now <= at.now
    requires Millis(at.now) < Millis(login.at.now + 12 * 3600 * NANOS_PER_SECOND) && at.weather.failing == NoCall
    ensures Identifies(p, kek, Run(p, kek, w1, ops).0, login.sessionToken, at, s, w.db.users[user])
  {
    hide Ends, Run, Apply, Determined, Lives;
    OneUser(w.db, login.login.email, user);
    LoginAnswers(p, kek, w, login);
    OneUser(w.db, login.login.email, s.userId);
    var h := p.sha(login.sessionToken);
    forall i | 0 <= i < |ops| ensures Millis(ops[i].at.now) < s.expiresAt {
      MillisMonotone(ops[i].at.now, at.now);
    }
    RunKeeps(p, kek, w1, ops, h, s);
    LiveIsFound(p, kek, Run(p, kek, w1, ops).0, login.sessionToken, s, at);
    LivesSame(Run(p, kek, w1, ops).0.db, h, s);
  }

  lemma LivesSame(db: Db, h: Digest, s: Session)
    requires Lives(db, h, s)
    ensures h in db.sessions && SameSession(db.sessions[h], s)
  {
  }

  /** Presenting the token at that moment is answered with the session and the user. */
  ghost predicate Identifies(p: Provider, kek: Key, w: World, token: string, at: Moment, s: Session, u: User) {
    var reply := Apply(p, kek, w, Op.Authenticate(token, at)).1.reply;
    reply.Identified? && reply.found.Some? && reply.found.value.1 == u && SameSession(reply.found.value.0, s)
  }

  lemma LiveIsFound(p: Provider, kek: Key, w: World, token: string, s: Session, at: Moment)
    requires Lives(w.db, p.sha(token), s) && Millis(at.now) < s.expiresAt && at.weather.failing == NoCall
    ensures s.userId in w.db.users && w.db.users[s.userId].disabledAt.None? ==>
      Apply(p, kek, w, Op.Authenticate(token, at)).1.reply
        == Identified(Some((w.db.sessions[p.sha(token)], w.db.users[s.userId])))
  {
  }
}
