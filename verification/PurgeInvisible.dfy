/**
 Purging is unobservable where it matters. Two runs of the same operations, one with its purges and one
 with them erased, are kept in a simulation: what the purged tables lack has expired for good.
 */
module PurgeInvisible {
  import opened Basics
  import opened Crypto
  import opened Tables
  import opened Requests
  import opened Clock
  import opened Service
  import opened AuditEvent
  import opened AuditChain
  import opened AuditLog
  import RunLog

  predicate IsPurge(op: Op) { op.PurgeShares? || op.PurgeSessions? }

  function Erase(ops: seq<Op>): seq<Op> {
    if ops == [] then []
    else Erase(ops[..|ops| - 1]) + (if IsPurge(ops[|ops| - 1]) then [] else [ops[|ops| - 1]])
  }

  /** What a user sees of an answer: logins, session lookups and creations in full, redemptions where they succeed. */
  function Seen(op: Op, a: Answer): Option<Reply> {
    if op.Authenticate? || op.Login? || op.Logout? || op.CreateShare? then Some(a.reply)
    else if op.RedeemShare? && a.reply.Redeemed? then Some(a.reply)
    else None
  }

  function AllSeen(ops: seq<Op>, answers: seq<Answer>): seq<Option<Reply>>
    requires |ops| == |answers|
  {
    if ops == [] then []
    else
      var n := |ops| - 1;
      AllSeen(ops[..n], answers[..n]) + (if IsPurge(ops[n]) then [] else [Seen(ops[n], answers[n])])
  }

  /**
   What a line says apart from its links. Refused redemptions and revocations are left aside: the share
   they are about may be purged in one run and expired in the other.
   */
  function Said(line: Option<Event>): seq<Event> {
    if line.None? || line.value.event == "share.revoked"
       || (line.value.event == "share.redeem" && line.value.outcome != Success) then []
    else [Unlinked(line.value)]
  }

  function AllSaid(es: seq<Event>): seq<Event> {
    if es == [] then [] else AllSaid(es[..|es| - 1]) + Said(Some(es[|es| - 1]))
  }

  // ----- the simulation -----------------------------------------------------------------

  ghost predicate SessionsSim(a: Sessions, b: Sessions, now: int) {
    && (forall h | h in a :: h in b && a[h] == b[h])
    && (forall h | h in b && h !in a :: b[h].expiresAt <= Millis(now))
  }

  ghost predicate SharesSim(a: Shares, b: Shares, now: int) {
    && (forall id | id in a :: id in b && a[id] == b[id])
    && (forall id | id in b && id !in a :: b[id].expiresAt <= Millis(now))
    && DistinctTokens(b)
  }

  /** The same row with the same file. */
  ghost predicate SamePrint(a: Db, b: Db, id: Uuid)
    requires id in a.prints
  {
    && id in b.prints && a.prints[id] == b.prints[id] && a.prints[id].blobPath == BlobPath(id)
    && BlobAt(a, BlobPath(id)) == BlobAt(b, BlobPath(id))
  }

  ghost predicate PrintsSim(a: Db, b: Db) {
    && (forall id | id in a.prints :: SamePrint(a, b, id))
    && (forall id | id in a.shares :: a.shares[id].printId in a.prints)
  }

  /** `a` is `b` with some purges behind it, as of `now`. */
  ghost predicate Sim(a: Db, b: Db, now: int) {
    && a.users == b.users && a.vendors == b.vendors
    && SessionsSim(a.sessions, b.sessions, now)
    && SharesSim(a.shares, b.shares, now)
    && PrintsSim(a, b)
    && forall id | id in b.prints :: b.prints[id].blobPath == BlobPath(id)
  }

  /** Ids and random tokens are drawn new; none is in the tables already, purged or not. */
  ghost predicate DrawsNew(p: Provider, b: Db, op: Op) {
    match op
    case Login(_, token, _, _) => p.sha(token) !in b.sessions
    case CreateShare(_, d, _) => d.printId !in b.prints && DrawsNewShare(p, b, d)
    case _ => true
  }

  ghost predicate DrawsNewShare(p: Provider, b: Db, d: Draw) {
    d.shareId !in b.shares && forall id | id in b.shares :: b.shares[id].tokenHash != p.sha(d.urlToken)
  }

  lemma SimLater(a: Db, b: Db, now: int, later: int)
    requires Sim(a, b, now) && now <= later
    ensures Sim(a, b, later)
  {
    MillisMonotone(now, later);
  }

  // ----- sessions -------------------------------------------------------------------------

  lemma SimSessions(a: Db, b: Db, now: int)
    requires Sim(a, b, now)
    ensures SessionsSim(a.sessions, b.sessions, now)
  {
  }

  lemma LookUpSessions(p: Provider, a: Db, b: Db, token: string, at: Moment)
    requires SessionsSim(a.sessions, b.sessions, at.now)
    ensures var x, y := LookUp(p, a, token, at), LookUp(p, b, token, at);
      && (x.None? <==> y.None?)
      && (x.Some? ==> x.value.1 == y.value.1 && SessionsSim(x.value.0.sessions, y.value.0.sessions, at.now))
  {
    hide Millis;
  }

  /** Authenticating sees the same session on both sides. */
  lemma LookUpSim(p: Provider, a: Db, b: Db, token: string, at: Moment)
    requires Sim(a, b, at.now)
    ensures var x, y := LookUp(p, a, token, at), LookUp(p, b, token, at);
      && (x.None? <==> y.None?)
      && (x.Some? ==> x.value.1 == y.value.1 && Sim(x.value.0, y.value.0, at.now))
  {
    hide Sim, LookUp;
    SimSessions(a, b, at.now);
    LookUpSessions(p, a, b, token, at);
    var x, y := LookUp(p, a, token, at), LookUp(p, b, token, at);
    if x.Some? {
      SessionsOnlySim(a, b, x.value.0, y.value.0, at.now);
    }
  }

  /** Changing only sessions leaves the other halves of the simulation alone. */
  lemma SessionsOnlySim(a: Db, b: Db, a': Db, b': Db, now: int)
    requires Sim(a, b, now)
    requires a' == a.(sessions := a'.sessions) && b' == b.(sessions := b'.sessions)
    ensures SessionsSim(a'.sessions, b'.sessions, now) ==> Sim(a', b', now)
  {
  }

  /** The answer depends on the lookup and the users only. */
  lemma AuthenticateReply(p: Provider, a: Db, b: Db, token: string, at: Moment)
    requires a.users == b.users
    requires var x, y := LookUp(p, a, token, at), LookUp(p, b, token, at);
      (x.None? <==> y.None?) && (x.Some? ==> x.value.1 == y.value.1)
    ensures var x, y := AuthenticateStore(p, a, token, at), AuthenticateStore(p, b, token, at);
      && x.reply == y.reply && x.line == y.line == None
      && (LookUp(p, a, token, at).None? ==> x.db == a && y.db == b)
      && (LookUp(p, a, token, at).Some? ==>
            x.db == LookUp(p, a, token, at).value.0 && y.db == LookUp(p, b, token, at).value.0)
  {
    hide LookUp;
  }

  lemma AuthenticateSim(p: Provider, a: Db, b: Db, token: string, at: Moment)
    requires Sim(a, b, at.now)
    ensures var x, y := AuthenticateStore(p, a, token, at), AuthenticateStore(p, b, token, at);
      x.reply == y.reply && x.line == y.line && Sim(x.db, y.db, at.now)
  {
    LookUpSim(p, a, b, token, at);
    AuthenticateReply(p, a, b, token, at);
    hide LookUp, AuthenticateStore, Sim;
  }

  lemma LogoutSim(p: Provider, a: Db, b: Db, token: string, caller: Caller, at: Moment)
    requires Sim(a, b, at.now)
    ensures var x, y := LogoutStore(p, a, token, caller, at), LogoutStore(p, b, token, caller, at);
      x.reply == y.reply && x.line == y.line && Sim(x.db, y.db, at.now)
  {
    hide LookUp, SharesSim, PrintsSim, Line;
    LookUpSim(p, a, b, token, at);
    var x, y := LookUp(p, a, token, at), LookUp(p, b, token, at);
    if x.Some? {
      var h := p.sha(token);
      SessionsOnlySim(x.value.0, y.value.0, x.value.0.(sessions := x.value.0.sessions - {h}),
                      y.value.0.(sessions := y.value.0.sessions - {h}), at.now);
    }
  }

  lemma IssueReply(p: Provider, a: Db, b: Db, user: Uuid, caller: Caller, token: string, csrf: Bytes, at: Moment)
    requires a.users == b.users && p.sha(token) !in a.sessions && p.sha(token) !in b.sessions
    ensures var x := IssueSession(p, a, user, caller, token, csrf, at);
      var y := IssueSession(p, b, user, caller, token, csrf, at);
      && x.reply == y.reply && x.line == y.line
      && (if x.reply.LoggedIn?
          then x.db.sessions == a.sessions[p.sha(token) := x.reply.session]
               && y.db.sessions == b.sessions[p.sha(token) := x.reply.session]
          else x.db.sessions == a.sessions && y.db.sessions == b.sessions)
  {
    hide Line, One;
  }

  /** Logging in depends on the users, and on the new token being new. */
  lemma LoginReply(p: Provider, a: Db, b: Db, r: LoginRequest, token: string, csrf: Bytes, at: Moment)
    requires a.users == b.users && p.sha(token) !in a.sessions && p.sha(token) !in b.sessions
    ensures var x, y := LoginStore(p, a, r, token, csrf, at), LoginStore(p, b, r, token, csrf, at);
      && x.reply == y.reply && x.line == y.line
      && (if x.reply.LoggedIn?
          then x.db.sessions == a.sessions[p.sha(token) := x.reply.session]
               && y.db.sessions == b.sessions[p.sha(token) := x.reply.session]
          else x.db.sessions == a.sessions && y.db.sessions == b.sessions)
  {
    hide Line, One, UserByEmail, PasswordFits, IssueSession;
    var user := UserByEmail(a.users, r.email);
    if user.Some? {
      IssueReply(p, a, b, user.value, r.caller, token, csrf, at);
    }
  }

  lemma LoginSim(p: Provider, a: Db, b: Db, r: LoginRequest, token: string, csrf: Bytes, at: Moment)
    requires Sim(a, b, at.now) && p.sha(token) !in b.sessions
    ensures var x, y := LoginStore(p, a, r, token, csrf, at), LoginStore(p, b, r, token, csrf, at);
      x.reply == y.reply && x.line == y.line && Sim(x.db, y.db, at.now)
  {
    hide SharesSim, PrintsSim, LoginStore;
    LoginReply(p, a, b, r, token, csrf, at);
    var x, y := LoginStore(p, a, r, token, csrf, at), LoginStore(p, b, r, token, csrf, at);
    SessionsOnlySim(a, b, x.db, y.db, at.now);
  }

  lemma EndSessionsSim(a: Db, b: Db, user: Uuid, at: Moment)
    requires Sim(a, b, at.now)
    ensures Sim(EndSessionsStore(a, user, at).db, EndSessionsStore(b, user, at).db, at.now)
  {
    hide SharesSim, PrintsSim;
    SessionsOnlySim(a, b, EndSessionsStore(a, user, at).db, EndSessionsStore(b, user, at).db, at.now);
  }

  /** A purge happens on one side only. */
  lemma PurgeSessionsSim(a: Db, b: Db, at: Moment)
    requires Sim(a, b, at.now)
    ensures Sim(PurgeSessionsStore(a, at).db, b, at.now)
  {
    hide SharesSim, PrintsSim;
    SessionsOnlySim(a, b, PurgeSessionsStore(a, at).db, b, at.now);
  }

  // ----- shares ---------------------------------------------------------------------------

  lemma SharesOnlySim(a: Db, b: Db, a': Db, b': Db, now: int)
    requires Sim(a, b, now) && SharesSim(a'.shares, b'.shares, now)
    requires a' == a.(shares := a'.shares) && b' == b.(shares := b'.shares)
    requires forall id | id in a'.shares :: id in a.shares && a'.shares[id].printId == a.shares[id].printId
    ensures Sim(a', b', now)
  {
    hide SessionsSim, SharesSim;
  }

  lemma PurgeSharesSim(a: Db, b: Db, grace: nat, at: Moment)
    requires Sim(a, b, at.now) && grace < 0x8000_0000_0000_0000
    ensures Sim(PurgeSharesStore(a, grace, at).db, b, at.now)
  {
    MillisMonotone(at.now - SignedSeconds(grace) * NANOS_PER_SECOND, at.now);
    SharesOnlySim(a, b, PurgeSharesStore(a, grace, at).db, b, at.now);
  }

  /** Updating a row in place, without touching its token or expiry, keeps the shares in step. */
  lemma RowSim(a: Shares, b: Shares, id: Uuid, row: Share, now: int)
    requires SharesSim(a, b, now) && id in b && row.tokenHash == b[id].tokenHash && row.expiresAt == b[id].expiresAt
    ensures SharesSim(if id in a then a[id := row] else a, b[id := row], now)
  {
    hide DistinctTokens;
    RowTokens(b, id, row);
  }

  lemma RowTokens(b: Shares, id: Uuid, row: Share)
    requires DistinctTokens(b) && id in b && row.tokenHash == b[id].tokenHash
    ensures DistinctTokens(b[id := row])
  {
    var b' := b[id := row];
    forall x, y | x in b' && y in b' && b'[x].tokenHash == b'[y].tokenHash ensures x == y {
      assert b[x].tokenHash == b[y].tokenHash;
    }
  }

  lemma RevokeSharesSim(a: Shares, b: Shares, id: Uuid, now: int)
    requires SharesSim(a, b, now)
    ensures SharesSim(Revoked(a, id, Millis(now)), Revoked(b, id, Millis(now)), now)
    ensures forall x | x in Revoked(a, id, Millis(now)) ::
      x in a && Revoked(a, id, Millis(now))[x].printId == a[x].printId
  {
    if id in b && b[id].revokedAt.None? {
      RowSim(a, b, id, b[id].(revokedAt := Some(Millis(now))), now);
    }
    hide DistinctTokens;
  }

  lemma RevokeSim(a: Db, b: Db, id: Uuid, admin: Uuid, caller: Caller, at: Moment)
    requires Sim(a, b, at.now)
    ensures Sim(RevokeStore(a, id, admin, caller, at).db, RevokeStore(b, id, admin, caller, at).db, at.now)
  {
    hide RevokeStore, Revoked, Sim, SharesSim;
    SimShares(a, b, at.now);
    RevokeSharesSim(a.shares, b.shares, id, at.now);
    var x, y := RevokeStore(a, id, admin, caller, at).db, RevokeStore(b, id, admin, caller, at).db;
    SharesOnlySim(a, b, x, y, at.now);
  }

  lemma DisableSim(a: Db, b: Db, id: Uuid, at: Moment)
    requires Sim(a, b, at.now)
    ensures Sim(DisableStore(a, id, at).db, DisableStore(b, id, at).db, at.now)
  {
    hide SessionsSim, SharesSim;
  }

  /** A print gone, with its file where clean-up works. */
  ghost function Dropped(db: Db, id: Uuid, cleanup: bool): Db {
    db.(prints := db.prints - {id}, blobs := if cleanup then Put(db.blobs, BlobPath(id), None) else db.blobs)
  }

  lemma DroppedOther(db: Db, id: Uuid, cleanup: bool, other: Uuid)
    requires other != id
    ensures BlobAt(Dropped(db, id, cleanup), BlobPath(other)) == BlobAt(db, BlobPath(other))
  {
    if BlobPath(other) == BlobPath(id) { BlobPathInjective(other, id); }
  }

  /** Dropping an unreferenced print, on the purged side or on both, keeps the prints in step. */
  lemma DroppedSim(a: Db, b: Db, id: Uuid, cleanup: bool)
    requires PrintsSim(a, b) && !IsReferenced(a, id)
    ensures PrintsSim(Dropped(a, id, cleanup), b)
    ensures PrintsSim(Dropped(a, id, cleanup), Dropped(b, id, cleanup))
    ensures id !in a.prints ==> PrintsSim(a, Dropped(b, id, cleanup))
  {
    hide BlobAt, BlobPath;
    var a', b' := Dropped(a, id, cleanup), Dropped(b, id, cleanup);
    assert forall share | share in a.shares :: a.shares[share].printId != id;
    hide IsReferenced;
    forall other | other in a.prints && other != id
      ensures SamePrint(a', b, other) && SamePrint(a', b', other) && SamePrint(a, b', other)
    {
      DroppedOther(a, id, cleanup, other);
      DroppedOther(b, id, cleanup, other);
      assert SamePrint(a, b, other);
    }
  }

  predicate Deletes(db: Db, id: Uuid, w: Weather) {
    w.failing != RowRead && w.failing != RowsDelete && id in db.prints && !IsReferenced(db, id)
  }

  lemma DeleteEffect(db: Db, id: Uuid, w: Weather)
    requires id in db.prints ==> db.prints[id].blobPath == BlobPath(id)
    ensures Tables.DeletePrint(db, id, w).0 == if Deletes(db, id, w) then Dropped(db, id, w.cleanup) else db
  {
    hide IsReferenced;
  }

  lemma DeletePrintsSim(a: Db, b: Db, id: Uuid, w: Weather)
    requires PrintsSim(a, b) && (IsReferenced(a, id) ==> IsReferenced(b, id))
    requires id in b.prints ==> b.prints[id].blobPath == BlobPath(id)
    ensures PrintsSim(Tables.DeletePrint(a, id, w).0, Tables.DeletePrint(b, id, w).0)
  {
    assert id in a.prints ==> SamePrint(a, b, id);
    DeleteEffect(a, id, w);
    DeleteEffect(b, id, w);
    if Deletes(a, id, w) || Deletes(b, id, w) {
      DroppedSim(a, b, id, w.cleanup);
    }
    hide IsReferenced, Tables.DeletePrint, Dropped, PrintsSim;
  }

  /** Changing only prints and files leaves the other halves of the simulation alone. */
  lemma PrintsOnlySim(a: Db, b: Db, a': Db, b': Db, now: int)
    requires Sim(a, b, now) && PrintsSim(a', b')
    requires a' == a.(prints := a'.prints, blobs := a'.blobs) && b' == b.(prints := b'.prints, blobs := b'.blobs)
    requires forall id | id in b'.prints :: b'.prints[id].blobPath == BlobPath(id)
    ensures Sim(a', b', now)
  {
    hide PrintsSim, SharesSim, SessionsSim, BlobPath;
  }

  lemma DeleteSim(a: Db, b: Db, id: Uuid, at: Moment)
    requires Sim(a, b, at.now)
    ensures Sim(DeleteStore(a, id, at).db, DeleteStore(b, id, at).db, at.now)
  {
    hide PrintsSim, BlobPath, Tables.DeletePrint, Millis;
    assert IsReferenced(a, id) ==> IsReferenced(b, id);
    hide Sim, IsReferenced;
    SimPrints(a, b, at.now);
    DeletePrintsSim(a, b, id, at.weather);
    var x, y := Tables.DeletePrint(a, id, at.weather).0, Tables.DeletePrint(b, id, at.weather).0;
    PrintsOnlySim(a, b, x, y, at.now);
    DeleteStoreDb(a, id, at);
    DeleteStoreDb(b, id, at);
  }

  lemma DeleteStoreDb(db: Db, id: Uuid, at: Moment)
    ensures DeleteStore(db, id, at).db == Tables.DeletePrint(db, id, at.weather).0
  {
    hide Tables.DeletePrint;
  }

  lemma SimShares(a: Db, b: Db, now: int)
    requires Sim(a, b, now)
    ensures SharesSim(a.shares, b.shares, now)
  {
  }

  /** The same live share is found by its token, or the share found has expired. */
  lemma TokenSim(a: Shares, b: Shares, h: Digest, now: int)
    requires SharesSim(a, b, now)
    ensures var x, y := ShareByTokenHash(a, h), ShareByTokenHash(b, h);
      (x.Some? ==> y == x && a[x.value] == b[x.value]) && (x.None? && y.Some? ==> !Consumable(b[y.value], Millis(now)))
  {
    var x, y := ShareByTokenHash(a, h), ShareByTokenHash(b, h);
    if x.Some? {
      assert HasTokenHash(b, x.value, h);
    } else if y.Some? && y.value in a {
      assert HasTokenHash(a, y.value, h);
    }
  }

  lemma ConsumeSharesSim(a: Shares, b: Shares, id: Uuid, now: int)
    requires SharesSim(a, b, now)
    ensures SharesSim(TryConsume(a, id, Millis(now)).0, TryConsume(b, id, Millis(now)).0, now)
  {
    hide DistinctTokens;
    if id in b && Consumable(b[id], Millis(now)) {
      RowSim(a, b, id, b[id].(downloadCount := b[id].downloadCount + 1), now);
    }
  }

  lemma DeliverSim(p: Provider, kek: Key, a: Db, b: Db, s: Share, r: RedeemRequest, at: Moment)
    requires PrintsSim(a, b) && s.printId in a.prints
    ensures Deliver(p, kek, a, s, r, at).reply == Deliver(p, kek, b, s, r, at).reply
    ensures Deliver(p, kek, a, s, r, at).line == Deliver(p, kek, b, s, r, at).line
  {
    hide PrintsSim, Tables.ReadBlob, Line, ShareTarget, RedeemedMeta;
    SameReading(p, kek, a, b, s.printId, at.weather.failing);
  }

  lemma SameReading(p: Provider, kek: Key, a: Db, b: Db, id: Uuid, failing: Call)
    requires PrintsSim(a, b) && id in a.prints
    ensures id in b.prints && b.prints[id] == a.prints[id]
    ensures ReadBlob(p, kek, a, id, failing) == ReadBlob(p, kek, b, id, failing)
  {
    hide ReadPrint;
    assert SamePrint(a, b, id);
  }

  // ----- creating and redeeming -----------------------------------------------------------

  lemma VendorsOnlySim(a: Db, b: Db, a': Db, b': Db, now: int)
    requires Sim(a, b, now) && a'.vendors == b'.vendors
    requires a' == a.(vendors := a'.vendors) && b' == b.(vendors := b'.vendors)
    ensures Sim(a', b', now)
  {
    hide SharesSim, SessionsSim, BlobPath;
    assert forall id | id in a.prints :: SamePrint(a, b, id) ==> SamePrint(a', b', id);
  }

  /** What is left at a print's path, and its row if there is one. */
  ghost function WithPrint(db: Db, id: Uuid, left: Option<Option<Bytes>>, row: Option<Print>): Db {
    db.(blobs := Leave(db.blobs, BlobPath(id), left),
        prints := if row.Some? then db.prints[id := row.value] else db.prints)
  }

  /** The same content at a new print's path, and the same row if any, keeps the prints in step. */
  lemma NewPrintSim(a: Db, b: Db, id: Uuid, left: Option<Option<Bytes>>, row: Option<Print>)
    requires PrintsSim(a, b) && id !in b.prints
    requires row.Some? ==> row.value.blobPath == BlobPath(id) && left.Some? && left.value.Some?
    ensures PrintsSim(WithPrint(a, id, left, row), WithPrint(b, id, left, row))
  {
    var a', b' := WithPrint(a, id, left, row), WithPrint(b, id, left, row);
    forall other | other in a'.prints ensures SamePrint(a', b', other) {
      if other != id {
        assert SamePrint(a, b, other);
        if BlobPath(other) == BlobPath(id) { BlobPathInjective(other, id); }
      }
    }
  }

  lemma SimPrints(a: Db, b: Db, now: int)
    requires Sim(a, b, now)
    ensures PrintsSim(a, b) && a.users == b.users && a.vendors == b.vendors
    ensures forall id | id in a.prints :: id in b.prints
    ensures forall id | id in b.prints :: b.prints[id].blobPath == BlobPath(id)
  {
    hide SharesSim, SessionsSim, BlobPath;
    forall id | id in a.prints ensures id in b.prints { assert SamePrint(a, b, id); }
  }

  lemma InsertPrintsSim(p: Provider, kek: Key, a: Db, b: Db, u: Upload, w: Weather)
    requires PrintsSim(a, b) && a.users == b.users && u.id !in b.prints && u.id !in a.prints
    requires forall id | id in b.prints :: b.prints[id].blobPath == BlobPath(id)
    ensures var x, y := InsertPrint(p, kek, a, u, w).0, InsertPrint(p, kek, b, u, w).0;
      PrintsSim(x, y) && forall id | id in y.prints :: y.prints[id].blobPath == BlobPath(id)
  {
    InsertReply(p, kek, a, b, u, w);
    hide PrintsSim, InsertLeaves, InsertResult, BlobPath, Leave;
    var r := InsertPrint(p, kek, a, u, w).1;
    NewPrintSim(a, b, u.id, InsertLeaves(p, u, w, r.Ok?), if r.Ok? then Some(r.value) else None);
    LeavesText(p, u, w);
  }

  lemma LeavesText(p: Provider, u: Upload, w: Weather)
    ensures InsertLeaves(p, u, w, true) == Some(Some(SealedText(p, u)))
  {
  }

  /** An upload with a new id is accepted or refused on both sides. */
  lemma InsertReply(p: Provider, kek: Key, a: Db, b: Db, u: Upload, w: Weather)
    requires a.users == b.users && u.id !in a.prints && u.id !in b.prints
    ensures InsertPrint(p, kek, a, u, w).1 == InsertPrint(p, kek, b, u, w).1
    ensures var r := InsertPrint(p, kek, a, u, w).1; r.Ok? ==>
      r.value.blobPath == BlobPath(u.id) && u.id in InsertPrint(p, kek, a, u, w).0.prints
  {
    hide Leave, InsertLeaves, Wrapped, BlobPath, Crypto.Seal;
  }

  /** An upload with a new id goes the same way on both sides. */
  lemma InsertSim(p: Provider, kek: Key, a: Db, b: Db, u: Upload, w: Weather, now: int)
    requires Sim(a, b, now) && u.id !in b.prints
    ensures var (x, r), (y, r') := InsertPrint(p, kek, a, u, w), InsertPrint(p, kek, b, u, w);
      r == r' && Sim(x, y, now) && (r.Ok? ==> u.id in x.prints)
  {
    hide Sim, PrintsSim, InsertPrint, InsertLeaves, BlobPath;
    var (x, r) := InsertPrint(p, kek, a, u, w);
    var (y, _) := InsertPrint(p, kek, b, u, w);
    SimPrints(a, b, now);
    InsertReply(p, kek, a, b, u, w);
    InsertPrintsSim(p, kek, a, b, u, w);
    PrintsOnlySim(a, b, x, y, now);
  }

  lemma NewShareSim(a: Shares, b: Shares, s: Share, now: int)
    requires SharesSim(a, b, now) && s.id !in b && forall id | id in b :: b[id].tokenHash != s.tokenHash
    ensures SharesSim(a[s.id := s], b[s.id := s], now)
  {
  }

  lemma SameFiles(a: Db, b: Db, a': Db, b': Db, id: Uuid)
    requires id in a.prints && SamePrint(a, b, id)
    requires a'.prints == a.prints && a'.blobs == a.blobs && b'.prints == b.prints && b'.blobs == b.blobs
    ensures SamePrint(a', b', id)
  {
  }

  lemma AddShareSim(a: Db, b: Db, s: Share, now: int)
    requires Sim(a, b, now) && s.printId in a.prints
    requires s.id !in b.shares && forall id | id in b.shares :: b.shares[id].tokenHash != s.tokenHash
    ensures Sim(a.(shares := a.shares[s.id := s]), b.(shares := b.shares[s.id := s]), now)
  {
    hide SharesSim, SessionsSim, BlobPath, BlobAt;
    NewShareSim(a.shares, b.shares, s, now);
    var a', b' := a.(shares := a.shares[s.id := s]), b.(shares := b.shares[s.id := s]);
    forall id | id in a.prints ensures SamePrint(a', b', id) {
      SameFiles(a, b, a', b', id);
    }
    hide SamePrint;
  }

  lemma NewOnBoth(p: Provider, a: Db, b: Db, d: Draw, now: int)
    requires Sim(a, b, now) && DrawsNewShare(p, b, d)
    ensures DrawsNewShare(p, a, d)
    ensures a.users == b.users && a.vendors == b.vendors
    ensures forall id | id in a.prints :: id in b.prints
  {
    forall id | id in a.prints ensures id in b.prints { assert SamePrint(a, b, id); }
  }

  lemma CreateRowReply(p: Provider, a: Db, b: Db, r: NewShareRequest, d: Draw, vendor: Vendor, at: Moment)
    requires a.users == b.users && a.vendors == b.vendors && d.printId in a.prints && d.printId in b.prints
    requires DrawsNewShare(p, a, d) && DrawsNewShare(p, b, d)
    ensures var x, y := CreateRow(p, a, r, d, vendor, at), CreateRow(p, b, r, d, vendor, at);
      var s := NewShare(p, r, d, vendor.id, at.now);
      && x.reply == y.reply && x.line == y.line
      && ((x.db == a && y.db == b)
          || (x.db == a.(shares := a.shares[s.id := s]) && y.db == b.(shares := b.shares[s.id := s])))
  {
    hide CreatedMeta, ShareTarget, Line;
  }

  lemma CreateRowSim(p: Provider, a: Db, b: Db, r: NewShareRequest, d: Draw, vendor: Vendor, at: Moment)
    requires Sim(a, b, at.now) && d.printId in a.prints && DrawsNewShare(p, b, d)
    ensures var x, y := CreateRow(p, a, r, d, vendor, at), CreateRow(p, b, r, d, vendor, at);
      x.reply == y.reply && x.line == y.line && Sim(x.db, y.db, at.now)
  {
    NewOnBoth(p, a, b, d, at.now);
    CreateRowReply(p, a, b, r, d, vendor, at);
    var s := NewShare(p, r, d, vendor.id, at.now);
    AddShareSim(a, b, s, at.now);
    hide CreateRow, Sim;
  }

  lemma CreateSim(p: Provider, kek: Key, a: Db, b: Db, r: NewShareRequest, d: Draw, at: Moment)
    requires Sim(a, b, at.now) && d.printId !in b.prints && DrawsNewShare(p, b, d)
    ensures var x, y := CreateStore(p, kek, a, r, d, at), CreateStore(p, kek, b, r, d, at);
      x.reply == y.reply && x.line == y.line && Sim(x.db, y.db, at.now)
  {
    hide Sim, InsertPrint, PickVendor, CreateRow, CreateStore;
    SimPrints(a, b, at.now);
    CreateParts(p, kek, a, r, d, at);
    CreateParts(p, kek, b, r, d, at);
    var (vendors, vendor) := PickVendor(a.users, a.vendors, r, d, at);
    var a1, b1, u := a.(vendors := vendors), b.(vendors := vendors), NewUpload(r, d, at.now);
    VendorsOnlySim(a, b, a1, b1, at.now);
    InsertSim(p, kek, a1, b1, u, at.weather, at.now);
    var (a2, row) := InsertPrint(p, kek, a1, u, at.weather);
    var (b2, _) := InsertPrint(p, kek, b1, u, at.weather);
    if row.Ok? && vendor.Some? {
      CreateRowSim(p, a2, b2, r, d, vendor.value, at);
    }
  }

  lemma ConsumeKeepsPrint(ss: Shares, id: Uuid, now: int)
    ensures var ss' := TryConsume(ss, id, Millis(now)).0;
      forall x | x in ss' :: x in ss && ss'[x].printId == ss[x].printId
  {
  }

  lemma ConsumeSim(a: Db, b: Db, id: Uuid, a': Db, b': Db, now: int)
    requires Sim(a, b, now)
    requires a' == a.(shares := a'.shares) && b' == b.(shares := b'.shares)
    requires (a'.shares == a.shares && b'.shares == b.shares)
          || (a'.shares == TryConsume(a.shares, id, Millis(now)).0
              && b'.shares == TryConsume(b.shares, id, Millis(now)).0)
    ensures Sim(a', b', now)
  {
    hide Sim, SharesSim, TryConsume;
    SimShares(a, b, now);
    ConsumeSharesSim(a.shares, b.shares, id, now);
    ConsumeKeepsPrint(a.shares, id, now);
    SharesOnlySim(a, b, a', b', now);
  }

  lemma RedeemFoundReply(p: Provider, kek: Key, a: Db, b: Db, id: Uuid, r: RedeemRequest, at: Moment)
    requires id in a.shares && id in b.shares && a.shares[id] == b.shares[id]
    requires var a1 := a.(shares := TryConsume(a.shares, id, Millis(at.now)).0);
      var b1 := b.(shares := TryConsume(b.shares, id, Millis(at.now)).0);
      var s := a.shares[id];
      && Deliver(p, kek, a1, s, r, at).reply == Deliver(p, kek, b1, s, r, at).reply
      && Deliver(p, kek, a1, s, r, at).line == Deliver(p, kek, b1, s, r, at).line
    ensures var x, y := RedeemFound(p, kek, a, id, r, at), RedeemFound(p, kek, b, id, r, at);
      && x.reply == y.reply && x.line == y.line
      && ((x.db.shares == a.shares && y.db.shares == b.shares)
          || (x.db.shares == TryConsume(a.shares, id, Millis(at.now)).0
              && y.db.shares == TryConsume(b.shares, id, Millis(at.now)).0))
  {
    hide Deliver, One, Line, TryConsume;
    assert TryConsume(a.shares, id, Millis(at.now)).1 == TryConsume(b.shares, id, Millis(at.now)).1 by {
      SameDecision(a.shares, b.shares, id, Millis(at.now));
    }
  }

  lemma SameDecision(a: Shares, b: Shares, id: Uuid, nowMs: int)
    requires id in a && id in b && a[id] == b[id]
    ensures TryConsume(a, id, nowMs).1 == TryConsume(b, id, nowMs).1
  {
  }

  lemma SharedPrint(a: Db, b: Db, id: Uuid, now: int)
    requires Sim(a, b, now) && id in a.shares
    ensures a.shares[id].printId in a.prints
  {
    hide SharesSim, SessionsSim;
  }

  /** Found alive on both sides: the same checks, the same slot, the same file. */
  lemma RedeemFoundSim(p: Provider, kek: Key, a: Db, b: Db, id: Uuid, r: RedeemRequest, at: Moment)
    requires Sim(a, b, at.now) && id in a.shares && id in b.shares && a.shares[id] == b.shares[id]
    ensures var x, y := RedeemFound(p, kek, a, id, r, at), RedeemFound(p, kek, b, id, r, at);
      Sim(x.db, y.db, at.now) && x.reply == y.reply && x.line == y.line
  {
    hide Sim, PrintsSim, Deliver, RedeemFound, TryConsume;
    var s := a.shares[id];
    var a1 := a.(shares := TryConsume(a.shares, id, Millis(at.now)).0);
    var b1 := b.(shares := TryConsume(b.shares, id, Millis(at.now)).0);
    ConsumeSim(a, b, id, a1, b1, at.now);
    SimPrints(a1, b1, at.now);
    SharedPrint(a, b, id, at.now);
    DeliverSim(p, kek, a1, b1, s, r, at);
    RedeemFoundReply(p, kek, a, b, id, r, at);
    ConsumeSim(a, b, id, RedeemFound(p, kek, a, id, r, at).db, RedeemFound(p, kek, b, id, r, at).db, at.now);
  }

  /** A share that cannot be consumed is never handed over. */
  lemma NotConsumable(p: Provider, kek: Key, b: Db, id: Uuid, r: RedeemRequest, at: Moment)
    requires id in b.shares && !Consumable(b.shares[id], Millis(at.now))
    ensures var y := RedeemFound(p, kek, b, id, r, at); !y.reply.Redeemed? && y.db == b
  {
    hide Deliver;
  }

  lemma RedeemReply(p: Provider, kek: Key, db: Db, r: RedeemRequest, at: Moment)
    ensures var i, x := ShareByTokenHash(db.shares, p.sha(r.token)), RedeemStore(p, kek, db, r, at);
      var early := at.weather.failing == TokenHash || at.weather.failing == ShareFind;
      if early || i.None? then !x.reply.Redeemed? && x.db == db
      else x == RedeemFound(p, kek, db, i.value, r, at)
  {
    hide RedeemFound, ShortToken, Line, One;
  }

  /** A redemption that succeeds on one side succeeds on the other, with the same answer and line. */
  lemma RedeemSim(p: Provider, kek: Key, a: Db, b: Db, r: RedeemRequest, at: Moment)
    requires Sim(a, b, at.now)
    ensures var x, y := RedeemStore(p, kek, a, r, at), RedeemStore(p, kek, b, r, at);
      && Sim(x.db, y.db, at.now)
      && (x.reply.Redeemed? || y.reply.Redeemed? ==> x.reply == y.reply && x.line == y.line)
  {
    hide RedeemFound, Sim, RedeemStore, Consumable;
    var i, j := ShareByTokenHash(a.shares, p.sha(r.token)), ShareByTokenHash(b.shares, p.sha(r.token));
    SimShares(a, b, at.now);
    TokenSim(a.shares, b.shares, p.sha(r.token), at.now);
    RedeemReply(p, kek, a, r, at);
    RedeemReply(p, kek, b, r, at);
    if i.Some? {
      RedeemFoundSim(p, kek, a, b, i.value, r, at);
    } else if j.Some? {
      NotConsumable(p, kek, b, j.value, r, at);
    }
  }

  // ----- runs -------------------------------------------------------------------------------

  /** Any operation but a purge, done on both sides. */
  lemma StepSim(p: Provider, kek: Key, a: Db, b: Db, op: Op)
    requires Sim(a, b, op.at.now) && DrawsNew(p, b, op) && !IsPurge(op)
    ensures var x, y := StorePart(p, kek, a, op), StorePart(p, kek, b, op);
      && Sim(x.db, y.db, op.at.now)
      && (op.Authenticate? || op.Login? || op.Logout? || op.CreateShare? ==> x.reply == y.reply && x.line == y.line)
      && (op.RedeemShare? && (x.reply.Redeemed? || y.reply.Redeemed?) ==> x.reply == y.reply && x.line == y.line)
  {
    hide Sim, LoginStore, LogoutStore, AuthenticateStore, CreateStore, RedeemStore, DisableStore, DeleteStore,
         RevokeStore, EndSessionsStore, PurgeSharesStore, PurgeSessionsStore, DrawsNewShare;
    match op
    case Login(r, token, csrf, at) => LoginSim(p, a, b, r, token, csrf, at);
    case Logout(token, caller, at) => LogoutSim(p, a, b, token, caller, at);
    case Authenticate(token, at) => AuthenticateSim(p, a, b, token, at);
    case CreateShare(r, d, at) => CreateSim(p, kek, a, b, r, d, at);
    case RedeemShare(r, at) => RedeemSim(p, kek, a, b, r, at);
    case RevokeShare(id, admin, caller, at) => RevokeSim(a, b, id, admin, caller, at);
    case DeletePrint(id, at) => DeleteSim(a, b, id, at);
    case DisableVendor(id, at) => DisableSim(a, b, id, at);
    case EndUserSessions(user, at) => EndSessionsSim(a, b, user, at);
  }

  /** A purge on one side only. */
  lemma PurgeSim(p: Provider, kek: Key, a: Db, b: Db, op: Op)
    requires Sim(a, b, op.at.now) && IsPurge(op) && (op.PurgeShares? ==> op.graceSeconds < 0x8000_0000_0000_0000)
    ensures Sim(StorePart(p, kek, a, op).db, b, op.at.now)
  {
    hide Sim, PurgeSharesStore, PurgeSessionsStore;
    match op
    case PurgeShares(grace, at) => PurgeSharesSim(a, b, grace, at);
    case PurgeSessions(at) => PurgeSessionsSim(a, b, at);
  }

  /** Where answers are the same or nothing succeeds, so are the lines, but for those left aside. */
  lemma SameSaid(op: Op, x: Mid, y: Mid)
    requires op.Login? || op.Logout? || op.CreateShare? || op.Authenticate? ==> x.line == y.line
    requires op.RedeemShare? && (x.reply.Redeemed? || y.reply.Redeemed?) ==> x.line == y.line
    requires op.RedeemShare? ==> (x.reply.Redeemed? || x.reply.Failed?) && (y.reply.Redeemed? || y.reply.Failed?)
    requires var name := RunLog.EventName(op);
      if name.Some? then RunLog.Truthful(name.value, x) && RunLog.Truthful(name.value, y)
      else x.line.None? && y.line.None?
    ensures Said(x.line) == Said(y.line)
  {
  }

  lemma SaidSnoc(es: seq<Event>, e: Event)
    ensures AllSaid(es + [e]) == AllSaid(es) + Said(Some(e))
  {
    hide Said;
    assert (es + [e])[..|es|] == es;
  }

  /** A line that lands says what was meant. */
  lemma ApplySaid(p: Provider, kek: Key, w: World, op: Op)
    ensures var m := StorePart(p, kek, w.db, op);
      AllSaid(Apply(p, kek, w, op).0.log.events)
        == AllSaid(w.log.events) + (if Lands(op.at.write) then Said(m.line) else [])
  {
    hide StorePart, AllSaid, HashOf;
    var m := StorePart(p, kek, w.db, op);
    if m.line.Some? && Lands(op.at.write) {
      SaidSnoc(w.log.events, AuditLog.Seal(p.sha, m.line.value, w.log.prev));
    }
  }

  /** Whether the line was written depends on the fault alone, not on what is in the log. */
  lemma ApplySim(p: Provider, kek: Key, w: World, v: World, op: Op)
    requires Sim(w.db, v.db, op.at.now) && DrawsNew(p, v.db, op) && !IsPurge(op)
    requires AllSaid(w.log.events) == AllSaid(v.log.events)
    ensures var (w', a), (v', b) := Apply(p, kek, w, op), Apply(p, kek, v, op);
      && Sim(w'.db, v'.db, op.at.now) && Seen(op, a) == Seen(op, b)
      && AllSaid(w'.log.events) == AllSaid(v'.log.events)
  {
    hide Sim, StorePart, Apply, Said, AllSaid, RunLog.EventName, RunLog.Truthful;
    StepSim(p, kek, w.db, v.db, op);
    AnswerOf(p, kek, w, op);
    AnswerOf(p, kek, v, op);
    RunLog.EveryTruthful(p, kek, w.db, op);
    RunLog.EveryTruthful(p, kek, v.db, op);
    RedeemAnswers(p, kek, w.db, op);
    RedeemAnswers(p, kek, v.db, op);
    SameSaid(op, StorePart(p, kek, w.db, op), StorePart(p, kek, v.db, op));
    ApplySaid(p, kek, w, op);
    ApplySaid(p, kek, v, op);
  }

  lemma RedeemAnswers(p: Provider, kek: Key, db: Db, op: Op)
    ensures var m := StorePart(p, kek, db, op); op.RedeemShare? ==> m.reply.Redeemed? || m.reply.Failed?
  {
    if op.RedeemShare? {
      RedeemedOrFailed(p, kek, db, op.redeem, op.at);
    }
    hide RedeemStore;
  }

  lemma RedeemedOrFailed(p: Provider, kek: Key, db: Db, r: RedeemRequest, at: Moment)
    ensures var reply := RedeemStore(p, kek, db, r, at).reply; reply.Redeemed? || reply.Failed?
  {
    hide Line, One, ShortToken, RedeemSlot;
    var id := ShareByTokenHash(db.shares, p.sha(r.token));
    if id.Some? {
      SlotAnswers(p, kek, db, id.value, r, at);
    }
  }

  lemma SlotAnswers(p: Provider, kek: Key, db: Db, id: Uuid, r: RedeemRequest, at: Moment)
    requires id in db.shares
    ensures var reply := RedeemSlot(p, kek, db, id, r, at).reply; reply.Redeemed? || reply.Failed?
  {
    hide Line, One, TryConsume, ReadBlob;
  }

  /** The clock never goes back. */
  ghost predicate Monotone(ops: seq<Op>) {
    forall i, j | 0 <= i < j < |ops| :: ops[i].at.now <= ops[j].at.now
  }

  /** Grace periods that do not wrap when taken as i64. */
  ghost predicate GraceInRange(ops: seq<Op>) {
    forall i | 0 <= i < |ops| && ops[i].PurgeShares? :: ops[i].graceSeconds < 0x8000_0000_0000_0000
  }

  /** Every draw of the run is new to the tables as they stand when it is made. */
  ghost predicate NewAlong(p: Provider, kek: Key, w: World, ops: seq<Op>) {
    forall k | 0 <= k < |ops| :: DrawsNew(p, Run(p, kek, w, ops[..k]).0.db, ops[k])
  }

  lemma {:induction false} RunLength(p: Provider, kek: Key, w: World, ops: seq<Op>)
    ensures |Run(p, kek, w, ops).1| == |ops|
    decreases |ops|
  {
    hide Apply;
    if ops != [] { RunLength(p, kek, w, ops[..|ops| - 1]); }
  }

  lemma NewAlongSnoc(p: Provider, kek: Key, w: World, ops: seq<Op>, op: Op)
    requires NewAlong(p, kek, w, ops + [op])
    ensures NewAlong(p, kek, w, ops) && DrawsNew(p, Run(p, kek, w, ops).0.db, op)
  {
    hide DrawsNew, Run;
    var all := ops + [op];
    assert all[..|ops|] == ops && all[|ops|] == op;
    forall k | 0 <= k < |ops| ensures DrawsNew(p, Run(p, kek, w, ops[..k]).0.db, ops[k]) {
      assert all[..k] == ops[..k] && all[k] == ops[k];
    }
  }

  lemma AllSeenSnoc(ops: seq<Op>, answers: seq<Answer>, op: Op, a: Answer)
    requires |ops| == |answers|
    ensures AllSeen(ops + [op], answers + [a]) == AllSeen(ops, answers) + (if IsPurge(op) then [] else [Seen(op, a)])
  {
    assert (ops + [op])[..|ops|] == ops && (answers + [a])[..|ops|] == answers;
  }

  /** The logs of the run with its purges and without say the same. */
  ghost predicate SameSaying(p: Provider, kek: Key, w: World, ops: seq<Op>) {
    AllSaid(Run(p, kek, w, ops).0.log.events) == AllSaid(Run(p, kek, w, Erase(ops)).0.log.events)
  }

  /** One more operation, on both runs or, if it is a purge, on one. */
  lemma SimSnoc(p: Provider, kek: Key, w: World, init: seq<Op>, op: Op)
    requires Sim(Run(p, kek, w, init).0.db, Run(p, kek, w, Erase(init)).0.db, op.at.now)
    requires SameSaying(p, kek, w, init) && NewAlong(p, kek, w, Erase(init + [op])) && GraceInRange([op])
    ensures SameSaying(p, kek, w, init + [op])
    ensures Sim(Run(p, kek, w, init + [op]).0.db, Run(p, kek, w, Erase(init + [op])).0.db, op.at.now)
    ensures |Run(p, kek, w, init).1| == |init| && |Run(p, kek, w, Erase(init)).1| == |Erase(init)|
    ensures |Run(p, kek, w, init + [op]).1| == |init + [op]|
    ensures |Run(p, kek, w, Erase(init + [op])).1| == |Erase(init + [op])|
    ensures AllSeen(init, Run(p, kek, w, init).1) == AllSeen(Erase(init), Run(p, kek, w, Erase(init)).1) ==>
      AllSeen(init + [op], Run(p, kek, w, init + [op]).1)
        == AllSeen(Erase(init + [op]), Run(p, kek, w, Erase(init + [op])).1)
  {
    hide Sim, Apply, Run, AllSeen, AllSaid, NewAlong, DrawsNew, StorePart;
    assert (init + [op])[..|init|] == init;
    RunLength(p, kek, w, init);
    RunLength(p, kek, w, Erase(init));
    RunLength(p, kek, w, init + [op]);
    RunLength(p, kek, w, Erase(init + [op]));
    RunSnoc(p, kek, w, init, op);
    var (a, answers) := Run(p, kek, w, init);
    var (b, answers') := Run(p, kek, w, Erase(init));
    var (_, x) := Apply(p, kek, a, op);
    AllSeenSnoc(init, answers, op, x);
    if IsPurge(op) {
      assert [op][0] == op;
      AnswerOf(p, kek, a, op);
      PurgeSim(p, kek, a.db, b.db, op);
      RunLog.EveryTruthful(p, kek, a.db, op);
      ApplySaid(p, kek, a, op);
      assert Erase(init + [op]) == Erase(init);
    } else {
      NewAlongSnoc(p, kek, w, Erase(init), op);
      ApplySim(p, kek, a, b, op);
      RunSnoc(p, kek, w, Erase(init), op);
      var (_, y) := Apply(p, kek, b, op);
      AllSeenSnoc(Erase(init), answers', op, y);
    }
  }

  lemma MonotonePrefix(ops: seq<Op>)
    requires ops != [] && Monotone(ops)
    ensures Monotone(ops[..|ops| - 1]) && forall i | 0 <= i < |ops| :: ops[i].at.now <= ops[|ops| - 1].at.now
  {
  }

  lemma {:induction false} RunsSim(p: Provider, kek: Key, w: World, ops: seq<Op>, now: int)
    requires Sim(w.db, w.db, now) && Monotone(ops) && GraceInRange(ops)
    requires forall i | 0 <= i < |ops| :: ops[i].at.now <= now
    requires NewAlong(p, kek, w, Erase(ops))
    ensures |Run(p, kek, w, ops).1| == |ops| && |Run(p, kek, w, Erase(ops)).1| == |Erase(ops)|
    ensures Sim(Run(p, kek, w, ops).0.db, Run(p, kek, w, Erase(ops)).0.db, now) && SameSaying(p, kek, w, ops)
    ensures AllSeen(ops, Run(p, kek, w, ops).1) == AllSeen(Erase(ops), Run(p, kek, w, Erase(ops)).1)
    decreases |ops|
  {
    if ops == [] {
      hide Sim, Apply;
    } else {
      hide Sim, AllSeen, SameSaying, Run, NewAlong, Monotone;
      var init, op := ops[..|ops| - 1], ops[|ops| - 1];
      SplitLast(ops);
      MonotonePrefix(ops);
      ErasePrefixNew(p, kek, w, init, op);
      SelfSim(w.db, now, op.at.now);
      RunsSim(p, kek, w, init, op.at.now);
      assert [op][0] == op;
      SimSnoc(p, kek, w, init, op);
      SimLater(Run(p, kek, w, ops).0.db, Run(p, kek, w, Erase(ops)).0.db, op.at.now, now);
    }
  }

  lemma ErasePrefixNew(p: Provider, kek: Key, w: World, init: seq<Op>, op: Op)
    requires NewAlong(p, kek, w, Erase(init + [op]))
    ensures NewAlong(p, kek, w, Erase(init))
  {
    hide NewAlong;
    assert (init + [op])[..|init|] == init;
    if IsPurge(op) {
      assert Erase(init) + [] == Erase(init);
    } else {
      NewAlongSnoc(p, kek, w, Erase(init), op);
    }
  }

  /** Tables in step with themselves are so at any time. */
  lemma SelfSim(db: Db, now: int, other: int)
    requires Sim(db, db, now)
    ensures Sim(db, db, other)
  {
    hide PrintsSim, DistinctTokens;
  }

  /**
   Erasing every purge from a run leaves what is seen unchanged: each login, logout, session lookup and
   creation answers the same, the same redemptions succeed with the same file, and the log says the same in
   the same order but for refused redemptions and revocations. This under a monotone clock, grace periods
   that do not wrap, and ids and tokens drawn new.
   */
  lemma PurgesUnseen(p: Provider, kek: Key, w: World, ops: seq<Op>)
    requires w.db.prints == map[] && w.db.shares == map[]
    requires Monotone(ops) && GraceInRange(ops) && NewAlong(p, kek, w, Erase(ops))
    ensures |Run(p, kek, w, ops).1| == |ops| && |Run(p, kek, w, Erase(ops)).1| == |Erase(ops)|
    ensures AllSeen(ops, Run(p, kek, w, ops).1) == AllSeen(Erase(ops), Run(p, kek, w, Erase(ops)).1)
    ensures SameSaying(p, kek, w, ops)
  {
    hide AllSeen, Run, NewAlong, Erase, SameSaying;
    var now := if ops == [] then 0 else ops[|ops| - 1].at.now;
    assert Sim(w.db, w.db, now);
    hide Sim;
    RunsSim(p, kek, w, ops, now);
  }

  // ----- an ended session stays ended ---------------------------------------------------------

  /** Revoked, purged or expired. */
  predicate Ended(db: Db, h: Digest, now: int) {
    h !in db.sessions || db.sessions[h].expiresAt <= Millis(now)
  }

  lemma EndedStays(p: Provider, kek: Key, db: Db, op: Op, h: Digest, now: int)
    requires Ended(db, h, now) && now <= op.at.now
    requires op.Login? ==> p.sha(op.sessionToken) != h
    ensures Ended(StorePart(p, kek, db, op).db, h, op.at.now)
  {
    hide CreateStore, RedeemStore, DisableStore, RevokeStore, PurgeSharesStore, LoginStore, LogoutStore,
         AuthenticateStore, Tables.DeletePrint, Millis;
    EndedLater(db, h, now, op.at.now);
    match op
    case Login(r, token, csrf, at) => LoginKeepsEnded(p, db, r, token, csrf, at, h);
    case Logout(token, caller, at) => LogoutKeepsEnded(p, db, token, caller, at, h);
    case Authenticate(token, at) => LogoutKeepsEnded(p, db, token, Caller("", ""), at, h);
    case CreateShare(r, d, at) => CreateLeavesSessions(p, kek, db, r, d, at);
    case DisableVendor(id, at) => DisableLeavesSessions(db, id, at);
    case _ =>
  }

  lemma DisableLeavesSessions(db: Db, id: Uuid, at: Moment)
    ensures DisableStore(db, id, at).db.sessions == db.sessions
  {
    hide Tables.DisableVendor;
  }

  lemma LogoutKeepsEnded(p: Provider, db: Db, token: string, caller: Caller, at: Moment, h: Digest)
    requires Ended(db, h, at.now)
    ensures Ended(LogoutStore(p, db, token, caller, at).db, h, at.now)
    ensures Ended(AuthenticateStore(p, db, token, at).db, h, at.now)
  {
    hide LookUp, Line, Millis;
    LookUpKeepsEnded(p, db, token, at, h);
  }

  lemma LoginKeepsEnded(p: Provider, db: Db, r: LoginRequest, token: string, csrf: Bytes, at: Moment, h: Digest)
    requires p.sha(token) != h && Ended(db, h, at.now)
    ensures Ended(LoginStore(p, db, r, token, csrf, at).db, h, at.now)
  {
    hide Line, One, UserByEmail, PasswordFits;
  }

  lemma LookUpKeepsEnded(p: Provider, db: Db, token: string, at: Moment, h: Digest)
    requires Ended(db, h, at.now)
    ensures var r := LookUp(p, db, token, at); r.Some? ==> Ended(r.value.0, h, at.now)
  {
  }

  lemma EndedLater(db: Db, h: Digest, now: int, later: int)
    requires Ended(db, h, now) && now <= later
    ensures Ended(db, h, later)
  {
    MillisMonotone(now, later);
  }

  lemma EndedNotFound(p: Provider, db: Db, token: string, at: Moment)
    requires Ended(db, p.sha(token), at.now)
    ensures var reply := AuthenticateStore(p, db, token, at).reply; reply.Identified? ==> reply.found.None?
  {
    hide Millis;
  }

  /** Once a session has expired or been revoked, no later lookup of its token finds it. */
  lemma {:induction false} NeverFoundAgain(p: Provider, kek: Key, w: World, ops: seq<Op>, token: string, at: Moment,
                                           now: int)
    requires Ended(w.db, p.sha(token), now) && Monotone(ops)
    requires forall i | 0 <= i < |ops| :: now <= ops[i].at.now <= at.now
    requires forall i | 0 <= i < |ops| && ops[i].Login? :: p.sha(ops[i].sessionToken) != p.sha(token)
    requires now <= at.now
    ensures var (w', _) := Run(p, kek, w, ops);
      Ended(w'.db, p.sha(token), at.now) &&
      (var reply := AuthenticateStore(p, w'.db, token, at).reply; reply.Identified? ==> reply.found.None?)
    decreases |ops|
  {
    hide AuthenticateStore, Ended;
    if ops == [] {
      hide Apply;
      EndedLater(w.db, p.sha(token), now, at.now);
      EndedNotFound(p, w.db, token, at);
    } else {
      hide Run, StorePart, Apply;
      var init, op := ops[..|ops| - 1], ops[|ops| - 1];
      SplitLast(ops);
      RunSnoc(p, kek, w, init, op);
      NeverFoundAgain(p, kek, w, init, token, op.at, now);
      var (v, _) := Run(p, kek, w, init);
      EndedStays(p, kek, v.db, op, p.sha(token), op.at.now);
      AnswerOf(p, kek, v, op);
      var db := Run(p, kek, w, ops).0.db;
      EndedLater(db, p.sha(token), op.at.now, at.now);
      EndedNotFound(p, db, token, at);
    }
  }

  /** Logging out and ending a user's sessions do end them. */
  lemma LogoutEnds(p: Provider, db: Db, token: string, caller: Caller, at: Moment)
    ensures var m := LogoutStore(p, db, token, caller, at);
      m.reply.LoggedOut? ==> p.sha(token) !in m.db.sessions
    ensures at.weather.failing != RowsDelete ==>
      forall h, user | h in EndSessionsStore(db, user, at).db.sessions ::
        EndSessionsStore(db, user, at).db.sessions[h].userId != user
  {
    hide LookUp, Line;
  }
}
