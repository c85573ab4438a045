/** The log of a run of the service: whatever the run, its file reads back in full. */
module RunLog {
  import opened Basics
  import opened Json
  import opened JsonValue
  import opened AuditEvent
  import opened AuditChain
  import opened AuditLog
  import AuditRuns
  import opened Clock
  import opened Crypto
  import opened Tables
  import opened Requests
  import opened Service

  ghost predicate LineReadable(m: Mid) {
    m.line.Some? ==> Readable(m.line.value)
  }

  lemma NothingDepth()
    ensures Depth(NOTHING) == 1
  {
  }

  lemma TargetDepth(s: Share)
    ensures Depth(ShareTarget(s)) == 1
  {
    hide MembersDepth;
  }

  lemma CreatedDepth(r: NewShareRequest)
    ensures Depth(CreatedMeta(r)) == 1
  {
    hide MembersDepth, NatText;
  }

  lemma RedeemedDepth(f: Print)
    ensures Depth(RedeemedMeta(f)) == 1
  {
    hide MembersDepth, NatText;
  }

  lemma SessionLines(p: Provider, db: Db, r: LoginRequest, token: string, csrf: Bytes, caller: Caller, at: Moment)
    ensures LineReadable(LoginStore(p, db, r, token, csrf, at))
    ensures LineReadable(LogoutStore(p, db, token, caller, at))
  {
    NothingDepth();
    hide Line, One, MembersDepth, LookUp, PasswordFits, SessionInsertable;
  }

  lemma RowLine(p: Provider, db: Db, r: NewShareRequest, d: Draw, vendor: Vendor, at: Moment)
    ensures LineReadable(CreateRow(p, db, r, d, vendor, at))
  {
    hide Line, Depth, NewShare, ShareInsertable, ShareTarget, CreatedMeta;
    TargetDepth(NewShare(p, r, d, vendor.id, at.now));
    CreatedDepth(r);
  }

  lemma CreateLine(p: Provider, kek: Key, db: Db, r: NewShareRequest, d: Draw, at: Moment)
    ensures LineReadable(CreateStore(p, kek, db, r, d, at))
  {
    hide PickVendor, Tables.InsertPrint, CreateRow, Readable;
    var (vendors, vendor) := PickVendor(db.users, db.vendors, r, d, at);
    if vendor.Some? {
      var (db2, _) := Tables.InsertPrint(p, kek, db.(vendors := vendors), NewUpload(r, d, at.now), at.weather);
      RowLine(p, db2, r, d, vendor.value, at);
    }
  }

  lemma DeliverLine(p: Provider, kek: Key, db: Db, s: Share, r: RedeemRequest, at: Moment)
    ensures LineReadable(Deliver(p, kek, db, s, r, at))
  {
    hide Line, Depth, Tables.ReadBlob, ShareTarget, RedeemedMeta;
    TargetDepth(s);
    if s.printId in db.prints {
      RedeemedDepth(db.prints[s.printId]);
    }
  }

  lemma FoundLine(p: Provider, kek: Key, db: Db, id: Uuid, r: RedeemRequest, at: Moment)
    requires id in db.shares
    ensures LineReadable(RedeemFound(p, kek, db, id, r, at))
  {
    hide Line, One, Depth, Deliver, TryConsume;
    DeliverLine(p, kek, db.(shares := TryConsume(db.shares, id, Millis(at.now)).0), db.shares[id], r, at);
  }

  lemma RedeemLine(p: Provider, kek: Key, db: Db, r: RedeemRequest, at: Moment)
    ensures LineReadable(RedeemStore(p, kek, db, r, at))
  {
    hide Line, One, Depth, RedeemFound, ShortToken;
    var id := ShareByTokenHash(db.shares, p.sha(r.token));
    if id.Some? {
      FoundLine(p, kek, db, id.value, r, at);
    }
  }

  lemma RevokeLine(db: Db, id: Uuid, admin: Uuid, caller: Caller, at: Moment)
    ensures LineReadable(RevokeStore(db, id, admin, caller, at))
  {
    NothingDepth();
    hide Line, One, MembersDepth, Tables.RevokeShare;
  }

  lemma EveryLine(p: Provider, kek: Key, db: Db, op: Op)
    ensures LineReadable(StorePart(p, kek, db, op))
  {
    hide LoginStore, LogoutStore, CreateStore, RedeemStore, RevokeStore, LookUp, Tables.DeletePrint;
    match op
    case Login(r, token, csrf, at) => SessionLines(p, db, r, token, csrf, r.caller, at);
    case Logout(token, caller, at) =>
      SessionLines(p, db, LoginRequest("", "", caller), token, [], caller, at);
    case CreateShare(r, d, at) => CreateLine(p, kek, db, r, d, at);
    case RedeemShare(r, at) => RedeemLine(p, kek, db, r, at);
    case RevokeShare(id, admin, caller, at) => RevokeLine(db, id, admin, caller, at);
    case _ =>
  }

  lemma ApplyReadable(p: Provider, kek: Key, w: World, op: Op)
    requires forall e | e in w.log.events :: Readable(e)
    ensures forall e | e in Apply(p, kek, w, op).0.log.events :: Readable(e)
  {
    EveryLine(p, kek, w.db, op);
    var m := StorePart(p, kek, w.db, op);
    hide StorePart, Depth, HashOf;
    if m.line.Some? {
      assert Readable(AuditLog.Seal(p.sha, m.line.value, w.log.prev));
      hide Readable, AuditLog.Seal;
    }
  }

  lemma {:induction false} RunReadable(p: Provider, kek: Key, w: World, ops: seq<Op>)
    requires forall e | e in w.log.events :: Readable(e)
    ensures forall e | e in Run(p, kek, w, ops).0.log.events :: Readable(e)
    decreases |ops|
  {
    hide Readable, Apply;
    if ops != [] {
      RunReadable(p, kek, w, ops[..|ops| - 1]);
      ApplyReadable(p, kek, Run(p, kek, w, ops[..|ops| - 1]).0, ops[|ops| - 1]);
    }
  }

  /** The file a run leaves reads back as exactly the events the run logged, and a restart resumes after them. */
  lemma RunReadsBack(p: Provider, kek: Key, w: World, ops: seq<Op>)
    requires forall e | e in w.log.events :: Readable(e)
    ensures var es := Run(p, kek, w, ops).0.log.events;
      && ReadText(FileText(es)) == Ok(es)
      && LastLineHash(Lines(FileText(es))) == Ok(LastHash(es, GENESIS))
  {
    hide Run, ReadText, FileText, LastLineHash, Lines, LastHash;
    RunReadable(p, kek, w, ops);
    var es := Run(p, kek, w, ops).0.log.events;
    assert es != [] ==> es[|es| - 1] in es;
    ReadBack(es);
    ResumeWritten(es);
  }

  // ----- nothing succeeds unrecorded ----------------------------------------------------------

  /** The event an operation records; looking a session up and the maintenance calls record none. */
  function EventName(op: Op): Option<string> {
    match op
    case Login(_, _, _, _) => Some("auth.login")
    case Logout(_, _, _) => Some("auth.logout")
    case CreateShare(_, _, _) => Some("share.created")
    case RedeemShare(_, _) => Some("share.redeem")
    case RevokeShare(_, _, _, _) => Some("share.revoked")
    case _ => None
  }

  /** A line carries the operation's name and tells of success exactly when the reply does; no line, no success. */
  ghost predicate Truthful(name: string, m: Mid) {
    if m.line.None? then m.reply.Failed?
    else m.line.value.event == name && (m.line.value.outcome == Success <==> !m.reply.Failed?)
  }

  lemma SessionsTruthful(p: Provider, db: Db, r: LoginRequest, token: string, csrf: Bytes, caller: Caller, at: Moment)
    ensures Truthful("auth.login", LoginStore(p, db, r, token, csrf, at))
    ensures Truthful("auth.logout", LogoutStore(p, db, token, caller, at))
  {
    hide One, LookUp, PasswordFits, SessionInsertable, NewSession;
  }

  lemma CreateTruthful(p: Provider, kek: Key, db: Db, r: NewShareRequest, d: Draw, at: Moment)
    ensures Truthful("share.created", CreateStore(p, kek, db, r, d, at))
  {
    hide PickVendor, Tables.InsertPrint, NewShare, ShareInsertable, ShareTarget, CreatedMeta;
  }

  lemma DeliverTruthful(p: Provider, kek: Key, db: Db, s: Share, r: RedeemRequest, at: Moment)
    ensures Truthful("share.redeem", Deliver(p, kek, db, s, r, at))
  {
    hide Tables.ReadBlob, ShareTarget, RedeemedMeta;
  }

  lemma RefusalTruthful(db: Db, at: Moment, caller: Caller, target: Value, reason: string, e: ServiceError)
    ensures Truthful("share.redeem", Refusal(db, at, caller, target, reason, e))
  {
    hide One;
  }

  lemma FailTruthful(db: Db, e: ServiceError)
    ensures Truthful("share.redeem", Fail(db, e))
  {
  }

  lemma FoundTruthful(p: Provider, kek: Key, db: Db, id: Uuid, r: RedeemRequest, at: Moment)
    requires id in db.shares
    ensures Truthful("share.redeem", RedeemFound(p, kek, db, id, r, at))
  {
    hide Truthful, Refusal, Fail, One, Deliver, TryConsume;
    var target := One("share_id", String(id));
    FailTruthful(db, StorageErr);
    RefusalTruthful(db, at, r.caller, target, "bad_access_code", InvalidCredentials);
    RefusalTruthful(db, at, r.caller, target, "unavailable", ShareUnavailable);
    DeliverTruthful(p, kek, db.(shares := TryConsume(db.shares, id, Millis(at.now)).0), db.shares[id], r, at);
  }

  lemma RedeemTruthful(p: Provider, kek: Key, db: Db, r: RedeemRequest, at: Moment)
    ensures Truthful("share.redeem", RedeemStore(p, kek, db, r, at))
  {
    hide Truthful, Refusal, Fail, One, RedeemFound, ShortToken;
    FailTruthful(db, CryptoErr);
    FailTruthful(db, StorageErr);
    RefusalTruthful(db, at, r.caller, One("token_prefix", String(ShortToken(r.token))), "unknown_token", NoSuchShare);
    var id := ShareByTokenHash(db.shares, p.sha(r.token));
    if id.Some? {
      FoundTruthful(p, kek, db, id.value, r, at);
    }
  }

  lemma RevokeTruthful(db: Db, id: Uuid, admin: Uuid, caller: Caller, at: Moment)
    ensures Truthful("share.revoked", RevokeStore(db, id, admin, caller, at))
  {
    hide One, Tables.RevokeShare;
  }

  lemma EveryTruthful(p: Provider, kek: Key, db: Db, op: Op)
    ensures EventName(op).Some? ==> Truthful(EventName(op).value, StorePart(p, kek, db, op))
    ensures EventName(op).None? ==> StorePart(p, kek, db, op).line.None?
  {
    hide LoginStore, LogoutStore, CreateStore, RedeemStore, RevokeStore, Truthful, LookUp, Tables.DeletePrint;
    match op
    case Login(r, token, csrf, at) => SessionsTruthful(p, db, r, token, csrf, r.caller, at);
    case Logout(token, caller, at) => SessionsTruthful(p, db, LoginRequest("", "", caller), token, [], caller, at);
    case CreateShare(r, d, at) => CreateTruthful(p, kek, db, r, d, at);
    case RedeemShare(r, at) => RedeemTruthful(p, kek, db, r, at);
    case RevokeShare(id, admin, caller, at) => RevokeTruthful(db, id, admin, caller, at);
    case _ =>
  }

  predicate RecordsSuccess(e: Event, name: string) {
    e.event == name && e.outcome == Success
  }

  predicate Succeeds(op: Op, a: Answer, name: string) {
    EventName(op) == Some(name) && !a.reply.Failed?
  }

  function Recorded(es: seq<Event>, name: string): nat {
    if es == [] then 0
    else Recorded(es[..|es| - 1], name) + (if RecordsSuccess(es[|es| - 1], name) then 1 else 0)
  }

  function Succeeded(ops: seq<Op>, answers: seq<Answer>, name: string): nat
    requires |ops| == |answers|
  {
    if ops == [] then 0
    else
      var n := |ops| - 1;
      Succeeded(ops[..n], answers[..n], name) + (if Succeeds(ops[n], answers[n], name) then 1 else 0)
  }

  lemma ApplyRecords(p: Provider, kek: Key, w: World, op: Op, name: string)
    ensures var (w', a) := Apply(p, kek, w, op);
      var before, after := Recorded(w.log.events, name), Recorded(w'.log.events, name);
      var one := if Succeeds(op, a, name) then 1 else 0;
      && before + one <= after
      && (op.at.write != SyncFails ==> before + one == after)
  {
    EveryTruthful(p, kek, w.db, op);
    hide StorePart, EventName, HashOf;
    var m := StorePart(p, kek, w.db, op);
    if m.line.Some? {
      var s := AuditLog.Seal(p.sha, m.line.value, w.log.prev);
      assert s.event == m.line.value.event && s.outcome == m.line.value.outcome;
      assert (w.log.events + [s])[..|w.log.events|] == w.log.events;
      hide AuditLog.Seal;
    }
  }

  /**
   No silent success. In every run the successful logins, logouts, creations, redemptions and revocations are
   at most as many as the lines that record them, kind by kind; and exactly as many where no append landed
   and was then reported as failed.
   */
  lemma {:induction false} NothingUnrecorded(p: Provider, kek: Key, w: World, ops: seq<Op>, name: string)
    ensures var (w', answers) := Run(p, kek, w, ops);
      && |answers| == |ops|
      && Recorded(w.log.events, name) + Succeeded(ops, answers, name) <= Recorded(w'.log.events, name)
      && ((forall i | 0 <= i < |ops| :: ops[i].at.write != SyncFails) ==>
            Recorded(w.log.events, name) + Succeeded(ops, answers, name) == Recorded(w'.log.events, name))
    decreases |ops|
  {
    hide Apply, Succeeds, RecordsSuccess;
    if ops != [] {
      var init, op := ops[..|ops| - 1], ops[|ops| - 1];
      NothingUnrecorded(p, kek, w, init, name);
      var (v, answers) := Run(p, kek, w, init);
      ApplyRecords(p, kek, v, op, name);
      var a := Apply(p, kek, v, op).1;
      assert (answers + [a])[..|init|] == answers;
      hide Recorded;
    }
  }

  // ----- the chain of a run --------------------------------------------------------------------

  function LineStep(m: Mid, fault: WriteFault): seq<AuditRuns.Step> {
    if m.line.None? then [] else [AuditRuns.Write(m.line.value, fault)]
  }

  /** The writes to the log that a run of the service makes. */
  ghost function AuditSteps(p: Provider, kek: Key, w: World, ops: seq<Op>): seq<AuditRuns.Step> {
    if ops == [] then []
    else
      var init, op := ops[..|ops| - 1], ops[|ops| - 1];
      AuditSteps(p, kek, w, init) + LineStep(StorePart(p, kek, Run(p, kek, w, init).0.db, op), op.at.write)
  }

  /** The log as the log's own runs have it, held open. */
  function Held(log: LogState): AuditRuns.State {
    AuditRuns.State(log.events, Some(log.prev))
  }

  lemma ApplyIsStep(p: Provider, kek: Key, w: World, op: Op, h: AuditRuns.History)
    ensures var steps := LineStep(StorePart(p, kek, w.db, op), op.at.write);
      AuditRuns.RunAll(p.sha, Held(w.log), h, steps).0 == Held(Apply(p, kek, w, op).0.log)
  {
    hide StorePart, WriteEvent, AuditRuns.Record;
    var m := StorePart(p, kek, w.db, op);
    if m.line.Some? {
      var step := AuditRuns.Write(m.line.value, op.at.write);
      hide AuditRuns.RunAll;
      AuditRuns.RunOne(p.sha, Held(w.log), h, step);
    }
  }

  lemma StepsSnoc(p: Provider, kek: Key, w: World, init: seq<Op>, op: Op)
    ensures AuditSteps(p, kek, w, init + [op])
         == AuditSteps(p, kek, w, init) + LineStep(StorePart(p, kek, Run(p, kek, w, init).0.db, op), op.at.write)
  {
    hide StorePart, Run, LineStep;
    assert (init + [op])[..|init|] == init;
  }

  lemma WritesJoin(a: seq<AuditRuns.Step>, m: Mid, fault: WriteFault)
    requires AuditRuns.OnlyWrites(a)
    ensures AuditRuns.OnlyWrites(a + LineStep(m, fault))
  {
  }

  /** The log of a run of the service is that of a run of log writes. */
  lemma {:induction false} RunIsSteps(p: Provider, kek: Key, w: World, ops: seq<Op>, h: AuditRuns.History)
    ensures AuditRuns.OnlyWrites(AuditSteps(p, kek, w, ops))
    ensures AuditRuns.RunAll(p.sha, Held(w.log), h, AuditSteps(p, kek, w, ops)).0 == Held(Run(p, kek, w, ops).0.log)
    decreases |ops|
  {
    if ops == [] {
      hide StorePart, Apply, AuditRuns.Next, AuditRuns.Record;
    } else {
      hide *;
      var init, op := ops[..|ops| - 1], ops[|ops| - 1];
      SplitLast(ops);
      RunIsSteps(p, kek, w, init, h);
      RunSnoc(p, kek, w, init, op);
      StepsSnoc(p, kek, w, init, op);
      var v, steps := Run(p, kek, w, init).0, AuditSteps(p, kek, w, init);
      var more := LineStep(StorePart(p, kek, v.db, op), op.at.write);
      WritesJoin(steps, StorePart(p, kek, v.db, op), op.at.write);
      ApplyIsStep(p, kek, v, op, AuditRuns.RunAll(p.sha, Held(w.log), h, steps).1);
      AuditRuns.RunConcat(p.sha, Held(w.log), h, steps, more);
    }
  }

  /**
   The chain over runs of the service. From a file that verifies, opened, the log of a run verifies if no line
   lands after a lost one; and otherwise it breaks exactly at the first that does, or a forgery is at hand.
   */
  lemma RunChain(p: Provider, kek: Key, w: World, ops: seq<Op>)
    requires Chain(p.sha, GENESIS, w.log.events) && w.log.prev == LastHash(w.log.events, GENESIS)
    requires forall e | e in w.log.events :: Readable(e)
    ensures var steps := AuditSteps(p, kek, w, ops);
      var h := AuditRuns.RunAll(p.sha, Held(w.log), AuditRuns.History([], None, w.log.events), steps).1;
      var s := Held(Run(p, kek, w, ops).0.log);
      && (h.gapAt.None? <==> AuditRuns.Gapless(steps))
      && (AuditRuns.Gapless(steps) || !AuditRuns.Forged(p.sha, h) ==>
            IsVerdict(p.sha, GENESIS, s.events, AuditRuns.Foretold(s, h)))
  {
    hide Run, AuditSteps, AuditRuns.RunAll, Chain, LastHash, Readable, IsVerdict, AuditRuns.Forged, AuditRuns.Gapless,
         AuditRuns.OnlyWrites, AuditRuns.Foretold;
    var start := w.log.events;
    assert start != [] ==> start[|start| - 1] in start;
    RunIsSteps(p, kek, w, ops, AuditRuns.History([], None, start));
    AuditRuns.OneProcess(p.sha, start, AuditSteps(p, kek, w, ops));
  }

  /** So where no append is lost, the log of a run verifies. */
  lemma LosslessRunVerifies(p: Provider, kek: Key, w: World, ops: seq<Op>)
    requires Chain(p.sha, GENESIS, w.log.events) && w.log.prev == LastHash(w.log.events, GENESIS)
    requires forall e | e in w.log.events :: Readable(e)
    requires forall i | 0 <= i < |ops| :: !ops[i].at.write.OpenFails? && !ops[i].at.write.AppendFails?
    ensures Chain(p.sha, GENESIS, Run(p, kek, w, ops).0.log.events)
  {
    RunChain(p, kek, w, ops);
    StepsLossless(p, kek, w, ops);
    hide Run, AuditSteps, AuditRuns.RunAll, Chain, Readable, AuditRuns.Forged;
  }

  lemma {:induction false} StepsLossless(p: Provider, kek: Key, w: World, ops: seq<Op>)
    requires forall i | 0 <= i < |ops| :: !ops[i].at.write.OpenFails? && !ops[i].at.write.AppendFails?
    ensures AuditRuns.NoLoss(AuditSteps(p, kek, w, ops))
  {
    if ops != [] {
      StepsLossless(p, kek, w, ops[..|ops| - 1]);
      hide StorePart, Run;
    }
  }
}
