/**
 Safety of shares over whole runs, read off the log: how often a share was redeemed, against its
 download count and its limit, and that nothing is redeemed after a revocation.
 */
module ShareSafety {
  import opened Basics
  import opened Json
  import opened JsonValue
  import opened AuditEvent
  import opened AuditChain
  import opened AuditLog
  import opened Crypto
  import opened Tables
  import opened Requests
  import opened Clock
  import opened Service

  // ----- counting -------------------------------------------------------------------

  ghost function RedeemLines(es: seq<Event>, id: Uuid): nat {
    if es == [] then 0
    else RedeemLines(es[..|es| - 1], id) + (if IsRedeemLine(es[|es| - 1], id) then 1 else 0)
  }

  /** Answers that used up a slot of the share. */
  ghost function Slots(answers: seq<Answer>, id: Uuid): nat {
    if answers == [] then 0
    else Slots(answers[..|answers| - 1], id) + (if answers[|answers| - 1].slot == Some(id) then 1 else 0)
  }

  /** Answers that handed the share's file over. */
  ghost function Deliveries(answers: seq<Answer>, id: Uuid): nat {
    if answers == [] then 0
    else
      var a := answers[|answers| - 1];
      Deliveries(answers[..|answers| - 1], id) + (if a.reply.Redeemed? && a.reply.shareId == id then 1 else 0)
  }

  /** Answers that used a slot up and still failed. */
  ghost function LostSlots(answers: seq<Answer>, id: Uuid): nat {
    if answers == [] then 0
    else
      var a := answers[|answers| - 1];
      LostSlots(answers[..|answers| - 1], id) + (if a.slot == Some(id) && a.reply.Failed? then 1 else 0)
  }

  lemma AnswerSnoc(answers: seq<Answer>, a: Answer, id: Uuid)
    ensures Slots(answers + [a], id) == Slots(answers, id) + (if a.slot == Some(id) then 1 else 0)
    ensures Deliveries(answers + [a], id)
         == Deliveries(answers, id) + (if a.reply.Redeemed? && a.reply.shareId == id then 1 else 0)
    ensures LostSlots(answers + [a], id)
         == LostSlots(answers, id) + (if a.slot == Some(id) && a.reply.Failed? then 1 else 0)
  {
    assert (answers + [a])[..|answers|] == answers;
  }

  lemma LineSnoc(es: seq<Event>, e: Event, id: Uuid)
    ensures RedeemLines(es + [e], id) == RedeemLines(es, id) + (if IsRedeemLine(e, id) then 1 else 0)
  {
    hide IsRedeemLine;
    assert (es + [e])[..|es|] == es;
  }

  /** The limit each share of the run was created with. */
  ghost function Issued(ops: seq<Op>): map<Uuid, nat> {
    if ops == [] then map[]
    else
      var before, op := Issued(ops[..|ops| - 1]), ops[|ops| - 1];
      if op.CreateShare? then before[op.draw.shareId := op.share.maxDownloads] else before
  }

  /** Share ids are UUIDv7 values: no two creations of a run draw the same one. */
  ghost predicate FreshShares(ops: seq<Op>) {
    forall i, j | 0 <= i < j < |ops| && ops[i].CreateShare? && ops[j].CreateShare? ::
      ops[i].draw.shareId != ops[j].draw.shareId
  }

  // ----- what one operation does to the shares ----------------------------------------

  /** The operation's effect on the share table and what its line claims, op by op. */
  ghost predicate ShareStep(ss: Shares, op: Op, m: Mid) {
    && (m.slot.Some? ==> op.RedeemShare?) && m.reply != Failed(AuditErr)
    && (match m.slot
        case Some(id) => id in ss && Consumable(ss[id], Millis(op.at.now))
          && m.db.shares == TryConsume(ss, id, Millis(op.at.now)).0
        case None =>
          || m.db.shares == ss
          || (op.CreateShare? && op.draw.shareId !in ss && op.draw.shareId in m.db.shares
              && var s := m.db.shares[op.draw.shareId];
                 && m.db.shares == ss[op.draw.shareId := s] && s.id == op.draw.shareId
                 && s.downloadCount == 0 && s.maxDownloads == op.share.maxDownloads && s.revokedAt.None?)
          || (op.RevokeShare? && op.id in ss && m.line.Some?
              && m.db.shares == ss[op.id := ss[op.id].(revokedAt := Some(Millis(op.at.now)))])
          || (op.PurgeShares? && forall id | id in m.db.shares :: id in ss && m.db.shares[id] == ss[id]))
    && (m.reply.Redeemed? ==> m.slot == Some(m.reply.shareId))
    && (m.slot.Some? ==> (if m.line.Some? then m.reply.Redeemed? else m.reply.Failed?))
    && (m.line.Some? ==> forall id ::
          && (IsRedeemLine(m.line.value, id) <==> m.slot == Some(id))
          && (IsRevokeLine(m.line.value, id) <==> op.RevokeShare? && op.id == id)
          && (IsRevokeLine(m.line.value, id) ==> id in m.db.shares && m.db.shares[id].revokedAt.Some?))
  }

  ghost predicate KeyedShares(ss: Shares) {
    forall id | id in ss :: ss[id].id == id
  }

  lemma TargetShare(s: Share)
    ensures Get(ShareTarget(s), "share_id") == Some(String(s.id))
  {
    var ms := ShareTarget(s).members;
    var rest := With("share_id", String(s.id), One("vendor_id", String(s.vendorId))).members;
    assert ms[1..] == rest && ms[0].name == "print_id" && rest[0] == Member("share_id", String(s.id));
    assert "print_id"[0] != "share_id"[0];
    assert Lookup(ms, "share_id") == Lookup(ms[1..], "share_id");
  }

  lemma EventNames()
    ensures "share.redeem" != "share.revoked"
    ensures "share.created" != "share.redeem" && "share.created" != "share.revoked"
    ensures "auth.login" != "share.redeem" && "auth.login" != "share.revoked"
    ensures "auth.logout" != "share.redeem" && "auth.logout" != "share.revoked"
  {
    assert "share.redeem"[8] != "share.revoked"[8];
    assert "share.created"[6] != "share.redeem"[6] && "share.created"[6] != "share.revoked"[6];
    assert "auth.login"[0] != "share.redeem"[0] && "auth.login"[0] != "share.revoked"[0];
    assert "auth.logout"[0] != "share.redeem"[0] && "auth.logout"[0] != "share.revoked"[0];
  }

  /** Delivery keeps the slot used, and its line is about the share delivered. */
  lemma DeliverStep(p: Provider, kek: Key, db: Db, s: Share, r: RedeemRequest, at: Moment)
    ensures var m := Deliver(p, kek, db, s, r, at);
      && m.slot == Some(s.id) && (if m.line.Some? then m.reply.Redeemed? else m.reply.Failed?)
      && (m.reply.Redeemed? ==> m.reply.shareId == s.id) && m.reply != Failed(AuditErr)
      && (m.line.Some? ==> forall id ::
            (IsRedeemLine(m.line.value, id) <==> id == s.id) && !IsRevokeLine(m.line.value, id))
  {
    EventNames();
    TargetShare(s);
    hide ReadBlob, RedeemedMeta, ShareTarget, Get;
  }

  lemma RefusalStep(db: Db, at: Moment, caller: Caller, target: Value, reason: string, e: ServiceError)
    ensures var m := Refusal(db, at, caller, target, reason, e);
      && m.slot == None && m.reply == Failed(e) && m.line.Some?
      && forall id :: !IsRedeemLine(m.line.value, id) && !IsRevokeLine(m.line.value, id)
  {
    EventNames();
    hide One, Get;
  }

  lemma RedeemFoundStep(p: Provider, kek: Key, db: Db, id: Uuid, r: RedeemRequest, at: Moment)
    requires id in db.shares && db.shares[id].id == id
    ensures ShareStep(db.shares, Op.RedeemShare(r, at), RedeemFound(p, kek, db, id, r, at))
  {
    hide Deliver, Refusal, IsRedeemLine, IsRevokeLine, One;
    var target := One("share_id", String(id));
    RefusalStep(db, at, r.caller, target, "bad_access_code", InvalidCredentials);
    RefusalStep(db, at, r.caller, target, "unavailable", ShareUnavailable);
    DeliverStep(p, kek, db.(shares := TryConsume(db.shares, id, Millis(at.now)).0), db.shares[id], r, at);
  }

  lemma RedeemShareStep(p: Provider, kek: Key, db: Db, r: RedeemRequest, at: Moment)
    requires KeyedShares(db.shares)
    ensures ShareStep(db.shares, Op.RedeemShare(r, at), RedeemStore(p, kek, db, r, at))
  {
    EventNames();
    var id := ShareByTokenHash(db.shares, p.sha(r.token));
    if id.Some? {
      RedeemFoundStep(p, kek, db, id.value, r, at);
    }
    hide RedeemFound, Get, ShortToken;
  }

  lemma CreateRowStep(p: Provider, db: Db, r: NewShareRequest, d: Draw, vendor: Vendor, at: Moment)
    ensures ShareStep(db.shares, Op.CreateShare(r, d, at), CreateRow(p, db, r, d, vendor, at))
  {
    hide Get, NatText, CreatedMeta, ShareTarget;
    EventNames();
  }

  lemma CreateShareStep(p: Provider, kek: Key, db: Db, r: NewShareRequest, d: Draw, at: Moment)
    ensures ShareStep(db.shares, Op.CreateShare(r, d, at), CreateStore(p, kek, db, r, d, at))
  {
    hide InsertPrint, PickVendor, CreateRow, NewUpload;
    var (vendors, vendor) := PickVendor(db.users, db.vendors, r, d, at);
    if vendor.Some? {
      var (db2, _) := InsertPrint(p, kek, db.(vendors := vendors), NewUpload(r, d, at.now), at.weather);
      CreateRowStep(p, db2, r, d, vendor.value, at);
    }
  }

  /** An operation that leaves the shares alone and writes no line about one. */
  lemma NoShareStep(ss: Shares, op: Op, m: Mid)
    requires m.db.shares == ss && m.slot.None? && !m.reply.Redeemed? && m.reply != Failed(AuditErr)
    requires !op.RevokeShare?
    requires m.line.Some? ==> m.line.value.event != "share.redeem" && m.line.value.event != "share.revoked"
    ensures ShareStep(ss, op, m)
  {
    hide Get;
  }

  lemma LoginUnrelated(p: Provider, db: Db, r: LoginRequest, token: string, csrf: Bytes, at: Moment)
    ensures var m := LoginStore(p, db, r, token, csrf, at);
      && m.slot.None? && !m.reply.Redeemed? && m.reply != Failed(AuditErr)
      && (m.line.Some? ==> m.line.value.event == "auth.login")
  {
    hide UserByEmail, PasswordFits, NewSession, One, SessionInsertable;
  }

  lemma LogoutUnrelated(p: Provider, db: Db, token: string, caller: Caller, at: Moment)
    ensures var m := LogoutStore(p, db, token, caller, at);
      && m.slot.None? && !m.reply.Redeemed? && m.reply != Failed(AuditErr)
      && (m.line.Some? ==> m.line.value.event == "auth.logout")
    ensures var m := AuthenticateStore(p, db, token, at);
      m.slot.None? && !m.reply.Redeemed? && m.reply != Failed(AuditErr) && m.line.None?
  {
    hide LookUp;
  }

  lemma SessionShareStep(p: Provider, kek: Key, db: Db, op: Op)
    requires op.Login? || op.Logout? || op.Authenticate?
    ensures ShareStep(db.shares, op, StorePart(p, kek, db, op))
  {
    hide ShareStep, LoginStore, LogoutStore, AuthenticateStore;
    EventNames();
    if op.Login? {
      LoginUnrelated(p, db, op.login, op.sessionToken, op.csrf, op.at);
    } else {
      LogoutUnrelated(p, db, op.token, if op.Logout? then op.caller else Caller("", ""), op.at);
    }
    NoShareStep(db.shares, op, StorePart(p, kek, db, op));
  }

  lemma RevokeShareStep(db: Db, id: Uuid, admin: Uuid, caller: Caller, at: Moment)
    ensures ShareStep(db.shares, Op.RevokeShare(id, admin, caller, at), RevokeStore(db, id, admin, caller, at))
  {
    EventNames();
    OneShare(id);
    hide Get, One;
  }

  lemma OneShare(id: Uuid)
    ensures Get(One("share_id", String(id)), "share_id") == Some(String(id))
  {
    assert One("share_id", String(id)).members[0] == Member("share_id", String(id));
  }

  lemma QuietShareStep(p: Provider, kek: Key, db: Db, op: Op)
    requires op.DeletePrint? || op.DisableVendor? || op.EndUserSessions? || op.PurgeShares? || op.PurgeSessions?
    ensures ShareStep(db.shares, op, StorePart(p, kek, db, op))
  {
    hide Tables.DeletePrint, Tables.DisableVendor, RevokeUserSessions, Tables.PurgeShares, Tables.PurgeSessions, Get;
    assert op.PurgeShares? ==> StorePart(p, kek, db, op) == PurgeSharesStore(db, op.graceSeconds, op.at);
  }

  lemma EveryShareStep(p: Provider, kek: Key, db: Db, op: Op)
    requires KeyedShares(db.shares)
    ensures ShareStep(db.shares, op, StorePart(p, kek, db, op))
  {
    hide ShareStep, LoginStore, LogoutStore, AuthenticateStore, CreateStore, RedeemStore, RevokeStore;
    match op
    case CreateShare(r, d, at) => CreateShareStep(p, kek, db, r, d, at);
    case RedeemShare(r, at) => RedeemShareStep(p, kek, db, r, at);
    case RevokeShare(id, admin, caller, at) => RevokeShareStep(db, id, admin, caller, at);
    case Login(_, _, _, _) => SessionShareStep(p, kek, db, op);
    case Logout(_, _, _) => SessionShareStep(p, kek, db, op);
    case Authenticate(_, _) => SessionShareStep(p, kek, db, op);
    case _ => QuietShareStep(p, kek, db, op);
  }

  // ----- the invariant ------------------------------------------------------------------

  ghost predicate RevokedInLog(es: seq<Event>, id: Uuid) {
    exists i :: 0 <= i < |es| && IsRevokeLine(es[i], id)
  }

  /** No redemption of the share is recorded after its revocation. */
  ghost predicate NoneAfterRevoked(es: seq<Event>, id: Uuid) {
    forall i, j | 0 <= i < j < |es| && IsRevokeLine(es[i], id) :: !IsRedeemLine(es[j], id)
  }

  function Limit(issued: map<Uuid, nat>, id: Uuid): nat {
    if id in issued then issued[id] else 0
  }

  /** The row, where there is one, agrees with what the answers and the log say. */
  ghost predicate RowAgrees(s: Share, es: seq<Event>, issued: map<Uuid, nat>, answers: seq<Answer>, id: Uuid) {
    && s.id == id && id in issued && s.maxDownloads == issued[id]
    && s.downloadCount == Slots(answers, id)
    && (RevokedInLog(es, id) ==> s.revokedAt.Some?)
  }

  ghost predicate InvFor(ss: Shares, es: seq<Event>, issued: map<Uuid, nat>, answers: seq<Answer>, id: Uuid) {
    && (id in ss ==> RowAgrees(ss[id], es, issued, answers, id))
    && RedeemLines(es, id) <= Slots(answers, id) == Deliveries(answers, id) + LostSlots(answers, id)
    && Slots(answers, id) <= Limit(issued, id)
    && (RevokedInLog(es, id) ==> id in issued)
    && NoneAfterRevoked(es, id)
  }

  ghost predicate Inv(ss: Shares, es: seq<Event>, issued: map<Uuid, nat>, answers: seq<Answer>) {
    forall id :: InvFor(ss, es, issued, answers, id)
  }

  lemma RevokedSnoc(es: seq<Event>, e: Event, id: Uuid)
    ensures RevokedInLog(es + [e], id) <==> RevokedInLog(es, id) || IsRevokeLine(e, id)
    ensures NoneAfterRevoked(es, id) && !(RevokedInLog(es, id) && IsRedeemLine(e, id))
      ==> NoneAfterRevoked(es + [e], id)
  {
    var all := es + [e];
    assert all[|es|] == e && forall i | 0 <= i < |es| :: all[i] == es[i];
    if i :| 0 <= i < |es| && IsRevokeLine(es[i], id) {
      assert IsRevokeLine(all[i], id);
    }
  }

  /** The line that landed says what the operation meant to say. */
  predicate SameMessage(line: Event, meant: Event) {
    line.event == meant.event && line.target == meant.target && line.outcome == meant.outcome
  }

  /** The same step without its line: what the table and the answer do to the invariant of one share. */
  lemma TableKeepsInv(ss: Shares, es: seq<Event>, issued: map<Uuid, nat>, answers: seq<Answer>,
                      op: Op, m: Mid, a: Answer, id: Uuid)
    requires InvFor(ss, es, issued, answers, id) && ShareStep(ss, op, m)
    requires op.CreateShare? ==> op.draw.shareId !in issued
    requires a.slot == m.slot && (a.reply == m.reply || a.reply.Failed?)
    ensures var issued' := if op.CreateShare? then issued[op.draw.shareId := op.share.maxDownloads] else issued;
      InvFor(m.db.shares, es, issued', answers + [a], id)
  {
    hide IsRedeemLine, IsRevokeLine, RedeemLines, RevokedInLog, NoneAfterRevoked, Slots, Deliveries, LostSlots;
    AnswerSnoc(answers, a, id);
  }

  lemma LineKeepsInv(before: Shares, es: seq<Event>, issued: map<Uuid, nat>, issued': map<Uuid, nat>,
                     answers: seq<Answer>, op: Op, m: Mid, a: Answer, line: Event, id: Uuid)
    requires InvFor(before, es, issued, answers, id) && ShareStep(before, op, m) && m.line.Some?
    requires InvFor(m.db.shares, es, issued', answers + [a], id) && a.slot == m.slot
    requires SameMessage(line, m.line.value)
    ensures InvFor(m.db.shares, es + [line], issued', answers + [a], id)
  {
    hide RedeemLines, RevokedInLog, NoneAfterRevoked, Slots, Deliveries, LostSlots, Get;
    AnswerSnoc(answers, a, id);
    LineSnoc(es, line, id);
    RevokedSnoc(es, line, id);
    assert IsRedeemLine(line, id) ==> m.slot == Some(id);
    assert IsRevokeLine(line, id) ==>
      op.RevokeShare? && op.id == id && id in m.db.shares && m.db.shares[id].revokedAt.Some?;
  }

  lemma {:induction false} NotIssued(ops: seq<Op>, id: Uuid)
    requires forall i | 0 <= i < |ops| && ops[i].CreateShare? :: ops[i].draw.shareId != id
    ensures id !in Issued(ops)
  {
    if ops != [] {
      NotIssued(ops[..|ops| - 1], id);
    }
  }

  lemma FreshSnoc(init: seq<Op>, op: Op)
    requires FreshShares(init + [op])
    ensures FreshShares(init) && (op.CreateShare? ==> op.draw.shareId !in Issued(init))
  {
    var all := init + [op];
    assert all[|init|] == op && forall i | 0 <= i < |init| :: all[i] == init[i];
    if op.CreateShare? {
      NotIssued(init, op.draw.shareId);
    }
  }

  lemma InvKeyed(ss: Shares, es: seq<Event>, issued: map<Uuid, nat>, answers: seq<Answer>)
    requires Inv(ss, es, issued, answers)
    ensures KeyedShares(ss)
  {
    forall id | id in ss ensures ss[id].id == id {
      assert InvFor(ss, es, issued, answers, id);
    }
  }

  lemma ApplyKeepsInv(p: Provider, kek: Key, w: World, op: Op, issued: map<Uuid, nat>, answers: seq<Answer>)
    requires Inv(w.db.shares, w.log.events, issued, answers)
    requires op.CreateShare? ==> op.draw.shareId !in issued
    ensures var (w', a) := Apply(p, kek, w, op);
      var issued' := if op.CreateShare? then issued[op.draw.shareId := op.share.maxDownloads] else issued;
      Inv(w'.db.shares, w'.log.events, issued', answers + [a])
  {
    hide StorePart, ShareStep, InvFor;
    InvKeyed(w.db.shares, w.log.events, issued, answers);
    EveryShareStep(p, kek, w.db, op);
    var m := StorePart(p, kek, w.db, op);
    var (w', a) := Apply(p, kek, w, op);
    var issued' := if op.CreateShare? then issued[op.draw.shareId := op.share.maxDownloads] else issued;
    forall id ensures InvFor(w'.db.shares, w'.log.events, issued', answers + [a], id) {
      assert InvFor(w.db.shares, w.log.events, issued, answers, id);
      TableKeepsInv(w.db.shares, w.log.events, issued, answers, op, m, a, id);
      if m.line.Some? && Lands(op.at.write) {
        var line := AuditLog.Seal(p.sha, m.line.value, w.log.prev);
        LineKeepsInv(w.db.shares, w.log.events, issued, issued', answers, op, m, a, line, id);
      }
    }
  }

  lemma {:induction false} RunKeepsInv(p: Provider, kek: Key, w: World, ops: seq<Op>)
    requires w.db.shares == map[] && w.log.events == [] && FreshShares(ops)
    ensures var (w', answers) := Run(p, kek, w, ops); Inv(w'.db.shares, w'.log.events, Issued(ops), answers)
    decreases |ops|
  {
    if ops == [] {
      hide Apply;
    } else {
      hide Run, Apply, Inv, FreshShares;
      var init, op := ops[..|ops| - 1], ops[|ops| - 1];
      SplitLast(ops);
      FreshSnoc(init, op);
      RunKeepsInv(p, kek, w, init);
      var (w', answers) := Run(p, kek, w, init);
      RunSnoc(p, kek, w, init, op);
      ApplyKeepsInv(p, kek, w', op, Issued(init), answers);
    }
  }

  // ----- what is on the log, exactly ----------------------------------------------------------

  /** The slot used is on the log: handed over, or an error only in that syncing the line failed. */
  predicate SlotOnLog(op: Op, a: Answer, id: Uuid) {
    a.slot == Some(id) && (a.reply.Redeemed? || (a.reply == Failed(AuditErr) && op.at.write.SyncFails?))
  }

  ghost function SlotsOnLog(ops: seq<Op>, answers: seq<Answer>, id: Uuid): nat
    requires |ops| == |answers|
  {
    if ops == [] then 0
    else
      var n := |ops| - 1;
      SlotsOnLog(ops[..n], answers[..n], id) + (if SlotOnLog(ops[n], answers[n], id) then 1 else 0)
  }

  /** A revocation that answered an error because its line could not be appended. */
  predicate LosesRevocation(op: Op, a: Answer, id: Uuid) {
    op.RevokeShare? && op.id == id && a.reply == Failed(AuditErr) && !Lands(op.at.write)
  }

  ghost predicate RevocationLost(ops: seq<Op>, answers: seq<Answer>, id: Uuid)
    requires |ops| == |answers|
  {
    exists k :: 0 <= k < |ops| && LosesRevocation(ops[k], answers[k], id)
  }

  /** The lines are the slots on the log; the stamp is there if a revocation is on the log or was lost. */
  ghost predicate ExactFor(ss: Shares, es: seq<Event>, ops: seq<Op>, answers: seq<Answer>, id: Uuid)
    requires |ops| == |answers|
  {
    && Deliveries(answers, id) <= RedeemLines(es, id) == SlotsOnLog(ops, answers, id)
    && (RevocationLost(ops, answers, id) ==> id in Issued(ops))
    && (id in ss ==> (ss[id].revokedAt.Some? <==> RevokedInLog(es, id) || RevocationLost(ops, answers, id)))
  }

  lemma ExactSnoc(ops: seq<Op>, answers: seq<Answer>, op: Op, a: Answer, id: Uuid)
    requires |ops| == |answers|
    ensures SlotsOnLog(ops + [op], answers + [a], id)
         == SlotsOnLog(ops, answers, id) + (if SlotOnLog(op, a, id) then 1 else 0)
    ensures RevocationLost(ops + [op], answers + [a], id)
       <==> RevocationLost(ops, answers, id) || LosesRevocation(op, a, id)
    ensures Issued(ops + [op])
         == if op.CreateShare? then Issued(ops)[op.draw.shareId := op.share.maxDownloads] else Issued(ops)
  {
    hide SlotOnLog, LosesRevocation;
    var ops', answers' := ops + [op], answers + [a];
    assert ops'[..|ops|] == ops && answers'[..|ops|] == answers && ops'[|ops|] == op && answers'[|ops|] == a;
    if k :| 0 <= k < |ops| && LosesRevocation(ops[k], answers[k], id) {
      assert LosesRevocation(ops'[k], answers'[k], id);
    }
  }

  /** The line an operation adds, and what of it is about one share. */
  ghost predicate Logs(es: seq<Event>, es': seq<Event>, m: Mid, fault: WriteFault, id: Uuid) {
    var landed := m.line.Some? && Lands(fault);
    && RedeemLines(es', id) == RedeemLines(es, id) + (if landed && IsRedeemLine(m.line.value, id) then 1 else 0)
    && (RevokedInLog(es', id) <==> RevokedInLog(es, id) || (landed && IsRevokeLine(m.line.value, id)))
  }

  lemma StepExact(ss: Shares, es: seq<Event>, es': seq<Event>, ops: seq<Op>, answers: seq<Answer>,
                  op: Op, m: Mid, a: Answer, id: Uuid)
    requires |ops| == |answers| && ExactFor(ss, es, ops, answers, id) && InvFor(ss, es, Issued(ops), answers, id)
    requires ShareStep(ss, op, m) && Logs(es, es', m, op.at.write, id)
    requires op.CreateShare? ==> op.draw.shareId !in Issued(ops)
    requires a.slot == m.slot && a.reply == if m.line.None? || op.at.write.NoFault? then m.reply else Failed(AuditErr)
    ensures ExactFor(m.db.shares, es', ops + [op], answers + [a], id)
  {
    hide IsRedeemLine, IsRevokeLine, RedeemLines, RevokedInLog, RevocationLost, NoneAfterRevoked, Slots, Deliveries,
         LostSlots, SlotsOnLog, Issued;
    AnswerSnoc(answers, a, id);
    ExactSnoc(ops, answers, op, a, id);
  }

  /** A line that lands tells of the share what it was meant to. */
  lemma ApplyLogs(p: Provider, kek: Key, w: World, op: Op, id: Uuid)
    ensures Logs(w.log.events, Apply(p, kek, w, op).0.log.events, StorePart(p, kek, w.db, op), op.at.write, id)
  {
    hide StorePart, RedeemLines, RevokedInLog, NoneAfterRevoked, Get, HashOf;
    var m := StorePart(p, kek, w.db, op);
    if m.line.Some? && Lands(op.at.write) {
      var line := AuditLog.Seal(p.sha, m.line.value, w.log.prev);
      LineSnoc(w.log.events, line, id);
      RevokedSnoc(w.log.events, line, id);
    }
  }

  lemma ApplyExact(p: Provider, kek: Key, w: World, ops: seq<Op>, answers: seq<Answer>, op: Op, id: Uuid)
    requires |ops| == |answers| && ExactFor(w.db.shares, w.log.events, ops, answers, id)
    requires Inv(w.db.shares, w.log.events, Issued(ops), answers)
    requires op.CreateShare? ==> op.draw.shareId !in Issued(ops)
    ensures var (w', a) := Apply(p, kek, w, op);
      ExactFor(w'.db.shares, w'.log.events, ops + [op], answers + [a], id)
  {
    hide Apply, StorePart, ExactFor, InvFor, ShareStep, Logs, Issued;
    InvKeyed(w.db.shares, w.log.events, Issued(ops), answers);
    EveryShareStep(p, kek, w.db, op);
    ApplyLogs(p, kek, w, op, id);
    AnswerOf(p, kek, w, op);
    var (w', a) := Apply(p, kek, w, op);
    assert InvFor(w.db.shares, w.log.events, Issued(ops), answers, id);
    StepExact(w.db.shares, w.log.events, w'.log.events, ops, answers, op, StorePart(p, kek, w.db, op), a, id);
  }

  lemma {:induction false} RunExact(p: Provider, kek: Key, w: World, ops: seq<Op>, id: Uuid)
    requires w.db.shares == map[] && w.log.events == [] && FreshShares(ops)
    ensures var (w', answers) := Run(p, kek, w, ops);
      |answers| == |ops| && ExactFor(w'.db.shares, w'.log.events, ops, answers, id)
    decreases |ops|
  {
    if ops == [] {
      hide Apply;
    } else {
      hide *;
      var init, op := ops[..|ops| - 1], ops[|ops| - 1];
      SplitLast(ops);
      FreshSnoc(init, op);
      RunExact(p, kek, w, init, id);
      RunKeepsInv(p, kek, w, init);
      var (v, answers) := Run(p, kek, w, init);
      RunSnoc(p, kek, w, init, op);
      ApplyExact(p, kek, v, init, answers, op, id);
    }
  }

  /**
   Whole-run share safety. After any run of operations with any failures, for every share: the Success
   redemption lines number exactly the slots used whose answer was the file, or an error only in that the
   line was not synced; so at least the deliveries and at most the slots used, which are the deliveries
   plus the error exits taken after a slot was consumed. Those never exceed the limit the share was issued
   with, even once its row is purged; where the row exists its download count is exactly that number. No
   redemption is recorded after the share's revocation, and the row is stamped as revoked exactly where a
   revocation is recorded or answered an error because its line was lost.
   */
  lemma RunSafety(p: Provider, kek: Key, w: World, ops: seq<Op>, id: Uuid)
    requires w.db.shares == map[] && w.log.events == [] && FreshShares(ops)
    ensures var (w', answers) := Run(p, kek, w, ops);
      var es, used := w'.log.events, Deliveries(answers, id) + LostSlots(answers, id);
      && |answers| == |ops|
      && Deliveries(answers, id) <= RedeemLines(es, id) == SlotsOnLog(ops, answers, id) <= used
      && used <= Limit(Issued(ops), id)
      && (id in w'.db.shares ==>
            var s := w'.db.shares[id];
            && s.downloadCount == used && used <= s.maxDownloads
            && (s.revokedAt.Some? <==> RevokedInLog(es, id) || RevocationLost(ops, answers, id)))
      && NoneAfterRevoked(es, id)
  {
    hide Run, RedeemLines, Deliveries, Slots, LostSlots, SlotsOnLog, RevokedInLog, RevocationLost, NoneAfterRevoked,
         Issued, FreshShares;
    RunKeepsInv(p, kek, w, ops);
    RunExact(p, kek, w, ops, id);
    var (w', answers) := Run(p, kek, w, ops);
    assert InvFor(w'.db.shares, w'.log.events, Issued(ops), answers, id);
  }
}
