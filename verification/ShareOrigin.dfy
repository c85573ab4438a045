/**
 Where a share's row comes from, and what its link is worth: in every reachable state a row is the one its
 request asked for, and the token and code handed out with it open exactly the file uploaded, for as long
 and as often as was asked.
 */
module ShareOrigin {
  import opened Basics
  import opened AuditLog
  import opened Clock
  import opened Crypto
  import opened Requests
  import opened Tables
  import opened Service
  import opened ShareSafety
  import opened StoreIntegrity
  import opened Lookups

  /** The row, its vendor and its print are as the request and the draw had them. */
  ghost predicate FromRequest(p: Provider, db: Db, s: Share, op: Op)
    requires op.CreateShare?
  {
    var r, d := op.share, op.draw;
    && s.id == d.shareId && s.printId == d.printId
    && s.tokenHash == p.sha(d.urlToken) && s.codeHash == p.sha(d.accessCode)
    && s.expiresAt == Millis(op.at.now + r.expiresInHours * 3600 * NANOS_PER_SECOND)
    && s.maxDownloads == r.maxDownloads && s.note == r.note && s.createdBy == r.createdBy
    && s.vendorId in db.vendors && db.vendors[s.vendorId].email == r.vendorEmail
    && s.printId in db.prints && PrintFromRequest(p, db.prints[s.printId], r)
  }

  predicate PrintFromRequest(p: Provider, row: Print, r: NewShareRequest) {
    && row.filename == r.printFilename && row.size == |r.printBytes| && row.sha == p.shaBytes(r.printBytes)
    && row.uploadedBy == r.createdBy && row.attested == r.cuiAttested
  }

  ghost predicate HasOrigin(p: Provider, db: Db, ops: seq<Op>, id: Uuid)
    requires id in db.shares
  {
    exists i :: 0 <= i < |ops| && ops[i].CreateShare? && ops[i].draw.shareId == id
      && FromRequest(p, db, db.shares[id], ops[i])
  }

  ghost predicate Origins(p: Provider, db: Db, ops: seq<Op>) {
    (forall id | id in db.shares :: HasOrigin(p, db, ops, id)) && KeyedVendors(db)
  }

  // ----- what no operation changes ------------------------------------------------------

  /** Nothing of the share but its count and its revocation, no vendor's address, and not its print. */
  ghost predicate RowKept(db: Db, db': Db, id: Uuid)
    requires id in db'.shares
  {
    && id in db.shares
    && db'.shares[id] == db.shares[id].(downloadCount := db'.shares[id].downloadCount,
                                        revokedAt := db'.shares[id].revokedAt)
    && (forall v | v in db.vendors :: v in db'.vendors && db'.vendors[v].email == db.vendors[v].email)
    && (db.shares[id].printId in db.prints ==>
          db.shares[id].printId in db'.prints && db'.prints[db.shares[id].printId] == db.prints[db.shares[id].printId])
  }

  lemma KeptOrigin(p: Provider, db: Db, db': Db, ops: seq<Op>, op: Op, id: Uuid)
    requires id in db'.shares && RowKept(db, db', id) && HasOrigin(p, db, ops, id)
    ensures HasOrigin(p, db', ops + [op], id)
  {
    var i :| 0 <= i < |ops| && ops[i].CreateShare? && ops[i].draw.shareId == id
      && FromRequest(p, db, db.shares[id], ops[i]);
    assert (ops + [op])[i] == ops[i];
    assert FromRequest(p, db', db'.shares[id], ops[i]);
  }

  lemma DeleteKeeps(db: Db, del: Uuid, at: Moment, id: Uuid)
    requires id in DeleteStore(db, del, at).db.shares
    ensures RowKept(db, DeleteStore(db, del, at).db, id)
  {
  }

  lemma DisabledAddresses(vs: Vendors, id: Uuid, nowMs: int)
    ensures var r := Tables.DisableVendor(vs, id, nowMs);
      r.Ok? ==> forall v | v in vs :: v in r.value && r.value[v].email == vs[v].email
  {
  }

  lemma DisableKeeps(db: Db, v: Uuid, at: Moment, id: Uuid)
    requires id in DisableStore(db, v, at).db.shares
    ensures RowKept(db, DisableStore(db, v, at).db, id)
  {
    hide Tables.DisableVendor;
    DisabledAddresses(db.vendors, v, Millis(at.now));
  }

  /** Only the sessions and the counts and stamps of shares change. */
  lemma SharesKept(db: Db, db': Db, id: Uuid)
    requires db' == db.(shares := db'.shares, sessions := db'.sessions)
    requires id in db'.shares && id in db.shares
    requires db'.shares[id] == db.shares[id].(downloadCount := db'.shares[id].downloadCount,
                                              revokedAt := db'.shares[id].revokedAt)
    ensures RowKept(db, db', id)
  {
  }

  lemma ConsumeKeeps(ss: Shares, target: Uuid, nowMs: int, id: Uuid)
    requires id in TryConsume(ss, target, nowMs).0
    ensures var ss' := TryConsume(ss, target, nowMs).0;
      id in ss && ss'[id] == ss[id].(downloadCount := ss'[id].downloadCount)
  {
  }

  lemma RedeemKeeps(p: Provider, kek: Key, db: Db, r: RedeemRequest, at: Moment, id: Uuid)
    requires id in RedeemStore(p, kek, db, r, at).db.shares
    ensures RowKept(db, RedeemStore(p, kek, db, r, at).db, id)
  {
    hide RedeemStore, TryConsume, RowKept;
    var db' := RedeemStore(p, kek, db, r, at).db;
    var target := ShareByTokenHash(db.shares, p.sha(r.token));
    if db'.shares != db.shares {
      ConsumeKeeps(db.shares, target.value, Millis(at.now), id);
    }
    SharesKept(db, db', id);
  }

  lemma RevokeKeeps(db: Db, share: Uuid, admin: Uuid, caller: Caller, at: Moment, id: Uuid)
    requires id in RevokeStore(db, share, admin, caller, at).db.shares
    ensures RowKept(db, RevokeStore(db, share, admin, caller, at).db, id)
  {
    hide RevokeStore, RowKept;
    SharesKept(db, RevokeStore(db, share, admin, caller, at).db, id);
  }

  /** Every operation but a creation keeps every row that stays. */
  lemma QuietKeeps(p: Provider, kek: Key, db: Db, op: Op, id: Uuid)
    requires !op.CreateShare? && id in StorePart(p, kek, db, op).db.shares
    ensures RowKept(db, StorePart(p, kek, db, op).db, id)
  {
    hide RowKept, LoginStore, LogoutStore, AuthenticateStore, RedeemStore, RevokeStore, EndSessionsStore,
         PurgeSharesStore, PurgeSessionsStore, DeleteStore, DisableStore;
    match op
    case DeletePrint(del, at) => DeleteKeeps(db, del, at, id);
    case DisableVendor(v, at) => DisableKeeps(db, v, at, id);
    case RedeemShare(r, at) => RedeemKeeps(p, kek, db, r, at, id);
    case RevokeShare(share, admin, caller, at) => RevokeKeeps(db, share, admin, caller, at, id);
    case _ => SharesKept(db, StorePart(p, kek, db, op).db, id);
  }

  // ----- a creation -----------------------------------------------------------------------

  lemma PickKeeps(db: Db, r: NewShareRequest, d: Draw, at: Moment)
    requires KeyedVendors(db)
    ensures var (vendors, vendor) := PickVendor(db.users, db.vendors, r, d, at);
      && KeyedVendors(db.(vendors := vendors))
      && (forall v | v in db.vendors :: v in vendors && vendors[v] == db.vendors[v])
      && (vendor.Some? ==> vendor.value.id in vendors && vendors[vendor.value.id].email == r.vendorEmail)
  {
    var known := VendorByEmail(db.vendors, r.vendorEmail);
    assert known.Some? ==> IsActiveVendor(db.vendors, known.value, r.vendorEmail);
  }

  /** An upload changes no row that is there; its own row is the request's. */
  lemma InsertKeeps(p: Provider, kek: Key, db: Db, r: NewShareRequest, d: Draw, at: Moment)
    ensures var (db', row) := InsertPrint(p, kek, db, NewUpload(r, d, at.now), at.weather);
      && (forall id | id in db.prints :: id in db'.prints && db'.prints[id] == db.prints[id])
      && (row.Ok? ==> d.printId in db'.prints && PrintFromRequest(p, db'.prints[d.printId], r))
  {
    hide Leave, InsertLeaves, Wrapped, BlobPath, Crypto.Seal;
  }

  lemma RowAdded(p: Provider, db: Db, r: NewShareRequest, d: Draw, vendor: Vendor, at: Moment)
    ensures var db' := CreateRow(p, db, r, d, vendor, at).db;
      && db' == db.(shares := db'.shares)
      && (forall id | id in db'.shares && id != d.shareId :: id in db.shares && db'.shares[id] == db.shares[id])
      && (forall id | id in db.shares :: id in db'.shares && db'.shares[id] == db.shares[id])
      && (d.shareId in db'.shares && d.shareId !in db.shares ==>
            db'.shares[d.shareId] == NewShare(p, r, d, vendor.id, at.now) && d.printId in db.prints)
  {
    hide ShareTarget, CreatedMeta, Line;
  }

  /** What a creation leaves alone. */
  lemma CreateAdds(p: Provider, kek: Key, db: Db, r: NewShareRequest, d: Draw, at: Moment)
    requires KeyedVendors(db)
    ensures var db' := CreateStore(p, kek, db, r, d, at).db;
      && KeyedVendors(db')
      && (forall v | v in db.vendors :: v in db'.vendors && db'.vendors[v] == db.vendors[v])
      && (forall f | f in db.prints :: f in db'.prints && db'.prints[f] == db.prints[f])
      && (forall id | id in db.shares :: id in db'.shares && db'.shares[id] == db.shares[id])
      && (forall id | id in db'.shares :: id in db.shares || id == d.shareId)
  {
    PickKeeps(db, r, d, at);
    CreateParts(p, kek, db, r, d, at);
    var (vendors, vendor) := PickVendor(db.users, db.vendors, r, d, at);
    var db1 := db.(vendors := vendors);
    InsertKeeps(p, kek, db1, r, d, at);
    var (db2, row) := InsertPrint(p, kek, db1, NewUpload(r, d, at.now), at.weather);
    hide CreateStore, PickVendor, InsertPrint, CreateRow, PrintFromRequest, NewShare, NewUpload;
    if vendor.Some? && row.Ok? {
      RowAdded(p, db2, r, d, vendor.value, at);
    }
  }

  lemma NewShareRequested(p: Provider, db: Db, r: NewShareRequest, d: Draw, vendorId: Uuid, at: Moment)
    requires vendorId in db.vendors && db.vendors[vendorId].email == r.vendorEmail
    requires d.printId in db.prints && PrintFromRequest(p, db.prints[d.printId], r)
    ensures FromRequest(p, db, NewShare(p, r, d, vendorId, at.now), Op.CreateShare(r, d, at))
  {
    hide PrintFromRequest;
  }

  /** What it adds. */
  lemma CreateRequested(p: Provider, kek: Key, db: Db, r: NewShareRequest, d: Draw, at: Moment)
    requires KeyedVendors(db)
    ensures var db' := CreateStore(p, kek, db, r, d, at).db;
      d.shareId in db'.shares && d.shareId !in db.shares ==>
        FromRequest(p, db', db'.shares[d.shareId], Op.CreateShare(r, d, at))
  {
    PickKeeps(db, r, d, at);
    CreateParts(p, kek, db, r, d, at);
    var (vendors, vendor) := PickVendor(db.users, db.vendors, r, d, at);
    var db1 := db.(vendors := vendors);
    InsertKeeps(p, kek, db1, r, d, at);
    var (db2, row) := InsertPrint(p, kek, db1, NewUpload(r, d, at.now), at.weather);
    hide CreateStore, PickVendor, InsertPrint, CreateRow, PrintFromRequest, KeyedVendors, FromRequest, NewShare,
         NewUpload;
    if vendor.Some? && row.Ok? {
      RowAdded(p, db2, r, d, vendor.value, at);
      var db3 := CreateRow(p, db2, r, d, vendor.value, at).db;
      if d.shareId in db3.shares && d.shareId !in db.shares {
        NewShareRequested(p, db3, r, d, vendor.value.id, at);
      }
    }
  }

  lemma StepOrigins(p: Provider, kek: Key, db: Db, ops: seq<Op>, op: Op)
    requires Origins(p, db, ops)
    ensures Origins(p, StorePart(p, kek, db, op).db, ops + [op])
  {
    hide FromRequest, HasOrigin, StorePart, KeyedVendors;
    var db' := StorePart(p, kek, db, op).db;
    if op.CreateShare? {
      CreateOrigins(p, kek, db, ops, op);
    } else {
      VendorsKeyed(p, kek, db, op);
      forall id | id in db'.shares ensures HasOrigin(p, db', ops + [op], id) {
        QuietKeeps(p, kek, db, op, id);
        KeptOrigin(p, db, db', ops, op, id);
      }
    }
  }

  lemma CreateOrigins(p: Provider, kek: Key, db: Db, ops: seq<Op>, op: Op)
    requires Origins(p, db, ops) && op.CreateShare?
    ensures Origins(p, StorePart(p, kek, db, op).db, ops + [op])
  {
    var db' := StorePart(p, kek, db, op).db;
    CreateAdds(p, kek, db, op.share, op.draw, op.at);
    CreateRequested(p, kek, db, op.share, op.draw, op.at);
    hide CreateStore, KeyedVendors, FromRequest, HasOrigin;
    forall id | id in db'.shares ensures HasOrigin(p, db', ops + [op], id) {
      if id in db.shares {
        KeptOrigin(p, db, db', ops, op, id);
      } else {
        NewOrigin(p, db', ops, op);
      }
    }
  }

  lemma NewOrigin(p: Provider, db: Db, ops: seq<Op>, op: Op)
    requires op.CreateShare? && op.draw.shareId in db.shares && FromRequest(p, db, db.shares[op.draw.shareId], op)
    ensures HasOrigin(p, db, ops + [op], op.draw.shareId)
  {
    assert (ops + [op])[|ops|] == op;
  }

  lemma VendorsKeyed(p: Provider, kek: Key, db: Db, op: Op)
    requires !op.CreateShare? && KeyedVendors(db)
    ensures KeyedVendors(StorePart(p, kek, db, op).db)
  {
    hide LoginStore, LogoutStore, AuthenticateStore, RedeemStore, RevokeStore, EndSessionsStore, PurgeSharesStore,
         PurgeSessionsStore;
  }

  lemma {:induction false} RunOrigins(p: Provider, kek: Key, w: World, ops: seq<Op>)
    requires w.db.vendors == map[] && w.db.shares == map[]
    ensures Origins(p, Run(p, kek, w, ops).0.db, ops)
    decreases |ops|
  {
    if ops == [] {
      hide Apply;
    } else {
      hide Origins, StorePart;
      var init, op := ops[..|ops| - 1], ops[|ops| - 1];
      RunOrigins(p, kek, w, init);
      StepOrigins(p, kek, Run(p, kek, w, init).0.db, init, op);
      SplitLast(ops);
    }
  }

  /** The store half of a creation has a line to write and an id to answer exactly when it has stored the share. */
  lemma StoredWithLine(p: Provider, kek: Key, db: Db, r: NewShareRequest, d: Draw, at: Moment)
    ensures var m := CreateStore(p, kek, db, r, d, at);
      && (m.reply.Created? <==> d.shareId in m.db.shares && d.shareId !in db.shares)
      && (m.reply.Created? <==> m.line.Some?)
      && (m.reply.Created? ==> m.reply.shareId == d.shareId && m.reply.urlToken == d.urlToken
                               && m.reply.accessCode == d.accessCode)
      && (!m.reply.Created? ==> m.reply.Failed? && m.db.shares == db.shares)
  {
    hide PickVendor, InsertPrint, CreatedMeta, ShareTarget, Line, NewUpload;
  }

  ghost predicate Stored(before: Db, after: Db, id: Uuid) {
    id in after.shares && id !in before.shares
  }

  lemma CreateIs(p: Provider, kek: Key, db: Db, r: NewShareRequest, d: Draw, at: Moment)
    ensures StorePart(p, kek, db, Op.CreateShare(r, d, at)) == CreateStore(p, kek, db, r, d, at)
  {
    hide CreateStore;
  }

  /**
   A creation answers with its id and secrets if and only if it has stored the share and the line of it was
   written. It is not all or nothing: where the row is stored and the write of its line reports a failure, the
   caller gets that error for a share that stays. Where nothing was stored the shares are as they were.
   */
  lemma CreatedExactly(p: Provider, kek: Key, w: World, r: NewShareRequest, d: Draw, at: Moment)
    ensures var (w', a) := Apply(p, kek, w, Op.CreateShare(r, d, at));
      && (a.reply.Created? <==> Stored(w.db, w'.db, d.shareId) && at.write == NoFault)
      && (a.reply.Created? ==> a.reply.shareId == d.shareId && a.reply.urlToken == d.urlToken
                               && a.reply.accessCode == d.accessCode)
      && (!a.reply.Created? ==> a.reply.Failed?)
      && (Stored(w.db, w'.db, d.shareId) && at.write != NoFault ==> a.reply == Failed(AuditErr))
      && (!Stored(w.db, w'.db, d.shareId) ==> w'.db.shares == w.db.shares)
  {
    hide Apply, StorePart, CreateStore;
    CreateIs(p, kek, w.db, r, d, at);
    StoredWithLine(p, kek, w.db, r, d, at);
    AnswerOf(p, kek, w, Op.CreateShare(r, d, at));
  }

  /** No call of the store half fails, and everything is drawn new; the hours asked for stay within the calendar. */
  ghost predicate Creatable(p: Provider, db: Db, r: NewShareRequest, d: Draw, at: Moment) {
    && KeyedVendors(db) && at.weather.failing == NoCall && r.createdBy in db.users
    && d.vendorId !in db.vendors && d.printId !in db.prints && d.shareId !in db.shares
    && (forall id | id in db.shares :: db.shares[id].tokenHash != p.sha(d.urlToken))
    && Representable(at.now + r.expiresInHours * 3600 * NANOS_PER_SECOND)
  }

  /** Then the share is stored, for a vendor with the address asked for, and the reply depends on the line alone. */
  lemma CreationSucceeds(p: Provider, kek: Key, w: World, r: NewShareRequest, d: Draw, at: Moment)
    requires Creatable(p, w.db, r, d, at)
    ensures var (w', a) := Apply(p, kek, w, Op.CreateShare(r, d, at));
      && Stored(w.db, w'.db, d.shareId)
      && w'.db.shares[d.shareId].vendorId in w'.db.vendors
      && w'.db.vendors[w'.db.shares[d.shareId].vendorId].email == r.vendorEmail
      && (if at.write == NoFault then a.reply.Created? else a.reply == Failed(AuditErr))
  {
    hide Apply, StorePart, CreateStore, PrintFromRequest;
    CreateIs(p, kek, w.db, r, d, at);
    CreationStores(p, kek, w.db, r, d, at);
    StoredWithLine(p, kek, w.db, r, d, at);
    CreateRequested(p, kek, w.db, r, d, at);
    AnswerOf(p, kek, w, Op.CreateShare(r, d, at));
  }

  /** So a failed write of the line leaves a share that can be redeemed, and that nobody was told of. */
  lemma UnrecordedShareStays(p: Provider, kek: Key, w: World, r: NewShareRequest, d: Draw, at: Moment, nowMs: int)
    requires Creatable(p, w.db, r, d, at) && at.write != NoFault
    ensures var (w', a) := Apply(p, kek, w, Op.CreateShare(r, d, at));
      && a.reply == Failed(AuditErr) && d.shareId in w'.db.shares
      && (Consumable(w'.db.shares[d.shareId], nowMs)
          <==> nowMs < Millis(at.now + r.expiresInHours * 3600 * NANOS_PER_SECOND) && r.maxDownloads > 0)
  {
    hide Apply, StorePart, CreateStore, Millis;
    CreateIs(p, kek, w.db, r, d, at);
    CreationSucceeds(p, kek, w, r, d, at);
    StoredFresh(p, kek, w.db, r, d, at);
    AnswerOf(p, kek, w, Op.CreateShare(r, d, at));
  }

  lemma StoredFresh(p: Provider, kek: Key, db: Db, r: NewShareRequest, d: Draw, at: Moment)
    ensures var db' := CreateStore(p, kek, db, r, d, at).db;
      Stored(db, db', d.shareId) ==>
        var s := db'.shares[d.shareId];
        && s.revokedAt.None? && s.downloadCount == 0 && s.maxDownloads == r.maxDownloads
        && s.expiresAt == Millis(at.now + r.expiresInHours * 3600 * NANOS_PER_SECOND)
  {
    hide CreateStore, PickVendor, InsertPrint, CreateRow, NewUpload, Millis;
    CreateParts(p, kek, db, r, d, at);
    var (vendors, vendor) := PickVendor(db.users, db.vendors, r, d, at);
    var (db2, row) := InsertPrint(p, kek, db.(vendors := vendors), NewUpload(r, d, at.now), at.weather);
    if vendor.Some? && row.Ok? {
      RowAdded(p, db2, r, d, vendor.value, at);
    }
  }

  lemma CreationStores(p: Provider, kek: Key, db: Db, r: NewShareRequest, d: Draw, at: Moment)
    requires Creatable(p, db, r, d, at)
    ensures CreateStore(p, kek, db, r, d, at).reply.Created?
  {
    hide InsertPrint, CreatedMeta, ShareTarget, Line, NewUpload, PickVendor, Representable;
    PickKeeps(db, r, d, at);
    PickSucceeds(db, r, d, at);
    InsertSucceeds(p, kek, db.(vendors := PickVendor(db.users, db.vendors, r, d, at).0), r, d, at);
  }

  lemma PickSucceeds(db: Db, r: NewShareRequest, d: Draw, at: Moment)
    requires at.weather.failing == NoCall && r.createdBy in db.users && d.vendorId !in db.vendors
    ensures var vendor := PickVendor(db.users, db.vendors, r, d, at).1;
      vendor.Some? && vendor.value.email == r.vendorEmail
  {
    var known := VendorByEmail(db.vendors, r.vendorEmail);
    assert known.Some? ==> IsActiveVendor(db.vendors, known.value, r.vendorEmail);
  }

  lemma InsertSucceeds(p: Provider, kek: Key, db: Db, r: NewShareRequest, d: Draw, at: Moment)
    requires at.weather.failing == NoCall && r.createdBy in db.users && d.printId !in db.prints
    ensures var (db', row) := InsertPrint(p, kek, db, NewUpload(r, d, at.now), at.weather);
      row.Ok? && d.printId in db'.prints
  {
    hide Leave, InsertLeaves, Wrapped, BlobPath, Crypto.Seal;
  }

  // ----- what the link opens ----------------------------------------------------------------

  lemma {:induction false} UploadsAt(ops: seq<Op>, i: nat)
    requires i < |ops| && ops[i].CreateShare? && FreshPrints(ops)
    ensures var id := ops[i].draw.printId; id in Uploads(ops) && Uploads(ops)[id] == ops[i].share.printBytes
  {
    if i < |ops| - 1 {
      UploadsAt(ops[..|ops| - 1], i);
    }
  }

  /** A redemption during which no call fails, of a share whose file can be read. */
  function CalmReply(p: Provider, s: Share, r: RedeemRequest, nowMs: int, filename: string, content: Bytes,
                     sha: Digest): Reply {
    if p.sha(r.accessCode) != s.codeHash then Failed(InvalidCredentials)
    else if !Consumable(s, nowMs) then Failed(ShareUnavailable)
    else Redeemed(s.id, filename, content, sha)
  }

  lemma CalmDelivery(p: Provider, kek: Key, db: Db, id: Uuid, r: RedeemRequest, at: Moment, content: Bytes)
    requires id in db.shares && at.weather.failing == NoCall && db.shares[id].printId in db.prints
    requires ReadBlob(p, kek, db, db.shares[id].printId, NoCall) == Ok(content)
    ensures var s := db.shares[id];
      var f := db.prints[s.printId];
      RedeemFound(p, kek, db, id, r, at).reply == CalmReply(p, s, r, Millis(at.now), f.filename, content, f.sha)
  {
    hide ReadPrint, Line, ShareTarget, RedeemedMeta, One;
  }

  lemma CalmStore(p: Provider, kek: Key, db: Db, id: Uuid, r: RedeemRequest, at: Moment, content: Bytes)
    requires Determined(db) && HasTokenHash(db.shares, id, p.sha(r.token))
    requires at.weather.failing == NoCall && db.shares[id].printId in db.prints
    requires ReadBlob(p, kek, db, db.shares[id].printId, NoCall) == Ok(content)
    ensures var s := db.shares[id];
      var f := db.prints[s.printId];
      RedeemStore(p, kek, db, r, at).reply == CalmReply(p, s, r, Millis(at.now), f.filename, content, f.sha)
  {
    OnlyShare(db, id, p.sha(r.token));
    CalmDelivery(p, kek, db, id, r, at, content);
    hide RedeemFound, ReadBlob, Determined, CalmReply;
  }

  lemma CalmRedeem(p: Provider, kek: Key, w: World, id: Uuid, r: RedeemRequest, at: Moment, content: Bytes)
    requires Determined(w.db) && HasTokenHash(w.db.shares, id, p.sha(r.token))
    requires at.weather.failing == NoCall && at.write == NoFault && w.db.shares[id].printId in w.db.prints
    requires ReadBlob(p, kek, w.db, w.db.shares[id].printId, NoCall) == Ok(content)
    ensures var s := w.db.shares[id];
      var f := w.db.prints[s.printId];
      Apply(p, kek, w, Op.RedeemShare(r, at)).1.reply
        == CalmReply(p, s, r, Millis(at.now), f.filename, content, f.sha)
  {
    hide Apply, RedeemStore, ReadBlob, Determined, CalmReply;
    CalmStore(p, kek, w.db, id, r, at, content);
    AnswerOf(p, kek, w, Op.RedeemShare(r, at));
  }

  /**
   The link and code handed out for a share open exactly the file that was uploaded with it. In every state
   a run can reach, while the share's row is there: a redemption with its token and code, no call failing,
   hands over the uploaded bytes under the uploaded name if and only if the share is not revoked, has a
   download left of those asked for, and the hours asked for have not run out; otherwise it is refused as
   unavailable. With a code of another hash it is refused whatever else holds.
   */
  lemma LinkOpensUpload(p: Provider, kek: Key, w: World, ops: seq<Op>, i: nat, r: RedeemRequest, at: Moment)
    requires w.db.vendors == map[] && w.db.prints == map[] && w.db.shares == map[] && Determined(w.db)
    requires FreshShares(ops) && FreshPrints(ops) && Correct(p, StoreIntegrity.Record(kek, ops))
    requires i < |ops| && ops[i].CreateShare? && ops[i].draw.shareId in Run(p, kek, w, ops).0.db.shares
    requires r.token == ops[i].draw.urlToken && at.weather.failing == NoCall && at.write == NoFault
    ensures var (w', asked, drawn) := (Run(p, kek, w, ops).0, ops[i].share, ops[i].draw);
      var s := w'.db.shares[drawn.shareId];
      Apply(p, kek, w', Op.RedeemShare(r, at)).1.reply
        == if p.sha(r.accessCode) != p.sha(drawn.accessCode) then Failed(InvalidCredentials)
           else if s.revokedAt.None? && s.downloadCount < asked.maxDownloads
                && Millis(at.now) < Millis(ops[i].at.now + asked.expiresInHours * 3600 * NANOS_PER_SECOND)
           then Redeemed(drawn.shareId, asked.printFilename, asked.printBytes, p.shaBytes(asked.printBytes))
           else Failed(ShareUnavailable)
  {
    hide Run, Apply, Determined, FreshPrints, Correct, ReadBlob, Uploads, SharesRefer, Origins, OneActiveVendor;
    var id := ops[i].draw.shareId;
    RunOrigins(p, kek, w, ops);
    RunIntegrity(p, kek, w, ops);
    RunDetermined(p, kek, w, ops);
    UploadsAt(ops, i);
    var w' := Run(p, kek, w, ops).0;
    OwnOrigin(p, w'.db, ops, i);
    CalmRedeem(p, kek, w', id, r, at, ops[i].share.printBytes);
  }

  /** With share ids drawn new, a row's origin is the creation that drew its id. */
  lemma OwnOrigin(p: Provider, db: Db, ops: seq<Op>, i: nat)
    requires Origins(p, db, ops) && FreshShares(ops)
    requires i < |ops| && ops[i].CreateShare? && ops[i].draw.shareId in db.shares
    ensures FromRequest(p, db, db.shares[ops[i].draw.shareId], ops[i])
  {
    hide FromRequest;
    assert HasOrigin(p, db, ops, ops[i].draw.shareId);
  }
}
