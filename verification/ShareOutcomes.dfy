/** What creating a share and redeeming one come to, exit by exit, in the terms of `Outcomes`. */
module ShareOutcomes {
  import opened Basics
  import opened Json
  import opened JsonValue
  import opened AuditEvent
  import opened AuditLog
  import opened Crypto
  import opened Tables
  import opened Requests
  import opened Clock
  import opened Service
  import opened Outcomes

  // ----- redeeming ------------------------------------------------------------------------

  /** A refusal: the tables as they were, and a line that says why. */
  ghost predicate RedeemDenied(p: Provider, w: World, w': World, a: Answer, r: RedeemRequest, at: Moment,
                               about: string, which: string, reason: string, e: ServiceError)
  {
    && w'.db == w.db && Answers(a, at, Failed(e)) && a.slot == None
    && Records(p.sha, w.log, w'.log, at, "share.redeem", Denied, None, r.caller,
               Object([Member(about, String(which))]), Object([Member("reason", String(reason))]))
  }

  /** A slot is used up; what follows decides the answer alone. */
  ghost predicate SlotUsed(p: Provider, kek: Key, w: World, w': World, a: Answer, id: Uuid, r: RedeemRequest,
                           at: Moment)
    requires id in w.db.shares
  {
    var s := w.db.shares[id];
    && w'.db == w.db.(shares := w.db.shares[id := s.(downloadCount := s.downloadCount + 1)])
    && a.slot == Some(s.id)
    && (if at.weather.failing == PrintFind then w'.log == w.log && a.reply == Failed(StorageErr)
        else if s.printId !in w.db.prints then w'.log == w.log && a.reply == Failed(NoSuchShare)
        else
          var f, content := w.db.prints[s.printId], ReadBlob(p, kek, w.db, s.printId, at.weather.failing);
          if content.Err? then w'.log == w.log && a.reply == Failed(StorageErr)
          else
            && Answers(a, at, Redeemed(s.id, f.filename, content.value, f.sha))
            && Records(p.sha, w.log, w'.log, at, "share.redeem", Success, None, r.caller,
                       Object([Member("print_id", String(s.printId)), Member("share_id", String(s.id)),
                               Member("vendor_id", String(s.vendorId))]),
                       Object([Member("filename", String(f.filename)),
                               Member("size_bytes", Number(NatText(f.size)))])))
  }

  /** The token is a share's: then the code decides, then whether the share is still to be had. */
  ghost predicate FoundOutcome(p: Provider, kek: Key, w: World, w': World, a: Answer, id: Uuid, r: RedeemRequest,
                               at: Moment)
    requires id in w.db.shares
  {
    var s, failing := w.db.shares[id], at.weather.failing;
    if failing == CodeHash then Refuses(w, w', a, StorageErr)
    else if p.sha(r.accessCode) != s.codeHash then
      RedeemDenied(p, w, w', a, r, at, "share_id", id, "bad_access_code", InvalidCredentials)
    else if failing == SlotConsume then Refuses(w, w', a, StorageErr)
    else if s.revokedAt.Some? || s.expiresAt <= Millis(at.now) || s.downloadCount >= s.maxDownloads then
      RedeemDenied(p, w, w', a, r, at, "share_id", id, "unavailable", ShareUnavailable)
    else SlotUsed(p, kek, w, w', a, id, r, at)
  }

  lemma DeliverPart(p: Provider, kek: Key, db: Db, s: Share, r: RedeemRequest, at: Moment)
    requires at.weather.failing != PrintFind && s.printId in db.prints
    ensures var m, f := Deliver(p, kek, db, s, r, at), db.prints[s.printId];
      var content := ReadBlob(p, kek, db, s.printId, at.weather.failing);
      if content.Err? then m == Mid(db, None, Failed(StorageErr), Some(s.id))
      else
        && m.db == db && m.reply == Redeemed(s.id, f.filename, content.value, f.sha) && m.slot == Some(s.id)
        && m.line.Some?
        && Says(m.line.value, at, "share.redeem", Success, None, r.caller,
                Object([Member("print_id", String(s.printId)), Member("share_id", String(s.id)),
                        Member("vendor_id", String(s.vendorId))]),
                Object([Member("filename", String(f.filename)), Member("size_bytes", Number(NatText(f.size)))]))
  {
    hide ReadBlob, ShareTarget, RedeemedMeta;
    TargetIs(s);
    RedeemedIs(db.prints[s.printId]);
  }

  lemma TargetIs(s: Share)
    ensures ShareTarget(s) == Object([Member("print_id", String(s.printId)), Member("share_id", String(s.id)),
                                      Member("vendor_id", String(s.vendorId))])
  {
  }

  lemma RedeemedIs(f: Print)
    ensures RedeemedMeta(f) == Object([Member("filename", String(f.filename)),
                                       Member("size_bytes", Number(NatText(f.size)))])
  {
    hide NatText;
  }

  lemma RefusalPart(db: Db, at: Moment, caller: Caller, about: string, which: string, reason: string, e: ServiceError)
    ensures var m := Refusal(db, at, caller, One(about, String(which)), reason, e);
      && m.db == db && m.reply == Failed(e) && m.slot == None && m.line.Some?
      && Says(m.line.value, at, "share.redeem", Denied, None, caller, Object([Member(about, String(which))]),
              Object([Member("reason", String(reason))]))
  {
    ScalarIs(about, String(which));
    ScalarIs("reason", String(reason));
    hide One;
  }

  /** A refusal of the store half is a refusal of the operation. */
  lemma Denies(p: Provider, kek: Key, w: World, r: RedeemRequest, at: Moment, about: string, which: string,
               reason: string, e: ServiceError)
    requires StorePart(p, kek, w.db, Op.RedeemShare(r, at))
          == Refusal(w.db, at, r.caller, One(about, String(which)), reason, e)
    ensures var (w', a) := Apply(p, kek, w, Op.RedeemShare(r, at));
      RedeemDenied(p, w, w', a, r, at, about, which, reason, e)
  {
    hide Apply, StorePart, Refusal, One, Says, Records;
    var op := Op.RedeemShare(r, at);
    RefusalPart(w.db, at, r.caller, about, which, reason, e);
    AnswerOf(p, kek, w, op);
    LineRecorded(p, kek, w, op, "share.redeem", Denied, None, r.caller, Object([Member(about, String(which))]),
                 Object([Member("reason", String(reason))]));
  }

  /** A store half that fails leaves everything alone. */
  lemma Fails(p: Provider, kek: Key, w: World, op: Op, e: ServiceError)
    requires StorePart(p, kek, w.db, op) == Mid(w.db, None, Failed(e), None)
    ensures var (w', a) := Apply(p, kek, w, op); Refuses(w, w', a, e)
  {
    hide StorePart, Apply;
    Unrecorded(p, kek, w, op);
  }

  lemma SameBlob(p: Provider, kek: Key, db: Db, shares: Shares, id: Uuid, failing: Call)
    ensures ReadBlob(p, kek, db.(shares := shares), id, failing) == ReadBlob(p, kek, db, id, failing)
  {
    hide ReadPrint;
  }

  lemma Delivers(p: Provider, kek: Key, w: World, id: Uuid, r: RedeemRequest, at: Moment)
    requires id in w.db.shares
    requires var s := w.db.shares[id];
      StorePart(p, kek, w.db, Op.RedeemShare(r, at))
      == Deliver(p, kek, w.db.(shares := w.db.shares[id := s.(downloadCount := s.downloadCount + 1)]), s, r, at)
    ensures var (w', a) := Apply(p, kek, w, Op.RedeemShare(r, at)); SlotUsed(p, kek, w, w', a, id, r, at)
  {
    hide Apply, StorePart, Says, Records, ReadBlob;
    var op, s, failing := Op.RedeemShare(r, at), w.db.shares[id], at.weather.failing;
    var shares := w.db.shares[id := s.(downloadCount := s.downloadCount + 1)];
    AnswerOf(p, kek, w, op);
    SameBlob(p, kek, w.db, shares, s.printId, failing);
    if failing == PrintFind || s.printId !in w.db.prints {
      Unrecorded(p, kek, w, op);
    } else {
      DeliverPart(p, kek, w.db.(shares := shares), s, r, at);
      hide Deliver;
      if ReadBlob(p, kek, w.db, s.printId, failing).Err? {
        Unrecorded(p, kek, w, op);
      } else {
        var f := w.db.prints[s.printId];
        LineRecorded(p, kek, w, op, "share.redeem", Success, None, r.caller,
                     Object([Member("print_id", String(s.printId)), Member("share_id", String(s.id)),
                             Member("vendor_id", String(s.vendorId))]),
                     Object([Member("filename", String(f.filename)), Member("size_bytes", Number(NatText(f.size)))]));
      }
    }
  }

  lemma FoundPart(p: Provider, kek: Key, db: Db, id: Uuid, r: RedeemRequest, at: Moment)
    requires id in db.shares
    ensures var s, failing, m := db.shares[id], at.weather.failing, RedeemFound(p, kek, db, id, r, at);
      m == if failing == CodeHash then Mid(db, None, Failed(StorageErr), None)
           else if p.sha(r.accessCode) != s.codeHash then
             Refusal(db, at, r.caller, One("share_id", String(id)), "bad_access_code", InvalidCredentials)
           else if failing == SlotConsume then Mid(db, None, Failed(StorageErr), None)
           else if s.revokedAt.Some? || s.expiresAt <= Millis(at.now) || s.downloadCount >= s.maxDownloads then
             Refusal(db, at, r.caller, One("share_id", String(id)), "unavailable", ShareUnavailable)
           else Deliver(p, kek, db.(shares := db.shares[id := s.(downloadCount := s.downloadCount + 1)]), s, r, at)
  {
    hide Deliver, Refusal, One, Millis;
  }

  lemma FoundRedeem(p: Provider, kek: Key, w: World, id: Uuid, r: RedeemRequest, at: Moment)
    requires id in w.db.shares
    requires StorePart(p, kek, w.db, Op.RedeemShare(r, at)) == RedeemFound(p, kek, w.db, id, r, at)
    ensures var (w', a) := Apply(p, kek, w, Op.RedeemShare(r, at)); FoundOutcome(p, kek, w, w', a, id, r, at)
  {
    hide Apply, StorePart, RedeemFound, Deliver, Refusal, One, Millis, RedeemDenied, SlotUsed, Refuses;
    FoundPart(p, kek, w.db, id, r, at);
    var op, s, failing := Op.RedeemShare(r, at), w.db.shares[id], at.weather.failing;
    if failing == CodeHash {
      Fails(p, kek, w, op, StorageErr);
    } else if p.sha(r.accessCode) != s.codeHash {
      Denies(p, kek, w, r, at, "share_id", id, "bad_access_code", InvalidCredentials);
    } else if failing == SlotConsume {
      Fails(p, kek, w, op, StorageErr);
    } else if s.revokedAt.Some? || s.expiresAt <= Millis(at.now) || s.downloadCount >= s.maxDownloads {
      Denies(p, kek, w, r, at, "share_id", id, "unavailable", ShareUnavailable);
    } else {
      Delivers(p, kek, w, id, r, at);
    }
  }

  lemma RedeemPart(p: Provider, kek: Key, db: Db, r: RedeemRequest, at: Moment)
    ensures var m, id := StorePart(p, kek, db, Op.RedeemShare(r, at)), ShareByTokenHash(db.shares, p.sha(r.token));
      m == if at.weather.failing == TokenHash then Mid(db, None, Failed(CryptoErr), None)
           else if at.weather.failing == ShareFind then Mid(db, None, Failed(StorageErr), None)
           else if id.None? then
             Refusal(db, at, r.caller, One("token_prefix", String(ShortToken(r.token))), "unknown_token", NoSuchShare)
           else RedeemFound(p, kek, db, id.value, r, at)
  {
    hide RedeemFound, Refusal, One, ShortToken;
  }

  lemma NoneFound(ts: Shares, h: Digest)
    requires ShareByTokenHash(ts, h).None?
    ensures (set id | id in ts && ts[id].tokenHash == h) == {}
  {
    assert forall id | id in ts :: !HasTokenHash(ts, id, h);
  }

  lemma OneFound(db: Db, id: Uuid, h: Digest)
    requires Determined(db) && HasTokenHash(db.shares, id, h)
    ensures (set x | x in db.shares && db.shares[x].tokenHash == h) == {id}
  {
    hide OneActiveVendor;
  }

  /**
   A redemption, exit by exit. The token's hash finds the share, the code's hash opens it, and a share neither
   revoked nor expired nor used up loses a slot before its file is read; every refusal is on the log with its reason,
   and an unknown token with its first six characters.
   */
  lemma RedeemOutcome(p: Provider, kek: Key, w: World, r: RedeemRequest, at: Moment)
    requires Determined(w.db)
    ensures var (w', a) := Apply(p, kek, w, Op.RedeemShare(r, at));
      var ts, t := w.db.shares, r.token;
      var found := set id | id in ts && ts[id].tokenHash == p.sha(t);
      if at.weather.failing == TokenHash then Refuses(w, w', a, CryptoErr)
      else if at.weather.failing == ShareFind then Refuses(w, w', a, StorageErr)
      else if found == {} then
        RedeemDenied(p, w, w', a, r, at, "token_prefix", if |t| > 6 then t[..6] + "\U{2026}" else t, "unknown_token",
                     NoSuchShare)
      else exists id: Uuid :: found == {id} && FoundOutcome(p, kek, w, w', a, id, r, at)
  {
    hide Apply, StorePart, RedeemFound, Refusal, One, RedeemDenied, FoundOutcome, Refuses, ShareByTokenHash,
         Determined;
    RedeemPart(p, kek, w.db, r, at);
    var op, ts := Op.RedeemShare(r, at), w.db.shares;
    var found := set id | id in ts && ts[id].tokenHash == p.sha(r.token);
    var id := ShareByTokenHash(ts, p.sha(r.token));
    if at.weather.failing == TokenHash {
      Fails(p, kek, w, op, CryptoErr);
    } else if at.weather.failing == ShareFind {
      Fails(p, kek, w, op, StorageErr);
    } else if id.None? {
      NoneFound(ts, p.sha(r.token));
      Denies(p, kek, w, r, at, "token_prefix", ShortToken(r.token), "unknown_token", NoSuchShare);
    } else {
      OneFound(w.db, id.value, p.sha(r.token));
      FoundRedeem(p, kek, w, id.value, r, at);
    }
  }

  // ----- creating ---------------------------------------------------------------------------

  /** The row of a new share. */
  function ShareRow(p: Provider, r: NewShareRequest, d: Draw, vendor: Uuid, at: Moment): Share {
    Share(d.shareId, d.printId, vendor, p.sha(d.urlToken), p.sha(d.accessCode),
          Millis(at.now + r.expiresInHours * 3600 * 1_000_000_000), r.maxDownloads, 0, r.note, r.createdBy,
          Millis(at.now), None)
  }

  /** What its line is about. */
  function CreationTarget(d: Draw, vendor: Uuid): Json {
    Object([Member("print_id", String(d.printId)), Member("share_id", String(d.shareId)),
            Member("vendor_id", String(vendor))])
  }

  /** What else its line holds. */
  function CreationMeta(r: NewShareRequest): Json {
    Object([Member("expires_in_hours", Number(NatText(r.expiresInHours))),
            Member("filename", String(r.printFilename)),
            Member("max_downloads", Number(NatText(r.maxDownloads))),
            Member("note_present", Bool(r.note.Some?)),
            Member("size_bytes", Number(NatText(|r.printBytes|)))])
  }

  /** A call fails, or the schema refuses the row. */
  ghost predicate RowRefused(p: Provider, db: Db, r: NewShareRequest, d: Draw, vendor: Uuid, at: Moment) {
    || at.weather.failing == SecretDraw || at.weather.failing == ShareInsert
    || d.shareId in db.shares || d.printId !in db.prints || vendor !in db.vendors || r.createdBy !in db.users
    || exists id :: id in db.shares && db.shares[id].tokenHash == p.sha(d.urlToken)
  }

  /** The last stage: the share's row, and its line. `db` is what the stages before it left. */
  ghost predicate RowStage(p: Provider, w: World, w': World, a: Answer, r: NewShareRequest, d: Draw, at: Moment, db: Db,
                           vendor: Vendor)
  {
    if RowRefused(p, db, r, d, vendor.id, at) then w' == w.(db := db) && a == Answer(Failed(StorageErr), None)
    else
      && w'.db == db.(shares := db.shares[d.shareId := ShareRow(p, r, d, vendor.id, at)])
      && Answers(a, at, Created(d.shareId, d.urlToken, d.accessCode, vendor)) && a.slot == None
      && Records(p.sha, w.log, w'.log, at, "share.created", Success, Some(r.createdBy), r.caller,
                 CreationTarget(d, vendor.id), CreationMeta(r))
  }

  /** The row of an upload: the file sealed under its own key with its id, and that key wrapped. */
  function UploadRow(p: Provider, kek: Key, r: NewShareRequest, d: Draw, at: Moment): Print {
    var (_, tag) := p.encrypt(GcmInput(d.dek, d.nonce, d.printId, r.printBytes));
    var (wrapped, wrapTag) := p.encrypt(GcmInput(kek, d.wrapNonce, "", d.dek));
    Print(d.printId, r.printFilename, |r.printBytes|, p.shaBytes(r.printBytes),
          d.printId[..2] + "/" + (d.printId + ".enc"), d.wrapNonce + wrapTag + wrapped, d.nonce, tag, r.createdBy,
          Millis(at.now), r.cuiAttested)
  }

  /** The stage before: the file, then its row, and the file away again where the row is refused. */
  ghost predicate PrintStage(p: Provider, kek: Key, w: World, w': World, a: Answer, r: NewShareRequest, d: Draw,
                             at: Moment, db: Db, vendor: Vendor)
  {
    var failing, blobs, row := at.weather.failing, db.blobs, UploadRow(p, kek, r, d, at);
    var (sealed, _) := p.encrypt(GcmInput(d.dek, d.nonce, d.printId, r.printBytes));
    var full := blobs[row.blobPath := sealed];
    if failing in {PlaintextHash, DekDraw, BlobSeal, KeyWrap, DirMake}
    then w' == w.(db := db) && a == Answer(Failed(StorageErr), None)
    else if failing == BlobWrite then
      var torn := at.weather.torn;
      && w' == w.(db := db.(blobs := if torn.None? then blobs - {row.blobPath} else blobs[row.blobPath := torn.value]))
      && a == Answer(Failed(StorageErr), None)
    else if failing == PrintInsert || d.printId in db.prints || r.createdBy !in db.users then
      && w' == w.(db := db.(blobs := if at.weather.cleanup then blobs - {row.blobPath} else full))
      && a == Answer(Failed(StorageErr), None)
    else RowStage(p, w, w', a, r, d, at, db.(prints := db.prints[d.printId := row], blobs := full), vendor)
  }

  lemma RowPart(p: Provider, db: Db, r: NewShareRequest, d: Draw, vendor: Vendor, at: Moment)
    ensures var m, s := CreateRow(p, db, r, d, vendor, at), ShareRow(p, r, d, vendor.id, at);
      if RowRefused(p, db, r, d, vendor.id, at) then m == Mid(db, None, Failed(StorageErr), None)
      else
        && m.db == db.(shares := db.shares[d.shareId := s]) && m.slot == None
        && m.reply == Created(d.shareId, d.urlToken, d.accessCode, vendor)
        && m.line == Some(Line(at, "share.created", Success, Some(r.createdBy), r.caller, ShareTarget(s),
                               CreatedMeta(r)))
  {
    hide Line, ShareTarget, CreatedMeta, Millis;
  }

  lemma CreatedIs(r: NewShareRequest)
    ensures CreatedMeta(r) == CreationMeta(r)
  {
    hide NatText, With, One;
    ScalarIs("size_bytes", Number(NatText(|r.printBytes|)));
    FiveJoined(Member("expires_in_hours", Number(NatText(r.expiresInHours))),
               Member("filename", String(r.printFilename)), Member("max_downloads", Number(NatText(r.maxDownloads))),
               Member("note_present", Bool(r.note.Some?)), Member("size_bytes", Number(NatText(|r.printBytes|))));
  }

  lemma FiveJoined<T>(a: T, b: T, c: T, d: T, e: T)
    ensures [a] + ([b] + ([c] + ([d] + [e]))) == [a, b, c, d, e]
  {
  }

  lemma CreatedTarget(p: Provider, r: NewShareRequest, d: Draw, vendor: Uuid, at: Moment)
    ensures ShareTarget(ShareRow(p, r, d, vendor, at)) == CreationTarget(d, vendor)
  {
    TargetIs(ShareRow(p, r, d, vendor, at));
    hide ShareTarget, Millis;
  }

  lemma LineSays(at: Moment, name: string, outcome: Outcome, who: Option<Uuid>, caller: Caller, target: Value,
                 meta: Value)
    ensures Says(Line(at, name, outcome, who, caller, target, meta), at, name, outcome, who, caller, target, meta)
  {
  }

  lemma RowRecorded(p: Provider, kek: Key, w: World, r: NewShareRequest, d: Draw, vendor: Vendor, at: Moment, db: Db)
    requires StorePart(p, kek, w.db, Op.CreateShare(r, d, at)) == CreateRow(p, db, r, d, vendor, at)
    ensures var (w', a) := Apply(p, kek, w, Op.CreateShare(r, d, at)); RowStage(p, w, w', a, r, d, at, db, vendor)
  {
    hide Apply, StorePart, CreateRow, Says, Records, Line, ShareTarget, CreatedMeta, ShareRow, RowRefused,
         CreationTarget, CreationMeta;
    var op := Op.CreateShare(r, d, at);
    RowPart(p, db, r, d, vendor, at);
    AnswerOf(p, kek, w, op);
    if StorePart(p, kek, w.db, op).line.None? {
      Unrecorded(p, kek, w, op);
    } else {
      var s := ShareRow(p, r, d, vendor.id, at);
      CreatedTarget(p, r, d, vendor.id, at);
      CreatedIs(r);
      LineSays(at, "share.created", Success, Some(r.createdBy), r.caller, ShareTarget(s), CreatedMeta(r));
      LineRecorded(p, kek, w, op, "share.created", Success, Some(r.createdBy), r.caller, ShareTarget(s),
                   CreatedMeta(r));
    }
  }

  lemma UploadPart(p: Provider, kek: Key, db: Db, r: NewShareRequest, d: Draw, at: Moment)
    ensures var row := UploadRow(p, kek, r, d, at);
      var (sealed, _) := p.encrypt(GcmInput(d.dek, d.nonce, d.printId, r.printBytes));
      var (db', x) := InsertPrint(p, kek, db, NewUpload(r, d, at.now), at.weather);
      var failing, full := at.weather.failing, db.blobs[row.blobPath := sealed];
      if failing in {PlaintextHash, DekDraw, BlobSeal, KeyWrap, DirMake} then db' == db && x.Err?
      else if failing == BlobWrite then
        var torn := at.weather.torn;
        && db' == db.(blobs := if torn.None? then db.blobs - {row.blobPath} else db.blobs[row.blobPath := torn.value])
        && x.Err?
      else if failing == PrintInsert || d.printId in db.prints || r.createdBy !in db.users then
        db' == db.(blobs := if at.weather.cleanup then db.blobs - {row.blobPath} else full) && x.Err?
      else db' == db.(prints := db.prints[d.printId := row], blobs := full) && x.Ok?
  {
    hide Millis;
  }

  lemma PrintRecorded(p: Provider, kek: Key, w: World, r: NewShareRequest, d: Draw, vendor: Vendor, at: Moment, db: Db)
    requires var (db', row) := InsertPrint(p, kek, db, NewUpload(r, d, at.now), at.weather);
      StorePart(p, kek, w.db, Op.CreateShare(r, d, at))
      == if row.Err? then Fail(db', StorageErr) else CreateRow(p, db', r, d, vendor, at)
    ensures var (w', a) := Apply(p, kek, w, Op.CreateShare(r, d, at));
      PrintStage(p, kek, w, w', a, r, d, at, db, vendor)
  {
    hide Apply, StorePart, CreateRow, InsertPrint, NewUpload, RowStage, UploadRow;
    UploadPart(p, kek, db, r, d, at);
    var (db', row) := InsertPrint(p, kek, db, NewUpload(r, d, at.now), at.weather);
    if row.Err? {
      Unrecorded(p, kek, w, Op.CreateShare(r, d, at));
    } else {
      RowRecorded(p, kek, w, r, d, vendor, at, db');
    }
  }

  /**
   A creation, stage by stage. The vendor is the active one with the address, or else a new row with the phone and
   name asked for; then the file and its row; then the share's row and its line. A stage that fails leaves what the
   stages before it did.
   */
  lemma CreateOutcome(p: Provider, kek: Key, w: World, r: NewShareRequest, d: Draw, at: Moment)
    requires Determined(w.db)
    ensures var (w', a) := Apply(p, kek, w, Op.CreateShare(r, d, at));
      var vs, failing := w.db.vendors, at.weather.failing;
      if failing == VendorFind then Refuses(w, w', a, StorageErr)
      else
        && (forall v | v in vs && vs[v].email == r.vendorEmail && vs[v].disabledAt.None? ::
              PrintStage(p, kek, w, w', a, r, d, at, w.db, vs[v]))
        && ((forall v | v in vs :: vs[v].email != r.vendorEmail || vs[v].disabledAt.Some?) ==>
              if failing == VendorInsert || d.vendorId in vs || r.createdBy !in w.db.users
              then Refuses(w, w', a, StorageErr)
              else
                var vendor := Vendor(d.vendorId, r.vendorDisplayName, r.vendorEmail, r.vendorPhone, r.createdBy,
                                     Millis(at.now), None);
                PrintStage(p, kek, w, w', a, r, d, at, w.db.(vendors := vs[d.vendorId := vendor]), vendor))
  {
    hide Apply, StorePart, CreateStore, CreateRow, InsertPrint, NewUpload, PrintStage, Refuses, PickVendor, Determined,
         Millis;
    PickPart(w.db, r, d, at);
    StoreIs(p, kek, w.db, r, d, at);
    CreateParts(p, kek, w.db, r, d, at);
    var (vendors, vendor) := PickVendor(w.db.users, w.db.vendors, r, d, at);
    if vendor.None? {
      assert w.db.(vendors := w.db.vendors) == w.db;
      Fails(p, kek, w, Op.CreateShare(r, d, at), StorageErr);
    } else {
      PrintRecorded(p, kek, w, r, d, vendor.value, at, w.db.(vendors := vendors));
      assert w.db.(vendors := w.db.vendors) == w.db;
    }
  }

  lemma StoreIs(p: Provider, kek: Key, db: Db, r: NewShareRequest, d: Draw, at: Moment)
    ensures StorePart(p, kek, db, Op.CreateShare(r, d, at)) == CreateStore(p, kek, db, r, d, at)
  {
    hide CreateStore;
  }

  lemma PickPart(db: Db, r: NewShareRequest, d: Draw, at: Moment)
    requires Determined(db)
    ensures var x, vs, failing := PickVendor(db.users, db.vendors, r, d, at), db.vendors, at.weather.failing;
      if failing == VendorFind then x == (vs, None)
      else
        && (forall v | v in vs && vs[v].email == r.vendorEmail && vs[v].disabledAt.None? :: x == (vs, Some(vs[v])))
        && ((forall v | v in vs :: vs[v].email != r.vendorEmail || vs[v].disabledAt.Some?) ==>
              if failing == VendorInsert || d.vendorId in vs || r.createdBy !in db.users then x == (vs, None)
              else
                var vendor := Vendor(d.vendorId, r.vendorDisplayName, r.vendorEmail, r.vendorPhone, r.createdBy,
                                     Millis(at.now), None);
                x == (vs[d.vendorId := vendor], Some(vendor)))
  {
    hide DistinctTokens, Millis;
    var vs := db.vendors;
    var found := VendorByEmail(vs, r.vendorEmail);
    forall v | v in vs && vs[v].email == r.vendorEmail && vs[v].disabledAt.None? ensures found == Some(v) {
      assert IsActiveVendor(vs, v, r.vendorEmail);
    }
  }
}
