/**
 What every run keeps true of the tables and the blob directory, whatever calls fail: rows reference
 rows that exist, one active vendor per address, and every print row reads back as what was uploaded.
 And what holds of any rearrangement of them: a blob never reads as another print's file.
 */
module StoreIntegrity {
  import opened Basics
  import opened Crypto
  import opened Tables
  import opened Requests
  import opened Service
  import opened Clock
  import opened Lookups

  /** The row's file is there and reads back as the upload under that id. */
  ghost predicate PrintAgrees(p: Provider, kek: Key, db: Db, uploads: map<Uuid, Bytes>, id: Uuid)
    requires id in db.prints
  {
    var row := db.prints[id];
    && row.id == id && row.blobPath == BlobPath(id) && id in uploads && BlobPath(id) in db.blobs
    && ReadPrint(p, kek, row, Some(db.blobs[BlobPath(id)])) == Ok(uploads[id])
  }

  ghost predicate PrintsAgree(p: Provider, kek: Key, db: Db, uploads: map<Uuid, Bytes>) {
    forall id | id in db.prints :: PrintAgrees(p, kek, db, uploads, id)
  }

  ghost predicate SharesRefer(db: Db) {
    forall id | id in db.shares :: db.shares[id].printId in db.prints && db.shares[id].vendorId in db.vendors
  }

  ghost predicate KeyedVendors(db: Db) {
    forall id | id in db.vendors :: db.vendors[id].id == id
  }

  ghost predicate DbInv(p: Provider, kek: Key, db: Db, uploads: map<Uuid, Bytes>) {
    && PrintsAgree(p, kek, db, uploads)
    && SharesRefer(db)
    && KeyedVendors(db)
    && OneActiveVendor(db.vendors)
  }

  /** What the run uploaded under each print id. */
  ghost function Uploads(ops: seq<Op>): map<Uuid, Bytes> {
    if ops == [] then map[]
    else
      var before, op := Uploads(ops[..|ops| - 1]), ops[|ops| - 1];
      if op.CreateShare? then before[op.draw.printId := op.share.printBytes] else before
  }

  /** The two inputs an upload seals: the file under its DEK with the id as AAD, the DEK under the KEK with none. */
  ghost function SealedIn(kek: Key, op: Op): set<GcmInput> {
    if op.CreateShare?
    then {GcmInput(op.draw.dek, op.draw.nonce, op.draw.printId, op.share.printBytes),
          GcmInput(kek, op.draw.wrapNonce, "", op.draw.dek)}
    else {}
  }

  ghost function Record(kek: Key, ops: seq<Op>): set<GcmInput> {
    if ops == [] then {} else Record(kek, ops[..|ops| - 1]) + SealedIn(kek, ops[|ops| - 1])
  }

  ghost predicate FreshPrints(ops: seq<Op>) {
    forall i, j | 0 <= i < j < |ops| && ops[i].CreateShare? && ops[j].CreateShare? ::
      ops[i].draw.printId != ops[j].draw.printId
  }

  // ----- blobs --------------------------------------------------------------------

  /** A freshly sealed row reads back. */
  lemma ReadFresh(p: Provider, kek: Key, u: Upload, record: set<GcmInput>)
    requires Correct(p, record)
    requires GcmInput(u.dek, u.nonce, u.id, u.plaintext) in record && GcmInput(kek, u.wrapNonce, "", u.dek) in record
    ensures ReadPrint(p, kek, PrintRow(p, kek, u), Some(SealedText(p, u))) == Ok(u.plaintext)
  {
    UnwrapWrapped(p, kek, u.dek, u.wrapNonce, record);
  }

  /** Touching one new path leaves every other print as it was. */
  lemma OtherPathsAgree(p: Provider, kek: Key, db: Db, uploads: map<Uuid, Bytes>, id: Uuid, bytes: Bytes,
                        left: Option<Option<Bytes>>)
    requires PrintsAgree(p, kek, db, uploads) && id !in db.prints
    ensures PrintsAgree(p, kek, db.(blobs := Leave(db.blobs, BlobPath(id), left)), uploads[id := bytes])
  {
    hide ReadPrint;
    forall other | other in db.prints
      ensures PrintAgrees(p, kek, db.(blobs := Leave(db.blobs, BlobPath(id), left)), uploads[id := bytes], other)
    {
      assert PrintAgrees(p, kek, db, uploads, other);
      if BlobPath(other) == BlobPath(id) { BlobPathInjective(other, id); }
    }
  }

  lemma RowsWereUploaded(p: Provider, kek: Key, db: Db, uploads: map<Uuid, Bytes>)
    requires PrintsAgree(p, kek, db, uploads)
    ensures forall id | id in db.prints :: id in uploads
  {
    forall id | id in db.prints ensures id in uploads { assert PrintAgrees(p, kek, db, uploads, id); }
  }

  lemma WiderUploads(p: Provider, kek: Key, db: Db, uploads: map<Uuid, Bytes>, id: Uuid, bytes: Bytes)
    requires PrintsAgree(p, kek, db, uploads) && id !in uploads
    ensures PrintsAgree(p, kek, db, uploads[id := bytes])
  {
    hide ReadPrint;
    forall other | other in db.prints ensures PrintAgrees(p, kek, db, uploads[id := bytes], other) {
      assert PrintAgrees(p, kek, db, uploads, other);
    }
  }

  lemma SamePrints(p: Provider, kek: Key, db: Db, db': Db, uploads: map<Uuid, Bytes>)
    requires PrintsAgree(p, kek, db, uploads) && db'.prints == db.prints && db'.blobs == db.blobs
    ensures PrintsAgree(p, kek, db', uploads)
  {
    hide ReadPrint;
    forall id | id in db'.prints ensures PrintAgrees(p, kek, db', uploads, id) {
      assert PrintAgrees(p, kek, db, uploads, id);
    }
  }

  lemma InsertKeepsPrints(p: Provider, kek: Key, db: Db, u: Upload, w: Weather, uploads: map<Uuid, Bytes>,
                          record: set<GcmInput>)
    requires PrintsAgree(p, kek, db, uploads) && u.id !in uploads && Correct(p, record)
    requires GcmInput(u.dek, u.nonce, u.id, u.plaintext) in record && GcmInput(kek, u.wrapNonce, "", u.dek) in record
    ensures PrintsAgree(p, kek, InsertPrint(p, kek, db, u, w).0, uploads[u.id := u.plaintext])
  {
    ReadFresh(p, kek, u, record);
    RowsWereUploaded(p, kek, db, uploads);
    var r := InsertPrint(p, kek, db, u, w).1;
    OtherPathsAgree(p, kek, db, uploads, u.id, u.plaintext, InsertLeaves(p, u, w, r.Ok?));
    if r.Ok? {
      InsertedRowAgrees(p, kek, db, u, uploads[u.id := u.plaintext]);
    }
    hide PrintAgrees, PrintRow, ReadPrint, PrintsAgree;
  }

  lemma InsertedRowAgrees(p: Provider, kek: Key, db: Db, u: Upload, uploads: map<Uuid, Bytes>)
    requires u.id !in db.prints && u.id in uploads
    requires PrintsAgree(p, kek, db.(blobs := db.blobs[BlobPath(u.id) := SealedText(p, u)]), uploads)
    requires ReadPrint(p, kek, PrintRow(p, kek, u), Some(SealedText(p, u))) == Ok(uploads[u.id])
    ensures PrintsAgree(p, kek, db.(blobs := db.blobs[BlobPath(u.id) := SealedText(p, u)],
                                    prints := db.prints[u.id := PrintRow(p, kek, u)]), uploads)
  {
    hide ReadPrint, SealedText;
    var db1 := db.(blobs := db.blobs[BlobPath(u.id) := SealedText(p, u)]);
    var db2 := db1.(prints := db.prints[u.id := PrintRow(p, kek, u)]);
    forall id | id in db2.prints ensures PrintAgrees(p, kek, db2, uploads, id) {
      if id != u.id {
        assert PrintAgrees(p, kek, db1, uploads, id);
      }
    }
  }

  lemma DeleteKeepsInv(p: Provider, kek: Key, db: Db, id: Uuid, w: Weather, uploads: map<Uuid, Bytes>)
    requires DbInv(p, kek, db, uploads)
    ensures DbInv(p, kek, Tables.DeletePrint(db, id, w).0, uploads)
  {
    hide ReadPrint;
    var (db', r) := Tables.DeletePrint(db, id, w);
    if r.Ok? {
      assert PrintAgrees(p, kek, db, uploads, id);
      forall other | other in db'.prints ensures PrintAgrees(p, kek, db', uploads, other) {
        assert PrintAgrees(p, kek, db, uploads, other);
        if BlobPath(other) == BlobPath(id) { BlobPathInjective(other, id); }
      }
    }
  }

  /** A print some share still refers to is not deleted: neither its row nor its file changes. */
  lemma ReferencedPrintStays(db: Db, share: Uuid, w: Weather)
    requires share in db.shares && db.shares[share].printId in db.prints
    ensures Tables.DeletePrint(db, db.shares[share].printId, w) == (db, Err(Sqlite))
  {
  }

  // ----- operations -----------------------------------------------------------------

  lemma PickVendorKeeps(p: Provider, kek: Key, db: Db, uploads: map<Uuid, Bytes>, r: NewShareRequest, d: Draw,
                        at: Moment)
    requires DbInv(p, kek, db, uploads)
    ensures var (vendors, vendor) := PickVendor(db.users, db.vendors, r, d, at);
      DbInv(p, kek, db.(vendors := vendors), uploads) && (vendor.Some? ==> vendor.value.id in vendors)
  {
    var (vendors, vendor) := PickVendor(db.users, db.vendors, r, d, at);
    SamePrints(p, kek, db, db.(vendors := vendors), uploads);
    PickOneActive(db.users, db.vendors, r, d, at);
    hide PrintsAgree, OneActiveVendor;
  }

  lemma CreateRowKeepsInv(p: Provider, kek: Key, db: Db, uploads: map<Uuid, Bytes>,
                          r: NewShareRequest, d: Draw, vendor: Vendor, at: Moment)
    requires DbInv(p, kek, db, uploads)
    ensures DbInv(p, kek, CreateRow(p, db, r, d, vendor, at).db, uploads)
  {
    hide CreatedMeta, ShareTarget;
    SamePrints(p, kek, db, CreateRow(p, db, r, d, vendor, at).db, uploads);
  }

  lemma InsertKeepsInv(p: Provider, kek: Key, db: Db, u: Upload, w: Weather, uploads: map<Uuid, Bytes>,
                       record: set<GcmInput>)
    requires DbInv(p, kek, db, uploads) && u.id !in uploads && Correct(p, record)
    requires GcmInput(u.dek, u.nonce, u.id, u.plaintext) in record && GcmInput(kek, u.wrapNonce, "", u.dek) in record
    ensures DbInv(p, kek, InsertPrint(p, kek, db, u, w).0, uploads[u.id := u.plaintext])
  {
    InsertKeepsPrints(p, kek, db, u, w, uploads, record);
    hide PrintsAgree, PrintRow, InsertLeaves, Leave, InsertResult;
  }

  lemma UploadOf(r: NewShareRequest, d: Draw, now: int)
    ensures var u := NewUpload(r, d, now);
      && u.id == d.printId && u.plaintext == r.printBytes && u.dek == d.dek && u.nonce == d.nonce
      && u.wrapNonce == d.wrapNonce
  {
  }

  lemma WiderInv(p: Provider, kek: Key, db: Db, uploads: map<Uuid, Bytes>, id: Uuid, bytes: Bytes)
    requires DbInv(p, kek, db, uploads) && id !in uploads
    ensures DbInv(p, kek, db, uploads[id := bytes])
  {
    hide PrintsAgree;
    WiderUploads(p, kek, db, uploads, id, bytes);
  }

  lemma CreateKeepsInv(p: Provider, kek: Key, db: Db, uploads: map<Uuid, Bytes>, record: set<GcmInput>,
                       r: NewShareRequest, d: Draw, at: Moment)
    requires DbInv(p, kek, db, uploads) && d.printId !in uploads && Correct(p, record)
    requires SealedIn(kek, Op.CreateShare(r, d, at)) <= record
    ensures DbInv(p, kek, CreateStore(p, kek, db, r, d, at).db, uploads[d.printId := r.printBytes])
  {
    hide DbInv, PrintsAgree, InsertPrint, PickVendor, CreateRow, CreateStore, NewUpload;
    PickVendorKeeps(p, kek, db, uploads, r, d, at);
    CreateParts(p, kek, db, r, d, at);
    var (vendors, vendor) := PickVendor(db.users, db.vendors, r, d, at);
    var db1, u := db.(vendors := vendors), NewUpload(r, d, at.now);
    UploadOf(r, d, at.now);
    InsertKeepsInv(p, kek, db1, u, at.weather, uploads, record);
    WiderInv(p, kek, db1, uploads, d.printId, r.printBytes);
    if vendor.Some? {
      var (db2, _) := InsertPrint(p, kek, db1, u, at.weather);
      CreateRowKeepsInv(p, kek, db2, uploads[d.printId := r.printBytes], r, d, vendor.value, at);
    }
  }

  lemma SessionsKeepInv(p: Provider, kek: Key, db: Db, db': Db, uploads: map<Uuid, Bytes>)
    requires DbInv(p, kek, db, uploads) && db' == db.(sessions := db'.sessions)
    ensures DbInv(p, kek, db', uploads)
  {
    SamePrints(p, kek, db, db', uploads);
  }

  /** Shares may go, be counted or be stamped; they keep what they refer to. */
  ghost predicate SharesShrink(ss: Shares, ss': Shares) {
    forall id | id in ss' :: id in ss && ss'[id].printId == ss[id].printId && ss'[id].vendorId == ss[id].vendorId
  }

  lemma SharesKeepInv(p: Provider, kek: Key, db: Db, db': Db, uploads: map<Uuid, Bytes>)
    requires DbInv(p, kek, db, uploads) && db' == db.(shares := db'.shares) && SharesShrink(db.shares, db'.shares)
    ensures DbInv(p, kek, db', uploads)
  {
    SamePrints(p, kek, db, db', uploads);
  }

  lemma DisableKeepsInv(p: Provider, kek: Key, db: Db, id: Uuid, at: Moment, uploads: map<Uuid, Bytes>)
    requires DbInv(p, kek, db, uploads)
    ensures DbInv(p, kek, DisableStore(db, id, at).db, uploads)
  {
    var db' := DisableStore(db, id, at).db;
    SamePrints(p, kek, db, db', uploads);
    if Tables.DisableVendor(db.vendors, id, Millis(at.now)).Ok? {
      DisableOneActive(db.vendors, id, Millis(at.now));
    }
    hide PrintsAgree, OneActiveVendor;
  }

  lemma RedeemShrinks(p: Provider, kek: Key, db: Db, r: RedeemRequest, at: Moment)
    ensures SharesShrink(db.shares, RedeemStore(p, kek, db, r, at).db.shares)
  {
    hide RedeemStore;
  }

  lemma RevokeShrinks(db: Db, id: Uuid, admin: Uuid, caller: Caller, at: Moment)
    ensures SharesShrink(db.shares, RevokeStore(db, id, admin, caller, at).db.shares)
  {
  }

  lemma StepKeepsInv(p: Provider, kek: Key, db: Db, op: Op, uploads: map<Uuid, Bytes>, record: set<GcmInput>)
    requires DbInv(p, kek, db, uploads) && Correct(p, record) && SealedIn(kek, op) <= record
    requires op.CreateShare? ==> op.draw.printId !in uploads
    ensures var uploads' := if op.CreateShare? then uploads[op.draw.printId := op.share.printBytes] else uploads;
      DbInv(p, kek, StorePart(p, kek, db, op).db, uploads')
  {
    hide DbInv, LoginStore, LogoutStore, AuthenticateStore, CreateStore, RedeemStore, DisableStore, DeleteStore,
         RevokeStore, EndSessionsStore, PurgeSharesStore, PurgeSessionsStore;
    var db' := StorePart(p, kek, db, op).db;
    match op
    case CreateShare(r, d, at) => CreateKeepsInv(p, kek, db, uploads, record, r, d, at);
    case DeletePrint(id, at) => DeleteStoreKeepsInv(p, kek, db, id, at, uploads);
    case DisableVendor(id, at) => DisableKeepsInv(p, kek, db, id, at, uploads);
    case RedeemShare(r, at) =>
      RedeemShrinks(p, kek, db, r, at);
      SharesKeepInv(p, kek, db, db', uploads);
    case RevokeShare(id, admin, caller, at) =>
      RevokeShrinks(db, id, admin, caller, at);
      SharesKeepInv(p, kek, db, db', uploads);
    case PurgeShares(_, _) => SharesKeepInv(p, kek, db, db', uploads);
    case _ => SessionsKeepInv(p, kek, db, db', uploads);
  }

  lemma DeleteStoreKeepsInv(p: Provider, kek: Key, db: Db, id: Uuid, at: Moment, uploads: map<Uuid, Bytes>)
    requires DbInv(p, kek, db, uploads)
    ensures DbInv(p, kek, DeleteStore(db, id, at).db, uploads)
  {
    DeleteKeepsInv(p, kek, db, id, at.weather, uploads);
  }

  lemma {:induction false} NotUploaded(ops: seq<Op>, id: Uuid)
    requires forall i | 0 <= i < |ops| && ops[i].CreateShare? :: ops[i].draw.printId != id
    ensures id !in Uploads(ops)
  {
    if ops != [] {
      NotUploaded(ops[..|ops| - 1], id);
    }
  }

  lemma {:induction false} RunKeepsInv(p: Provider, kek: Key, w: World, ops: seq<Op>, record: set<GcmInput>)
    requires w.db.vendors == map[] && w.db.prints == map[] && w.db.shares == map[]
    requires FreshPrints(ops) && Correct(p, record) && Record(kek, ops) <= record
    ensures DbInv(p, kek, Run(p, kek, w, ops).0.db, Uploads(ops))
    decreases |ops|
  {
    if ops == [] {
      hide Apply;
    } else {
      hide DbInv, StorePart;
      var init, op := ops[..|ops| - 1], ops[|ops| - 1];
      RunKeepsInv(p, kek, w, init, record);
      if op.CreateShare? {
        NotUploaded(init, op.draw.printId);
      }
      StepKeepsInv(p, kek, Run(p, kek, w, init).0.db, op, Uploads(init), record);
    }
  }

  /**
   After any run in which any file or database call may fail, share creations stopping midway included:
   every share's print and vendor exist, there is at most one active vendor per address, and every print
   row has its file and reads back as exactly what was uploaded under its id.
   */
  lemma RunIntegrity(p: Provider, kek: Key, w: World, ops: seq<Op>)
    requires w.db.vendors == map[] && w.db.prints == map[] && w.db.shares == map[]
    requires FreshPrints(ops) && Correct(p, Record(kek, ops))
    ensures var db := Run(p, kek, w, ops).0.db;
      && SharesRefer(db)
      && OneActiveVendor(db.vendors)
      && (forall id | id in db.prints ::
            && BlobPath(id) in db.blobs && id in Uploads(ops)
            && ReadBlob(p, kek, db, id, NoCall) == Ok(Uploads(ops)[id]))
  {
    hide Run, DbInv, ReadBlob;
    RunKeepsInv(p, kek, w, ops, Record(kek, ops));
    InvReads(p, kek, Run(p, kek, w, ops).0.db, Uploads(ops));
  }

  /**
   Reading a print, exit by exit: the row, the file at its path, the key it wraps, and the text that key opens under
   the row's own id, if it is the text the row has the hash of. That hash is checked even of what opens.
   */
  lemma ReadExactly(p: Provider, kek: Key, db: Db, id: Uuid, failing: Call)
    ensures ReadBlob(p, kek, db, id, failing)
         == if failing == RowRead then Err(Sqlite)
            else if id !in db.prints then Err(NotFound)
            else
              var row := db.prints[id];
              if failing == FileRead || row.blobPath !in db.blobs then Err(Io)
              else if failing == BlobOpen || failing == OpenedHash || |row.dekWrapped| != 60 then Err(CryptoFailed)
              else
                var w := row.dekWrapped;
                var dek := p.decrypt(kek, w[..12], "", w[28..], w[12..28]);
                if dek.None? || |dek.value| != 32 then Err(CryptoFailed)
                else
                  var text := p.decrypt(dek.value, row.nonce, row.id, db.blobs[row.blobPath], row.tag);
                  if text.None? || p.shaBytes(text.value) != row.sha then Err(CryptoFailed) else Ok(text.value)
  {
  }

  // ----- files without rows ---------------------------------------------------------------

  /** Every file is one that was there before, or stands at the path of an upload. */
  ghost predicate FilesKnown(before: Blobs, blobs: Blobs, uploads: map<Uuid, Bytes>) {
    forall path | path in blobs :: path in before || exists id :: id in uploads && path == BlobPath(id)
  }

  lemma DeleteFiles(before: Blobs, db: Db, id: Uuid, at: Moment, uploads: map<Uuid, Bytes>)
    requires FilesKnown(before, db.blobs, uploads)
    ensures FilesKnown(before, DeleteStore(db, id, at).db.blobs, uploads)
  {
    hide BlobPath;
  }

  lemma CreateFiles(p: Provider, kek: Key, before: Blobs, db: Db, r: NewShareRequest, d: Draw, at: Moment,
                    uploads: map<Uuid, Bytes>)
    requires FilesKnown(before, db.blobs, uploads)
    ensures FilesKnown(before, CreateStore(p, kek, db, r, d, at).db.blobs, uploads[d.printId := r.printBytes])
  {
    CreateParts(p, kek, db, r, d, at);
    hide CreateStore, PickVendor, CreateRow, InsertResult, InsertLeaves, SealedText, BlobPath;
    assert d.printId in uploads[d.printId := r.printBytes];
    forall id | id in uploads ensures id in uploads[d.printId := r.printBytes] {}
  }

  lemma StepFiles(p: Provider, kek: Key, before: Blobs, db: Db, op: Op, uploads: map<Uuid, Bytes>)
    requires FilesKnown(before, db.blobs, uploads)
    ensures var uploads' := if op.CreateShare? then uploads[op.draw.printId := op.share.printBytes] else uploads;
      FilesKnown(before, StorePart(p, kek, db, op).db.blobs, uploads')
  {
    hide FilesKnown, LoginStore, LogoutStore, AuthenticateStore, CreateStore, RedeemStore, DeleteStore,
         RevokeStore, EndSessionsStore, PurgeSharesStore, PurgeSessionsStore, Tables.DisableVendor;
    match op
    case CreateShare(r, d, at) => CreateFiles(p, kek, before, db, r, d, at, uploads);
    case DeletePrint(id, at) => DeleteFiles(before, db, id, at, uploads);
    case _ =>
  }

  /**
   Only orphans remain. Whatever fails in a run, and without any assumption on ids, a file it leaves was there
   before or stands at the path of an upload of the run: its row's, or that of an upload that failed or was deleted.
   */
  lemma {:induction false} RunLeavesOnlyUploads(p: Provider, kek: Key, w: World, ops: seq<Op>)
    ensures FilesKnown(w.db.blobs, Run(p, kek, w, ops).0.db.blobs, Uploads(ops))
    decreases |ops|
  {
    if ops == [] {
      hide Apply;
    } else {
      hide FilesKnown, StorePart;
      RunLeavesOnlyUploads(p, kek, w, ops[..|ops| - 1]);
      StepFiles(p, kek, w.db.blobs, Run(p, kek, w, ops[..|ops| - 1]).0.db, ops[|ops| - 1], Uploads(ops[..|ops| - 1]));
    }
  }

  lemma InvReads(p: Provider, kek: Key, db: Db, uploads: map<Uuid, Bytes>)
    requires DbInv(p, kek, db, uploads)
    ensures SharesRefer(db) && OneActiveVendor(db.vendors)
    ensures forall id | id in db.prints ::
      BlobPath(id) in db.blobs && id in uploads && ReadBlob(p, kek, db, id, NoCall) == Ok(uploads[id])
  {
    hide ReadPrint;
    forall id | id in db.prints
      ensures BlobPath(id) in db.blobs && id in uploads && ReadBlob(p, kek, db, id, NoCall) == Ok(uploads[id])
    {
      assert PrintAgrees(p, kek, db, uploads, id);
    }
  }

  // ----- rearranged records -----------------------------------------------------------

  lemma {:induction false} SealedUnderId(kek: Key, ops: seq<Op>, i: GcmInput)
    requires i in Record(kek, ops) && |i.aad| == 36 && FreshPrints(ops)
    ensures i.aad in Uploads(ops) && Uploads(ops)[i.aad] == i.plaintext
  {
    var init, op := ops[..|ops| - 1], ops[|ops| - 1];
    if i in Record(kek, init) {
      SealedUnderId(kek, init, i);
      if op.CreateShare? {
        NotUploaded(init, op.draw.printId);
      }
    }
  }

  /**
   Record transplants are rejected. Whatever has become of the rows' key, nonce, tag and path columns and
   of the files in the directory (any rearrangement, and more), reading print `id` either fails or returns
   the file originally uploaded under `id`: the DEK wrapping has empty AAD, so a wrapped key may move, but
   the file's own AAD is the row's id. Nothing but ideal authenticity of what the run sealed is assumed.
   */
  lemma TransplantRejected(p: Provider, kek: Key, ops: seq<Op>, db: Db, id: Uuid, failing: Call)
    requires FreshPrints(ops) && Authentic(p, Record(kek, ops))
    requires id in db.prints ==> db.prints[id].id == id
    ensures var r := ReadBlob(p, kek, db, id, failing);
      r.Ok? ==> id in Uploads(ops) && r.value == Uploads(ops)[id]
  {
    var r := ReadBlob(p, kek, db, id, failing);
    if r.Ok? {
      var row := db.prints[id];
      var dek := Unwrap(p, kek, row.dekWrapped).value;
      var i := GcmInput(dek, row.nonce, id, r.value);
      assert i in Record(kek, ops) by {
        var s := Sealed(row.nonce, db.blobs[row.blobPath], row.tag);
        assert p.decrypt(dek, s.nonce, id, s.ciphertext, s.tag) == Some(r.value);
      }
      SealedUnderId(kek, ops, i);
    }
  }
}
