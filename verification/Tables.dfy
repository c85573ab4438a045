/** The rows of the database and the blob directory, as values. */
module Tables {
  import opened Basics
  import opened Clock
  import opened Crypto

  datatype User = User(
    id: Uuid, email: string, passwordHash: Digest, passwordSalt: Bytes, passwordIters: nat,
    disabledAt: Option<int>)

  datatype Vendor = Vendor(
    id: Uuid, displayName: string, email: string, phone: Option<string>, createdBy: Uuid,
    createdAt: int, disabledAt: Option<int>)

  datatype Print = Print(
    id: Uuid, filename: string, size: nat, sha: Digest, blobPath: string, dekWrapped: Bytes,
    nonce: Nonce, tag: Bytes, uploadedBy: Uuid, uploadedAt: int, attested: bool)

  datatype Share = Share(
    id: Uuid, printId: Uuid, vendorId: Uuid, tokenHash: Digest, codeHash: Digest, expiresAt: int,
    maxDownloads: nat, downloadCount: nat, note: Option<string>, createdBy: Uuid, createdAt: int,
    revokedAt: Option<int>)

  datatype Session = Session(
    idHash: Digest, userId: Uuid, csrf: Bytes, ip: string, userAgent: string, expiresAt: int, lastSeenAt: int)

  type Users = map<Uuid, User>
  type Vendors = map<Uuid, Vendor>
  type Prints = map<Uuid, Print>
  type Shares = map<Uuid, Share>
  type Sessions = map<Digest, Session>
  type Blobs = map<string, Bytes>

  /** Everything behind the store lock. */
  datatype Db = Db(
    users: Users, vendors: Vendors, prints: Prints, shares: Shares, sessions: Sessions, blobs: Blobs)

  /** The call that fails in an operation, if one does; every one of them returns early. */
  datatype Call =
    | NoCall
    | UserFind | SessionInsert | SessionFind | SessionTouch | SessionDelete
    | VendorFind | VendorInsert
    | PlaintextHash | DekDraw | BlobSeal | KeyWrap | DirMake | BlobWrite | PrintInsert
    | SecretDraw | ShareInsert
    | TokenHash | ShareFind | CodeHash | SlotConsume | PrintFind
    | RowRead | FileRead | BlobOpen | OpenedHash
    | RowUpdate | RowsDelete

  datatype StorageError = Sqlite | Io | CryptoFailed | NotFound

  // ----- users.rs -----------------------------------------------------------------

  predicate PasswordFits(p: Provider, u: User, password: string) {
    u.disabledAt.None? && p.pbkdf2(password, u.passwordSalt, u.passwordIters) == u.passwordHash
  }

  // ----- vendors.rs ---------------------------------------------------------------

  ghost predicate IsActiveVendor(vs: Vendors, id: Uuid, email: string) {
    id in vs && vs[id].email == email && vs[id].disabledAt.None?
  }

  ghost function VendorByEmail(vs: Vendors, email: string): (r: Option<Uuid>)
    ensures r.Some? ==> IsActiveVendor(vs, r.value, email)
    ensures r.None? ==> forall id :: !IsActiveVendor(vs, id, email)
  {
    if id :| IsActiveVendor(vs, id, email) then Some(id) else None
  }

  ghost predicate OneActiveVendor(vs: Vendors) {
    forall a, b, email | IsActiveVendor(vs, a, email) && IsActiveVendor(vs, b, email) :: a == b
  }

  /** The schema's constraints on a vendor row. */
  predicate VendorInsertable(users: Users, vs: Vendors, v: Vendor) {
    v.id !in vs && v.createdBy in users
  }

  function DisableVendor(vs: Vendors, id: Uuid, nowMs: int): Result<Vendors, StorageError> {
    if id in vs && vs[id].disabledAt.None?
    then Ok(vs[id := vs[id].(disabledAt := Some(nowMs))])
    else Err(NotFound)
  }

  // ----- shares.rs ----------------------------------------------------------------

  predicate ShareInsertable(db: Db, s: Share) {
    && s.id !in db.shares && s.printId in db.prints && s.vendorId in db.vendors && s.createdBy in db.users
    && forall id | id in db.shares :: db.shares[id].tokenHash != s.tokenHash
  }

  /** The UNIQUE constraint on token hashes. */
  ghost predicate DistinctTokens(ss: Shares) {
    forall x, y | x in ss && y in ss && ss[x].tokenHash == ss[y].tokenHash :: x == y
  }

  ghost predicate HasTokenHash(ss: Shares, id: Uuid, h: Digest) {
    id in ss && ss[id].tokenHash == h
  }

  ghost function ShareByTokenHash(ss: Shares, h: Digest): (r: Option<Uuid>)
    ensures r.Some? ==> HasTokenHash(ss, r.value, h)
    ensures r.None? ==> forall id :: !HasTokenHash(ss, id, h)
  {
    if id :| HasTokenHash(ss, id, h) then Some(id) else None
  }

  /** The WHERE clause of `try_consume_download`. */
  predicate Consumable(s: Share, nowMs: int) {
    s.revokedAt.None? && s.expiresAt > nowMs && s.downloadCount < s.maxDownloads
  }

  /** One conditional UPDATE: the count and the decision together. */
  function TryConsume(ss: Shares, id: Uuid, nowMs: int): (Shares, bool) {
    if id in ss && Consumable(ss[id], nowMs)
    then (ss[id := ss[id].(downloadCount := ss[id].downloadCount + 1)], true)
    else (ss, false)
  }

  function RevokeShare(ss: Shares, id: Uuid, nowMs: int): Result<Shares, StorageError> {
    if id in ss && ss[id].revokedAt.None?
    then Ok(ss[id := ss[id].(revokedAt := Some(nowMs))])
    else Err(NotFound)
  }

  function PurgeShares(ss: Shares, cutoffMs: int): Shares {
    map id | id in ss && ss[id].expiresAt >= cutoffMs :: ss[id]
  }

  /** A u64 number of seconds taken `as i64`. */
  function SignedSeconds(grace: nat): int {
    if grace < 0x8000_0000_0000_0000 then grace else grace - 0x1_0000_0000_0000_0000
  }

  function PurgeCutoff(now: int, grace: nat): int {
    Millis(now - SignedSeconds(grace) * NANOS_PER_SECOND)
  }

  /** The unique columns, and one active vendor per address: a query by one of them finds one row at most. */
  ghost predicate Determined(db: Db) {
    && (forall a, b | a in db.users && b in db.users && db.users[a].email == db.users[b].email :: a == b)
    && OneActiveVendor(db.vendors)
    && DistinctTokens(db.shares)
  }

  // ----- sessions.rs --------------------------------------------------------------

  predicate SessionInsertable(db: Db, s: Session) {
    s.idHash !in db.sessions && s.userId in db.users
  }

  function FindSession(ss: Sessions, h: Digest, nowMs: int): Option<Session> {
    if h in ss && ss[h].expiresAt > nowMs then Some(ss[h]) else None
  }

  function TouchSession(ss: Sessions, h: Digest, nowMs: int): Sessions {
    if h in ss then ss[h := ss[h].(lastSeenAt := nowMs)] else ss
  }

  function RevokeUserSessions(ss: Sessions, user: Uuid): Sessions {
    map h | h in ss && ss[h].userId != user :: ss[h]
  }

  function PurgeSessions(ss: Sessions, nowMs: int): Sessions {
    map h | h in ss && ss[h].expiresAt >= nowMs :: ss[h]
  }

  // ----- prints.rs ----------------------------------------------------------------

  /** `{first byte in hex}/{uuid}.enc`; the text of a UUID starts with its first byte in hex. */
  function BlobPath(id: Uuid): string {
    id[..2] + "/" + (id + ".enc")
  }

  lemma BlobPathInjective(a: Uuid, b: Uuid)
    requires BlobPath(a) == BlobPath(b)
    ensures a == b
  {
    assert BlobPath(a)[3..][..36] == a && BlobPath(b)[3..][..36] == b;
  }

  /** An upload with the randomness drawn for it. */
  datatype Upload = Upload(
    id: Uuid, filename: string, plaintext: Bytes, uploadedBy: Uuid, attested: bool,
    dek: Key, nonce: Nonce, wrapNonce: Nonce, nowMs: int)

  function PrintRow(p: Provider, kek: Key, u: Upload): Print {
    var s := Seal(p, u.dek, u.nonce, u.id, u.plaintext);
    Print(u.id, u.filename, |u.plaintext|, ContentSha(p, u.plaintext), BlobPath(u.id),
          Wrapped(p, kek, u.dek, u.wrapNonce), s.nonce, s.tag, u.uploadedBy, u.nowMs, u.attested)
  }

  predicate PrintInsertable(db: Db, u: Upload) {
    u.id !in db.prints && u.uploadedBy in db.users
  }

  /** How the calls of one operation turn out: what a failed file write leaves, whether clean-up works. */
  datatype Weather = Weather(failing: Call, torn: Option<Bytes>, cleanup: bool)

  function Put(bs: Blobs, path: string, content: Option<Bytes>): Blobs {
    if content.None? then bs - {path} else bs[path := content.value]
  }

  function SealedText(p: Provider, u: Upload): Bytes {
    Seal(p, u.dek, u.nonce, u.id, u.plaintext).ciphertext
  }

  /** Whether the upload succeeds: the calls in their order, then the row's constraints. */
  function InsertResult(p: Provider, kek: Key, insertable: bool, u: Upload, w: Weather): Result<Print, StorageError> {
    if w.failing == PlaintextHash || w.failing == DekDraw || w.failing == BlobSeal || w.failing == KeyWrap
    then Err(CryptoFailed)
    else if w.failing == DirMake || w.failing == BlobWrite then Err(Io)
    else if w.failing == PrintInsert || !insertable then Err(Sqlite)
    else Ok(PrintRow(p, kek, u))
  }

  /** What an upload leaves at its path: nothing touched, or some content, or no file. */
  function InsertLeaves(p: Provider, u: Upload, w: Weather, ok: bool): Option<Option<Bytes>> {
    if ok then Some(Some(SealedText(p, u)))
    else if w.failing == PlaintextHash || w.failing == DekDraw || w.failing == BlobSeal || w.failing == KeyWrap
            || w.failing == DirMake then None
    else if w.failing == BlobWrite then Some(w.torn)
    else if w.cleanup then Some(None)
    else Some(Some(SealedText(p, u)))
  }

  function Leave(bs: Blobs, path: string, left: Option<Option<Bytes>>): Blobs {
    if left.None? then bs else Put(bs, path, left.value)
  }

  /** `PrintStore::insert`: the file first, then the row, and the file away again if the row fails. */
  function InsertPrint(p: Provider, kek: Key, db: Db, u: Upload, w: Weather): (r: (Db, Result<Print, StorageError>))
    ensures r.0 == db.(blobs := r.0.blobs, prints := r.0.prints)
  {
    var r := InsertResult(p, kek, PrintInsertable(db, u), u, w);
    (db.(blobs := Leave(db.blobs, BlobPath(u.id), InsertLeaves(p, u, w, r.Ok?)),
         prints := if r.Ok? then db.prints[u.id := r.value] else db.prints), r)
  }

  /** `PrintStore::read_blob` where no I/O call fails: the row's own bytes decide. */
  function ReadPrint(p: Provider, kek: Key, row: Print, blob: Option<Bytes>): Result<Bytes, StorageError> {
    if blob.None? then Err(Io)
    else
      var dek := Unwrap(p, kek, row.dekWrapped);
      if dek.None? then Err(CryptoFailed)
      else
        var pt := Open(p, dek.value, row.id, Sealed(row.nonce, blob.value, row.tag));
        if pt.None? || ContentSha(p, pt.value) != row.sha then Err(CryptoFailed) else Ok(pt.value)
  }

  function BlobAt(db: Db, path: string): Option<Bytes> {
    if path in db.blobs then Some(db.blobs[path]) else None
  }

  function ReadBlob(p: Provider, kek: Key, db: Db, id: Uuid, failing: Call): Result<Bytes, StorageError> {
    if failing == RowRead then Err(Sqlite)
    else if id !in db.prints then Err(NotFound)
    else if failing == FileRead then Err(Io)
    else
      var blob := BlobAt(db, db.prints[id].blobPath);
      if blob.Some? && (failing == BlobOpen || failing == OpenedHash) then Err(CryptoFailed)
      else ReadPrint(p, kek, db.prints[id], blob)
  }

  predicate IsReferenced(db: Db, printId: Uuid) {
    exists id | id in db.shares :: db.shares[id].printId == printId
  }

  /** `PrintStore::delete`: the row first (the foreign key may refuse), then the file, at best effort. */
  function DeletePrint(db: Db, id: Uuid, w: Weather): (r: (Db, Result<(), StorageError>))
    ensures r.0 == db.(blobs := r.0.blobs, prints := if r.1.Ok? then db.prints - {id} else db.prints)
  {
    if w.failing == RowRead then (db, Err(Sqlite))
    else if id !in db.prints then (db, Err(NotFound))
    else if w.failing == RowsDelete || IsReferenced(db, id) then (db, Err(Sqlite))
    else
      var path := db.prints[id].blobPath;
      (db.(prints := db.prints - {id},
           blobs := if w.cleanup then Put(db.blobs, path, None) else db.blobs), Ok(()))
  }
}
