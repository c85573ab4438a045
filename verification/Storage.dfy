/**
 The store as the object it is: six tables and the blob directory, changed in place one statement or file
 call at a time. Every method is proved to do to them exactly what the table functions say.
 */
module Storage {
  import opened Basics
  import opened Clock
  import opened Crypto
  import opened Mac
  import opened Tables

  /** Deleting the rows a condition names is keeping the others. */
  lemma SessionsWithout(ss: Sessions, user: Uuid, nowMs: int)
    ensures ss - (set h | h in ss && ss[h].userId == user) == RevokeUserSessions(ss, user)
    ensures ss - (set h | h in ss && ss[h].expiresAt < nowMs) == PurgeSessions(ss, nowMs)
  {
  }

  lemma SharesWithout(ss: Shares, cutoffMs: int)
    ensures ss - (set id | id in ss && ss[id].expiresAt < cutoffMs) == PurgeShares(ss, cutoffMs)
  {
  }

  lemma MissingFile(p: Provider, kek: Key)
    ensures forall f: Print :: ReadPrint(p, kek, f, None) == Err(Io)
  {
  }

  /** The decrypting half of `read_blob`: the wrapped key, the text, and its hash against the row's. */
  method OpenPrint(p: Provider, kek: Key, f: Print, blob: Bytes) returns (r: Result<Bytes, StorageError>)
    ensures r == ReadPrint(p, kek, f, Some(blob))
  {
    hide Unwrap, Crypto.Open, ContentSha;
    var dek := Unwrap(p, kek, f.dekWrapped);
    if dek.None? {
      return Err(CryptoFailed);
    }
    var text := Crypto.Open(p, dek.value, f.id, Sealed(f.nonce, blob, f.tag));
    if text.None? {
      return Err(CryptoFailed);
    }
    if ContentSha(p, text.value) != f.sha {
      return Err(CryptoFailed);
    }
    return Ok(text.value);
  }

  /** What is put at a path replaces what was put there before. */
  lemma PutTwice(bs: Blobs, path: string, before: Option<Bytes>, after: Option<Bytes>)
    ensures Put(Put(bs, path, before), path, after) == Put(bs, path, after)
  {
  }

  /** What an upload leaves and answers, exit by exit. */
  lemma InsertExits(p: Provider, kek: Key, db: Db, u: Upload, w: Weather)
    ensures var x, path, text := Tables.InsertPrint(p, kek, db, u, w), BlobPath(u.id), SealedText(p, u);
      if w.failing == PlaintextHash || w.failing == DekDraw || w.failing == BlobSeal || w.failing == KeyWrap
      then x == (db, Err(CryptoFailed))
      else if w.failing == DirMake then x == (db, Err(Io))
      else if w.failing == BlobWrite then x == (db.(blobs := Put(db.blobs, path, w.torn)), Err(Io))
      else if w.failing == PrintInsert || !PrintInsertable(db, u)
      then x == (db.(blobs := Put(db.blobs, path, if w.cleanup then None else Some(text))), Err(Sqlite))
      else x == (db.(blobs := Put(db.blobs, path, Some(text)), prints := db.prints[u.id := PrintRow(p, kek, u)]),
                 Ok(PrintRow(p, kek, u)))
  {
    hide Wrapped, BlobPath, ContentSha, Crypto.Seal, SealedText, PrintRow;
  }

  class Store {
    var users: Users
    var vendors: Vendors
    var prints: Prints
    var shares: Shares
    var sessions: Sessions
    var blobs: Blobs

    constructor (db: Tables.Db)
      ensures Db() == db
    {
      users, vendors, prints, shares, sessions, blobs :=
        db.users, db.vendors, db.prints, db.shares, db.sessions, db.blobs;
    }

    function Db(): Tables.Db
      reads this
    {
      Tables.Db(users, vendors, prints, shares, sessions, blobs)
    }

    // ----- users.rs -----------------------------------------------------------------

    /** Some row with that address; which one is the database's choice. */
    method FindUserByEmail(email: string) returns (id: Option<Uuid>)
      ensures id.Some? ==> id.value in users && users[id.value].email == email
      ensures id.None? ==> forall u | u in users :: users[u].email != email
    {
      if u :| u in users && users[u].email == email {
        return Some(u);
      }
      return None;
    }

    /** `verify_password`: no such address, a disabled user and a wrong password all answer None. */
    method VerifyPassword(p: Provider, email: string, password: string, failing: Call)
      returns (r: Result<Option<Uuid>, StorageError>)
      requires Determined(Db())
      ensures r.Err? <==> failing == UserFind
      ensures r.Ok? ==> forall id :: r.value == Some(id) <==>
        && id in users && users[id].email == email && users[id].disabledAt.None?
        && p.pbkdf2(password, users[id].passwordSalt, users[id].passwordIters) == users[id].passwordHash
    {
      if failing == UserFind {
        return Err(Sqlite);
      }
      var id := FindUserByEmail(email);
      assert forall u | u in users && users[u].email == email :: id == Some(u);
      if id.None? {
        return Ok(None);
      }
      var user := users[id.value];
      if user.disabledAt.Some? {
        return Ok(None);
      }
      var candidate := p.pbkdf2(password, user.passwordSalt, user.passwordIters);
      var equal := ConstantTimeEq(candidate, user.passwordHash);
      return Ok(if equal then id else None);
    }

    // ----- vendors.rs ---------------------------------------------------------------

    method FindVendorByEmail(email: string, failing: Call) returns (r: Result<Option<Uuid>, StorageError>)
      ensures r.Err? <==> failing == VendorFind
      ensures r.Ok? && r.value.Some? ==>
        var id := r.value.value; id in vendors && vendors[id].email == email && vendors[id].disabledAt.None?
      ensures r.Ok? && r.value.None? ==>
        forall id | id in vendors :: vendors[id].email != email || vendors[id].disabledAt.Some?
    {
      if failing == VendorFind {
        return Err(Sqlite);
      }
      if id :| id in vendors && vendors[id].email == email && vendors[id].disabledAt.None? {
        return Ok(Some(id));
      }
      return Ok(None);
    }

    method CreateVendor(v: Vendor, failing: Call) returns (r: Result<Vendor, StorageError>)
      modifies this`vendors
      ensures r == if failing != VendorInsert && v.id !in old(vendors) && v.createdBy in users then Ok(v)
                   else Err(Sqlite)
      ensures vendors == if r.Ok? then old(vendors)[v.id := v] else old(vendors)
    {
      if failing == VendorInsert || v.id in vendors || v.createdBy !in users {
        return Err(Sqlite);
      }
      vendors := vendors[v.id := v];
      return Ok(v);
    }

    /** One conditional UPDATE; no row affected is an error. */
    method DisableVendor(id: Uuid, now: int, failing: Call) returns (r: Result<(), StorageError>)
      modifies this`vendors
      ensures var vs := old(vendors);
        if failing != RowUpdate && id in vs && vs[id].disabledAt.None?
        then r == Ok(()) && vendors == vs[id := vs[id].(disabledAt := Some(Millis(now)))]
        else r == Err(if failing == RowUpdate then Sqlite else NotFound) && vendors == vs
    {
      if failing == RowUpdate {
        return Err(Sqlite);
      }
      if id !in vendors || vendors[id].disabledAt.Some? {
        return Err(NotFound);
      }
      vendors := vendors[id := vendors[id].(disabledAt := Some(Millis(now)))];
      return Ok(());
    }

    // ----- shares.rs ----------------------------------------------------------------

    method CreateShare(s: Share, failing: Call) returns (r: Result<Share, StorageError>)
      modifies this`shares
      ensures r == if failing != SecretDraw && failing != ShareInsert
                      && s.id !in old(shares) && s.printId in prints && s.vendorId in vendors && s.createdBy in users
                      && forall id | id in old(shares) :: old(shares)[id].tokenHash != s.tokenHash
                   then Ok(s) else Err(if failing == SecretDraw then CryptoFailed else Sqlite)
      ensures shares == if r.Ok? then old(shares)[s.id := s] else old(shares)
    {
      if failing == SecretDraw {
        return Err(CryptoFailed);
      }
      var same := exists id | id in shares :: shares[id].tokenHash == s.tokenHash;
      if failing == ShareInsert || s.id in shares || s.printId !in prints || s.vendorId !in vendors
         || s.createdBy !in users || same {
        return Err(Sqlite);
      }
      shares := shares[s.id := s];
      return Ok(s);
    }

    method FindShareByTokenHash(h: Digest, failing: Call) returns (r: Result<Option<Uuid>, StorageError>)
      ensures r.Err? <==> failing == ShareFind
      ensures r.Ok? && r.value.Some? ==> r.value.value in shares && shares[r.value.value].tokenHash == h
      ensures r.Ok? && r.value.None? ==> forall id | id in shares :: shares[id].tokenHash != h
    {
      if failing == ShareFind {
        return Err(Sqlite);
      }
      if id :| id in shares && shares[id].tokenHash == h {
        return Ok(Some(id));
      }
      return Ok(None);
    }

    /** The row is counted up and the caller told so, or nothing happens and the caller is told that. */
    method TryConsumeDownload(id: Uuid, now: int, failing: Call) returns (r: Result<bool, StorageError>)
      modifies this`shares
      ensures if failing == SlotConsume then r == Err(Sqlite) && shares == old(shares)
              else r.Ok? && (shares, r.value) == TryConsume(old(shares), id, Millis(now))
      ensures r.Ok? ==>
        var ss := old(shares);
        var free := id in ss && ss[id].revokedAt.None? && ss[id].expiresAt > Millis(now)
                    && ss[id].downloadCount < ss[id].maxDownloads;
        r.value == free && shares == if free then ss[id := ss[id].(downloadCount := ss[id].downloadCount + 1)] else ss
    {
      if failing == SlotConsume {
        return Err(Sqlite);
      }
      if id in shares {
        var s := shares[id];
        if s.revokedAt.None? && s.expiresAt > Millis(now) && s.downloadCount < s.maxDownloads {
          shares := shares[id := s.(downloadCount := s.downloadCount + 1)];
          return Ok(true);
        }
      }
      return Ok(false);
    }

    method RevokeShare(id: Uuid, now: int, failing: Call) returns (r: Result<(), StorageError>)
      modifies this`shares
      ensures var ss := old(shares);
        if failing != RowUpdate && id in ss && ss[id].revokedAt.None?
        then r == Ok(()) && shares == ss[id := ss[id].(revokedAt := Some(Millis(now)))]
        else r == Err(if failing == RowUpdate then Sqlite else NotFound) && shares == ss
    {
      if failing == RowUpdate {
        return Err(Sqlite);
      }
      if id !in shares || shares[id].revokedAt.Some? {
        return Err(NotFound);
      }
      shares := shares[id := shares[id].(revokedAt := Some(Millis(now)))];
      return Ok(());
    }

    /** The cutoff is `now` less the grace period, a u64 of seconds taken as i64. */
    method PurgeExpiredShares(now: int, grace: nat, failing: Call) returns (r: Result<nat, StorageError>)
      modifies this`shares
      ensures r.Err? <==> failing == RowsDelete
      ensures shares == if r.Ok? then PurgeShares(old(shares), PurgeCutoff(now, grace)) else old(shares)
      ensures r.Ok? ==> forall id ::
        id in shares <==> id in old(shares) && old(shares)[id].expiresAt >= PurgeCutoff(now, grace)
      ensures r.Ok? ==> r.value == |old(shares).Keys - shares.Keys|
    {
      if failing == RowsDelete {
        return Err(Sqlite);
      }
      var cutoff := PurgeCutoff(now, grace);
      var gone := set id | id in shares && shares[id].expiresAt < cutoff;
      SharesWithout(shares, cutoff);
      hide PurgeShares;
      shares := shares - gone;
      assert old(shares).Keys - shares.Keys == gone;
      return Ok(|gone|);
    }

    // ----- sessions.rs --------------------------------------------------------------

    method CreateSession(s: Session, failing: Call) returns (r: Result<Session, StorageError>)
      modifies this`sessions
      ensures r == if failing != SessionInsert && s.idHash !in old(sessions) && s.userId in users then Ok(s)
                   else Err(Sqlite)
      ensures sessions == if r.Ok? then old(sessions)[s.idHash := s] else old(sessions)
    {
      if failing == SessionInsert || s.idHash in sessions || s.userId !in users {
        return Err(Sqlite);
      }
      sessions := sessions[s.idHash := s];
      return Ok(s);
    }

    /** The session as it was, its row stamped with the time of use. */
    method FindValidSession(h: Digest, now: int, failing: Call) returns (r: Result<Option<Session>, StorageError>)
      modifies this`sessions
      ensures var found := FindSession(old(sessions), h, Millis(now));
        if failing == SessionFind || (failing == SessionTouch && found.Some?)
        then r.Err? && sessions == old(sessions)
        else r == Ok(found)
             && sessions == if found.Some? then TouchSession(old(sessions), h, Millis(now)) else old(sessions)
      ensures r.Ok? ==>
        var ss := old(sessions);
        if h in ss && ss[h].expiresAt > Millis(now)
        then r.value == Some(ss[h]) && sessions == ss[h := ss[h].(lastSeenAt := Millis(now))]
        else r.value == None && sessions == ss
    {
      if failing == SessionFind {
        return Err(Sqlite);
      }
      if h !in sessions || sessions[h].expiresAt <= Millis(now) {
        return Ok(None);
      }
      if failing == SessionTouch {
        return Err(Sqlite);
      }
      var s := sessions[h];
      sessions := sessions[h := s.(lastSeenAt := Millis(now))];
      return Ok(Some(s));
    }

    method RevokeSession(h: Digest, failing: Call) returns (r: Result<(), StorageError>)
      modifies this`sessions
      ensures r.Err? <==> failing == SessionDelete
      ensures sessions == if r.Ok? then old(sessions) - {h} else old(sessions)
    {
      if failing == SessionDelete {
        return Err(Sqlite);
      }
      sessions := sessions - {h};
      return Ok(());
    }

    method RevokeAllForUser(user: Uuid, failing: Call) returns (r: Result<nat, StorageError>)
      modifies this`sessions
      ensures r.Err? <==> failing == RowsDelete
      ensures sessions == if r.Ok? then RevokeUserSessions(old(sessions), user) else old(sessions)
      ensures r.Ok? ==> forall h :: h in sessions <==> h in old(sessions) && old(sessions)[h].userId != user
      ensures r.Ok? ==> r.value == |old(sessions).Keys - sessions.Keys|
    {
      if failing == RowsDelete {
        return Err(Sqlite);
      }
      var gone := set h | h in sessions && sessions[h].userId == user;
      SessionsWithout(sessions, user, 0);
      hide RevokeUserSessions;
      sessions := sessions - gone;
      assert old(sessions).Keys - sessions.Keys == gone;
      return Ok(|gone|);
    }

    method PurgeExpiredSessions(now: int, failing: Call) returns (r: Result<nat, StorageError>)
      modifies this`sessions
      ensures r.Err? <==> failing == RowsDelete
      ensures sessions == if r.Ok? then PurgeSessions(old(sessions), Millis(now)) else old(sessions)
      ensures r.Ok? ==> forall h :: h in sessions <==> h in old(sessions) && old(sessions)[h].expiresAt >= Millis(now)
      ensures r.Ok? ==> r.value == |old(sessions).Keys - sessions.Keys|
    {
      if failing == RowsDelete {
        return Err(Sqlite);
      }
      var gone := set h | h in sessions && sessions[h].expiresAt < Millis(now);
      SessionsWithout(sessions, "00000000-0000-0000-0000-000000000000", Millis(now));
      hide PurgeSessions;
      sessions := sessions - gone;
      assert old(sessions).Keys - sessions.Keys == gone;
      return Ok(|gone|);
    }

    // ----- prints.rs ----------------------------------------------------------------

    /** `PrintStore::insert`, call by call: the file, then the row, and the file away again if the row fails. */
    method InsertPrint(p: Provider, kek: Key, u: Upload, w: Weather) returns (r: Result<Print, StorageError>)
      modifies this`prints, this`blobs
      ensures (Db(), r) == Tables.InsertPrint(p, kek, old(Db()), u, w)
    {
      InsertExits(p, kek, Db(), u, w);
      hide Wrapped, BlobPath, ContentSha, Crypto.Seal, Put, Leave, InsertLeaves, InsertResult, Tables.InsertPrint;
      if w.failing == PlaintextHash {
        return Err(CryptoFailed);
      }
      var sha := ContentSha(p, u.plaintext);
      if w.failing == DekDraw || w.failing == BlobSeal {
        return Err(CryptoFailed);
      }
      var sealed := Crypto.Seal(p, u.dek, u.nonce, u.id, u.plaintext);
      if w.failing == KeyWrap {
        return Err(CryptoFailed);
      }
      var dekWrapped := WrapDek(p, kek, u.dek, u.wrapNonce);
      if w.failing == DirMake {
        return Err(Io);
      }
      var path := BlobPath(u.id);
      if w.failing == BlobWrite {
        blobs := Put(blobs, path, w.torn);
        return Err(Io);
      }
      PutTwice(blobs, path, Some(sealed.ciphertext), None);
      blobs := Put(blobs, path, Some(sealed.ciphertext));
      if w.failing == PrintInsert || u.id in prints || u.uploadedBy !in users {
        if w.cleanup {
          blobs := Put(blobs, path, None);
        }
        return Err(Sqlite);
      }
      var row := Print(u.id, u.filename, |u.plaintext|, sha, path, dekWrapped, sealed.nonce, sealed.tag,
                       u.uploadedBy, u.nowMs, u.attested);
      prints := prints[u.id := row];
      return Ok(row);
    }

    method FindPrint(id: Uuid, failing: bool) returns (r: Result<Option<Print>, StorageError>)
      ensures r == if failing then Err(Sqlite) else Ok(if id in prints then Some(prints[id]) else None)
    {
      if failing {
        return Err(Sqlite);
      }
      return Ok(if id in prints then Some(prints[id]) else None);
    }

    /** `PrintStore::read_blob`, the hash of the opened text checked against the row's. */
    method ReadBlob(p: Provider, kek: Key, id: Uuid, failing: Call) returns (r: Result<Bytes, StorageError>)
      ensures r == Tables.ReadBlob(p, kek, Db(), id, failing)
    {
      MissingFile(p, kek);
      hide ReadPrint;
      var row := FindPrint(id, failing == RowRead);
      if row.Err? {
        return Err(row.error);
      }
      if row.value.None? {
        return Err(NotFound);
      }
      var f := row.value.value;
      if failing == FileRead || f.blobPath !in blobs {
        return Err(Io);
      }
      if failing == BlobOpen || failing == OpenedHash {
        return Err(CryptoFailed);
      }
      r := OpenPrint(p, kek, f, blobs[f.blobPath]);
    }

    /** `PrintStore::delete`: the row first, refused while a share refers to it, then the file at best effort. */
    method DeletePrint(id: Uuid, w: Weather) returns (r: Result<(), StorageError>)
      modifies this`prints, this`blobs
      ensures (Db(), r) == Tables.DeletePrint(old(Db()), id, w)
    {
      var row := FindPrint(id, w.failing == RowRead);
      if row.Err? {
        return Err(row.error);
      }
      if row.value.None? {
        return Err(NotFound);
      }
      if w.failing == RowsDelete || IsReferenced(Db(), id) {
        return Err(Sqlite);
      }
      prints := prints - {id};
      if w.cleanup {
        blobs := blobs - {row.value.value.blobPath};
      }
      return Ok(());
    }
  }
}
