/** A query by a unique column, or for the active vendor of an address, has one answer in every run. */
module Lookups {
  import opened Basics
  import opened Clock
  import opened Crypto
  import opened Requests
  import opened Tables
  import opened Service

  lemma SharesDetermined(db: Db, db': Db)
    requires Determined(db) && db'.users == db.users && db'.vendors == db.vendors
    requires forall id | id in db'.shares :: id in db.shares && db'.shares[id].tokenHash == db.shares[id].tokenHash
    ensures Determined(db')
  {
    forall a, b | a in db'.shares && b in db'.shares && db'.shares[a].tokenHash == db'.shares[b].tokenHash
      ensures a == b {
      assert db.shares[a].tokenHash == db.shares[b].tokenHash;
    }
  }

  lemma DisableOneActive(vs: Vendors, id: Uuid, nowMs: int)
    requires OneActiveVendor(vs) && Tables.DisableVendor(vs, id, nowMs).Ok?
    ensures OneActiveVendor(Tables.DisableVendor(vs, id, nowMs).value)
  {
    var vs' := Tables.DisableVendor(vs, id, nowMs).value;
    forall a, b, email | IsActiveVendor(vs', a, email) && IsActiveVendor(vs', b, email) ensures a == b {
      assert IsActiveVendor(vs, a, email) && IsActiveVendor(vs, b, email);
    }
  }

  lemma PickOneActive(users: Users, vs: Vendors, r: NewShareRequest, d: Draw, at: Moment)
    requires OneActiveVendor(vs)
    ensures OneActiveVendor(PickVendor(users, vs, r, d, at).0)
  {
    var vs' := PickVendor(users, vs, r, d, at).0;
    forall a, b, email | IsActiveVendor(vs', a, email) && IsActiveVendor(vs', b, email) ensures a == b {
      assert a != d.vendorId ==> IsActiveVendor(vs, a, email) || vs' == vs;
      assert b != d.vendorId ==> IsActiveVendor(vs, b, email) || vs' == vs;
    }
  }

  lemma DisableDetermined(db: Db, id: Uuid, at: Moment)
    requires Determined(db)
    ensures Determined(DisableStore(db, id, at).db)
  {
    hide OneActiveVendor, DistinctTokens, Tables.DisableVendor;
    if Tables.DisableVendor(db.vendors, id, Millis(at.now)).Ok? {
      DisableOneActive(db.vendors, id, Millis(at.now));
    }
  }

  lemma PickDetermined(db: Db, r: NewShareRequest, d: Draw, at: Moment)
    requires Determined(db)
    ensures Determined(db.(vendors := PickVendor(db.users, db.vendors, r, d, at).0))
  {
    hide OneActiveVendor, DistinctTokens, PickVendor;
    PickOneActive(db.users, db.vendors, r, d, at);
  }

  lemma RowDetermined(p: Provider, db: Db, r: NewShareRequest, d: Draw, vendor: Vendor, at: Moment)
    requires Determined(db)
    ensures Determined(CreateRow(p, db, r, d, vendor, at).db)
  {
    hide ShareTarget, CreatedMeta, Line;
    var db' := CreateRow(p, db, r, d, vendor, at).db;
    forall a, b | a in db'.shares && b in db'.shares && db'.shares[a].tokenHash == db'.shares[b].tokenHash
      ensures a == b {
      assert a in db.shares ==> db'.shares[a] == db.shares[a];
      assert b in db.shares ==> db'.shares[b] == db.shares[b];
    }
  }

  lemma CreateDetermined(p: Provider, kek: Key, db: Db, r: NewShareRequest, d: Draw, at: Moment)
    requires Determined(db)
    ensures Determined(CreateStore(p, kek, db, r, d, at).db)
  {
    hide PickVendor, InsertPrint, CreateRow, CreateStore, NewUpload, OneActiveVendor, DistinctTokens;
    PickDetermined(db, r, d, at);
    CreateParts(p, kek, db, r, d, at);
    var (vendors, vendor) := PickVendor(db.users, db.vendors, r, d, at);
    if vendor.Some? {
      var db2 := InsertPrint(p, kek, db.(vendors := vendors), NewUpload(r, d, at.now), at.weather).0;
      assert Determined(db2);
      RowDetermined(p, db2, r, d, vendor.value, at);
    }
  }

  lemma SessionsDetermined(db: Db, db': Db)
    requires Determined(db) && db' == db.(sessions := db'.sessions)
    ensures Determined(db')
  {
  }

  lemma DeleteDetermined(db: Db, id: Uuid, at: Moment)
    requires Determined(db)
    ensures Determined(DeleteStore(db, id, at).db)
  {
  }

  lemma RedeemDetermined(p: Provider, kek: Key, db: Db, r: RedeemRequest, at: Moment)
    requires Determined(db)
    ensures Determined(RedeemStore(p, kek, db, r, at).db)
  {
    hide RedeemStore;
    SharesDetermined(db, RedeemStore(p, kek, db, r, at).db);
  }

  lemma RevokeDetermined(db: Db, id: Uuid, admin: Uuid, caller: Caller, at: Moment)
    requires Determined(db)
    ensures Determined(RevokeStore(db, id, admin, caller, at).db)
  {
    hide RevokeStore;
    SharesDetermined(db, RevokeStore(db, id, admin, caller, at).db);
  }

  /** No operation, wherever it fails, leaves two active vendors for one address or two shares for one token. */
  lemma KeepsDetermined(p: Provider, kek: Key, db: Db, op: Op)
    requires Determined(db)
    ensures Determined(StorePart(p, kek, db, op).db)
  {
    hide Determined, LoginStore, LogoutStore, AuthenticateStore, CreateStore, RedeemStore, RevokeStore, DisableStore,
         DeleteStore, EndSessionsStore, PurgeSharesStore, PurgeSessionsStore;
    match op
    case CreateShare(r, d, at) => CreateDetermined(p, kek, db, r, d, at);
    case DisableVendor(id, at) => DisableDetermined(db, id, at);
    case DeletePrint(id, at) => DeleteDetermined(db, id, at);
    case RedeemShare(r, at) => RedeemDetermined(p, kek, db, r, at);
    case RevokeShare(id, admin, caller, at) => RevokeDetermined(db, id, admin, caller, at);
    case PurgeShares(_, _) => SharesDetermined(db, StorePart(p, kek, db, op).db);
    case _ => SessionsDetermined(db, StorePart(p, kek, db, op).db);
  }

  /** What `verify_password` answers is what the one user with that address answers. */
  lemma OnlyUser(p: Provider, db: Db, email: string, password: string, found: Option<Uuid>)
    requires Determined(db)
    requires forall id :: found == Some(id) <==>
      && id in db.users && db.users[id].email == email && db.users[id].disabledAt.None?
      && p.pbkdf2(password, db.users[id].passwordSalt, db.users[id].passwordIters) == db.users[id].passwordHash
    ensures var user := UserByEmail(db.users, email);
      found == if user.None? || !PasswordFits(p, db.users[user.value], password) then None else user
  {
    var user := UserByEmail(db.users, email);
    if found.Some? {
      assert found == Some(found.value);
    }
  }

  lemma OnlyVendor(db: Db, id: Uuid, email: string)
    requires Determined(db) && IsActiveVendor(db.vendors, id, email)
    ensures VendorByEmail(db.vendors, email) == Some(id)
  {
  }

  lemma OnlyShare(db: Db, id: Uuid, h: Digest)
    requires Determined(db) && HasTokenHash(db.shares, id, h)
    ensures ShareByTokenHash(db.shares, h) == Some(id)
  {
  }

  lemma {:induction false} RunDetermined(p: Provider, kek: Key, w: World, ops: seq<Op>)
    requires Determined(w.db)
    ensures Determined(Run(p, kek, w, ops).0.db)
    decreases |ops|
  {
    hide StorePart, Determined;
    if ops != [] {
      RunDetermined(p, kek, w, ops[..|ops| - 1]);
      KeepsDetermined(p, kek, Run(p, kek, w, ops[..|ops| - 1]).0.db, ops[|ops| - 1]);
    }
  }
}
