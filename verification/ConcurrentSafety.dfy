/** What holds of serial runs holds of every interleaving of threads, by serialisation. */
module ConcurrentSafety {
  import opened Basics
  import opened AuditEvent
  import opened AuditChain
  import opened AuditLog
  import AuditRuns
  import opened Crypto
  import opened Tables
  import opened Service
  import opened ShareSafety
  import opened StoreIntegrity
  import opened RunLog
  import opened Concurrency

  lemma {:induction false} OpsOfAt(s: Site, order: seq<nat>, k: nat)
    requires IsOrder(s, order) && k < |order|
    ensures OpsOf(s, order)[k] == s.tasks[order[k]].op
  {
    if k < |order| - 1 {
      OpsOfAt(s, order[..|order| - 1], k);
    }
  }

  /** Share and print ids are drawn new by every thread. */
  ghost predicate FreshTasks(s: Site) {
    forall t, u | 0 <= t < |s.tasks| && 0 <= u < |s.tasks| && t != u
                  && s.tasks[t].Operate? && s.tasks[u].Operate? && s.tasks[t].op.CreateShare?
                  && s.tasks[u].op.CreateShare? ::
      && s.tasks[t].op.draw.shareId != s.tasks[u].op.draw.shareId
      && s.tasks[t].op.draw.printId != s.tasks[u].op.draw.printId
  }

  lemma FreshOps(s: Site, order: seq<nat>)
    requires IsOrder(s, order) && FreshTasks(s)
    requires forall i, j | 0 <= i < j < |order| :: order[i] != order[j]
    ensures FreshShares(OpsOf(s, order)) && FreshPrints(OpsOf(s, order))
  {
    forall k | 0 <= k < |order| ensures OpsOf(s, order)[k] == s.tasks[order[k]].op {
      OpsOfAt(s, order, k);
    }
    hide OpsOf;
  }

  /** What the serial run logged after k operations is the beginning of what it logged after all. */
  lemma {:induction false} PastIsPrefix(s: Site, order: seq<nat>, k: nat)
    requires IsOrder(s, order) && k <= |order|
    ensures Serial(s, order[..k]).0.log.events <= Serial(s, order).0.log.events
  {
    hide Serial, OpsOf, Apply;
    if k == |order| {
      assert order[..k] == order;
    } else {
      var init, t := order[..|order| - 1], order[|order| - 1];
      SplitLast(order);
      assert init[..k] == order[..k];
      PastIsPrefix(s, init, k);
      SerialSnoc(s, init, t);
      ApplyGrows(s.p, s.kek, Serial(s, init).0, s.tasks[t].op);
    }
  }

  lemma ApplyGrows(p: Provider, kek: Key, w: World, op: Op)
    ensures w.log.events <= Apply(p, kek, w, op).0.log.events
  {
    hide StorePart, AuditLog.Seal;
  }

  /** The beginning of a log records no more of a share than the whole. */
  lemma {:induction false} PrefixRecords(es: seq<Event>, whole: seq<Event>, id: Uuid)
    requires es <= whole
    ensures RedeemLines(es, id) <= RedeemLines(whole, id)
    ensures NoneAfterRevoked(whole, id) ==> NoneAfterRevoked(es, id)
    decreases |whole|
  {
    hide IsRedeemLine, IsRevokeLine;
    if |es| < |whole| {
      PrefixRecords(es, whole[..|whole| - 1], id);
    } else {
      assert es == whole;
    }
  }

  /** Running one operation less, or none less, does not unsay what is known of all uploads. */
  lemma UploadsBefore(s: Site, order: seq<nat>, j: nat)
    requires IsOrder(s, order) && j <= |order| <= j + 1 && FreshPrints(OpsOf(s, order))
    ensures var before, all := Uploads(OpsOf(s, order[..j])), Uploads(OpsOf(s, order));
      && (forall file | file in before :: file in all && all[file] == before[file])
      && StoreIntegrity.Record(s.kek, OpsOf(s, order[..j])) <= StoreIntegrity.Record(s.kek, OpsOf(s, order))
  {
    if j == |order| {
      assert order[..j] == order;
    } else {
      var ops, init := OpsOf(s, order), OpsOf(s, order[..j]);
      assert ops[..j] == init;
      if ops[j].CreateShare? {
        NotUploaded(init, ops[j].draw.printId);
      }
    }
  }

  /** The shares in any configuration, inside operations and between them. */
  lemma SharesSafe(s: Site, c: Config, i: nat, j: nat, id: Uuid)
    requires s.start.db.shares == map[] && s.start.log.events == [] && FreshTasks(s)
    requires IsOrder(s, c.order) && Stands(s, c, i, j)
    requires forall x, y | 0 <= x < y < |c.order| :: c.order[x] != c.order[y]
    ensures RedeemLines(c.log.events, id) <= Limit(Issued(OpsOf(s, c.order)), id)
    ensures NoneAfterRevoked(c.log.events, id)
    ensures id in c.db.shares ==>
      RedeemLines(c.log.events, id) <= c.db.shares[id].downloadCount <= c.db.shares[id].maxDownloads
  {
    hide Run, OpsOf, FreshShares, FreshTasks, RedeemLines, Issued, NoneAfterRevoked;
    var order, then', now := c.order, c.order[..j], c.order[..i];
    assert then'[..i] == now;
    FreshOps(s, order);
    FreshOps(s, then');
    RunSafety(s.p, s.kek, s.start, OpsOf(s, order), id);
    RunSafety(s.p, s.kek, s.start, OpsOf(s, then'), id);
    PastIsPrefix(s, order, i);
    PastIsPrefix(s, then', i);
    PrefixRecords(c.log.events, Serial(s, order).0.log.events, id);
    PrefixRecords(c.log.events, Serial(s, then').0.log.events, id);
  }

  lemma StoreSound(s: Site, c: Config, i: nat, j: nat)
    requires s.start.db.vendors == map[] && s.start.db.prints == map[] && s.start.db.shares == map[] && FreshTasks(s)
    requires IsOrder(s, c.order) && Stands(s, c, i, j)
    requires forall x, y | 0 <= x < y < |c.order| :: c.order[x] != c.order[y]
    requires Correct(s.p, StoreIntegrity.Record(s.kek, OpsOf(s, c.order)))
    ensures SharesRefer(c.db) && OneActiveVendor(c.db.vendors)
    ensures forall file | file in c.db.prints ::
      file in Uploads(OpsOf(s, c.order)) && ReadBlob(s.p, s.kek, c.db, file, NoCall)
        == Ok(Uploads(OpsOf(s, c.order))[file])
  {
    hide Run, OpsOf, FreshPrints, FreshTasks, Uploads, SharesRefer, OneActiveVendor, ReadBlob;
    FreshOps(s, c.order);
    FreshOps(s, c.order[..j]);
    UploadsBefore(s, c.order, j);
    RunIntegrity(s.p, s.kek, s.start, OpsOf(s, c.order[..j]));
  }

  /**
   Under any schedule of any number of threads, at any moment, inside operations and between them: no
   share has more redemptions on the log than its limit, nor any after its revocation; every share's print
   and vendor exist; there is one active vendor per address; and every print reads back as it was uploaded.
   */
  lemma ConcurrentRunsAreSafe(s: Site, schedule: seq<nat>, id: Uuid)
    requires s.start.db.vendors == map[] && s.start.db.prints == map[] && s.start.db.shares == map[]
    requires s.start.log.events == [] && FreshTasks(s)
    ensures var c := Exec(s, schedule);
      && IsOrder(s, c.order)
      && RedeemLines(c.log.events, id) <= Limit(Issued(OpsOf(s, c.order)), id)
      && NoneAfterRevoked(c.log.events, id)
      && (id in c.db.shares ==>
            RedeemLines(c.log.events, id) <= c.db.shares[id].downloadCount <= c.db.shares[id].maxDownloads)
    ensures var c := Exec(s, schedule);
      Correct(s.p, StoreIntegrity.Record(s.kek, OpsOf(s, c.order))) ==>
        && SharesRefer(c.db) && OneActiveVendor(c.db.vendors)
        && forall file | file in c.db.prints ::
             file in Uploads(OpsOf(s, c.order))
             && ReadBlob(s.p, s.kek, c.db, file, NoCall) == Ok(Uploads(OpsOf(s, c.order))[file])
  {
    hide Exec, OpsOf, Correct, IsOrder, FreshTasks, RedeemLines, Issued, NoneAfterRevoked, Uploads, Stands, ReadBlob,
         SharesRefer, OneActiveVendor, AnsweredAs, IsPast, Serial;
    Serialisable(s, schedule);
    var c := Exec(s, schedule);
    var i: nat, j: nat :| Stands(s, c, i, j);
    SharesSafe(s, c, i, j, id);
    if Correct(s.p, StoreIntegrity.Record(s.kek, OpsOf(s, c.order))) {
      StoreSound(s, c, i, j);
    }
  }

  /** The verdict on these events is what the operations' writes in this order foretell, or a forgery is at hand. */
  ghost predicate VerdictForetold(s: Site, order: seq<nat>, es: seq<Event>)
    requires IsOrder(s, order)
  {
    var steps := AuditSteps(s.p, s.kek, s.start, OpsOf(s, order));
    var h := AuditRuns.RunAll(s.p.sha, Held(s.start.log), AuditRuns.History([], None, s.start.log.events), steps).1;
    && (h.gapAt.None? <==> AuditRuns.Gapless(steps))
    && (AuditRuns.Gapless(steps) || !AuditRuns.Forged(s.p.sha, h) ==>
          IsVerdict(s.p.sha, GENESIS, es, AuditRuns.Foretold(AuditRuns.State(es, None), h)))
  }

  /** The same for the first k operations in the order, for some k. */
  ghost predicate SomeVerdict(s: Site, order: seq<nat>, least: int, es: seq<Event>)
    requires IsOrder(s, order)
  {
    exists k: nat :: least <= k <= |order| && VerdictForetold(s, order[..k], es)
  }

  lemma SerialVerdict(s: Site, order: seq<nat>)
    requires Chain(s.p.sha, GENESIS, s.start.log.events) && s.start.log.prev == LastHash(s.start.log.events, GENESIS)
    requires forall e | e in s.start.log.events :: Readable(e)
    requires IsOrder(s, order)
    ensures VerdictForetold(s, order, Serial(s, order).0.log.events)
  {
    hide Run, OpsOf, AuditSteps, AuditRuns.RunAll, Chain, LastHash, Readable, IsVerdict, AuditRuns.Forged,
         AuditRuns.Gapless;
    RunChain(s.p, s.kek, s.start, OpsOf(s, order));
  }

  /**
   Under any schedule, at any moment, the verdict on the log is the one its serial run foretells: valid
   where no line landed after a lost one, else broken exactly at the first that did, or a forgery is at
   hand. That run has all operations that took the store lock, but perhaps the one under way. What a
   thread listing the log reads has such a verdict as well.
   */
  lemma ConcurrentLogVerdict(s: Site, schedule: seq<nat>)
    requires Chain(s.p.sha, GENESIS, s.start.log.events) && s.start.log.prev == LastHash(s.start.log.events, GENESIS)
    requires forall e | e in s.start.log.events :: Readable(e)
    ensures var c := Exec(s, schedule);
      && IsOrder(s, c.order)
      && SomeVerdict(s, c.order, if c.storeOwner.None? then |c.order| else |c.order| - 1, c.log.events)
      && forall t | 0 <= t < |s.tasks| && c.phases[t].ListDone? :: SomeVerdict(s, c.order, 0, c.phases[t].events)
  {
    hide Exec, Chain, LastHash, Readable, VerdictForetold, AnsweredAs, Serial;
    Serialisable(s, schedule);
    var c := Exec(s, schedule);
    var i: nat, j: nat :| Stands(s, c, i, j);
    SerialVerdict(s, c.order[..i]);
    forall t | 0 <= t < |s.tasks| && c.phases[t].ListDone?
      ensures SomeVerdict(s, c.order, 0, c.phases[t].events)
    {
      var k: nat :| k <= |c.order| && c.phases[t].events == Serial(s, c.order[..k]).0.log.events;
      SerialVerdict(s, c.order[..k]);
    }
  }
}
