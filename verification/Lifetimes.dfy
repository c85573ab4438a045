/**
 The service over any number of process lifetimes. Each opens the log anew, which sets the hash the next
 line points at to that of the last line in the file, and then runs operations. A process that dies inside
 an operation leaves what the operation leaves when the call it had reached fails. A process that cannot
 open the log does not start.
 */
module Lifetimes {
  import opened Basics
  import opened AuditEvent
  import opened AuditChain
  import opened AuditLog
  import AuditRuns
  import opened Crypto
  import opened Tables
  import opened Service
  import opened ShareSafety
  import RunLog

  /** `Log::open` on the file as it is: the last line's hash, whatever the process before had in memory. */
  function Reopened(w: World): World {
    w.(log := LogState(w.log.events, LastHash(w.log.events, GENESIS)))
  }

  /** One lifetime after the other, with all their answers. */
  ghost function Live(p: Provider, kek: Key, w: World, lives: seq<seq<Op>>): (World, seq<Answer>)
    decreases |lives|
  {
    if lives == [] then (w, [])
    else
      var (w', answers) := Live(p, kek, w, lives[..|lives| - 1]);
      var (w'', more) := Run(p, kek, Reopened(w'), lives[|lives| - 1]);
      (w'', answers + more)
  }

  /** All operations in order, as if in one lifetime. */
  function Flat(lives: seq<seq<Op>>): seq<Op> {
    if lives == [] then [] else Flat(lives[..|lives| - 1]) + lives[|lives| - 1]
  }

  // ----- restarts are not seen -------------------------------------------------------------

  predicate SameLines(es: seq<Event>, fs: seq<Event>) {
    |es| == |fs| && forall i | 0 <= i < |es| :: Unlinked(es[i]) == Unlinked(fs[i])
  }

  /** The same tables, and logs that differ in their links at most. */
  ghost predicate Alike(w: World, v: World) {
    w.db == v.db && SameLines(w.log.events, v.log.events)
  }

  lemma ApplyAlike(p: Provider, kek: Key, w: World, v: World, op: Op)
    requires Alike(w, v)
    ensures var (w', a), (v', b) := Apply(p, kek, w, op), Apply(p, kek, v, op);
      Alike(w', v') && a == b
  {
    hide StorePart, HashOf;
  }

  lemma {:induction false} RunAlike(p: Provider, kek: Key, w: World, v: World, ops: seq<Op>)
    requires Alike(w, v)
    ensures var (w', a), (v', b) := Run(p, kek, w, ops), Run(p, kek, v, ops);
      Alike(w', v') && a == b
    decreases |ops|
  {
    hide Apply, Alike;
    if ops != [] {
      var init, op := ops[..|ops| - 1], ops[|ops| - 1];
      RunAlike(p, kek, w, v, init);
      ApplyAlike(p, kek, Run(p, kek, w, init).0, Run(p, kek, v, init).0, op);
    }
  }

  /** Running two lists of operations is running the one and then the other. */
  lemma {:induction false} RunsJoin(p: Provider, kek: Key, w: World, a: seq<Op>, b: seq<Op>)
    ensures var (w', before) := Run(p, kek, w, a);
      var (w'', after) := Run(p, kek, w', b);
      Run(p, kek, w, a + b) == (w'', before + after)
    decreases |b|
  {
    if b == [] {
      hide Apply;
      var answers := Run(p, kek, w, a).1;
      assert a + b == a && answers + [] == answers;
    } else {
      hide *;
      var init, op := b[..|b| - 1], b[|b| - 1];
      SplitLast(b);
      assert a + b == (a + init) + [op];
      RunsJoin(p, kek, w, a, init);
      RunSnoc(p, kek, w, a + init, op);
      var (w', before) := Run(p, kek, w, a);
      RunSnoc(p, kek, w', init, op);
      var (v, after) := Run(p, kek, w', init);
      var (_, last) := Apply(p, kek, v, op);
      assert before + after + [last] == before + (after + [last]);
    }
  }

  /**
   Restarts are invisible: however the operations are divided among lifetimes, every answer, the tables and
   what the lines of the log say are those of one uninterrupted run; only the links between lines may differ.
   */
  lemma {:induction false} RestartsUnseen(p: Provider, kek: Key, w: World, lives: seq<seq<Op>>)
    ensures var (w', a), (v', b) := Live(p, kek, w, lives), Run(p, kek, w, Flat(lives));
      Alike(w', v') && a == b
    decreases |lives|
  {
    if lives == [] {
      hide Apply;
    } else {
      hide Run;
      var init, life := lives[..|lives| - 1], lives[|lives| - 1];
      RestartsUnseen(p, kek, w, init);
      var (w1, _) := Live(p, kek, w, init);
      var (v1, _) := Run(p, kek, w, Flat(init));
      RunAlike(p, kek, Reopened(w1), v1, life);
      RunsJoin(p, kek, w, Flat(init), life);
    }
  }

  lemma SameRecords(es: seq<Event>, fs: seq<Event>, id: Uuid)
    requires SameLines(es, fs)
    ensures RedeemLines(es, id) == RedeemLines(fs, id)
    ensures RevokedInLog(es, id) <==> RevokedInLog(fs, id)
    ensures NoneAfterRevoked(es, id) <==> NoneAfterRevoked(fs, id)
  {
    SameRedeems(es, fs, id);
    forall i | 0 <= i < |es|
      ensures IsRedeemLine(es[i], id) == IsRedeemLine(fs[i], id) && IsRevokeLine(es[i], id) == IsRevokeLine(fs[i], id)
    {
      SameLine(es[i], fs[i], id);
    }
    hide IsRedeemLine, IsRevokeLine, Unlinked, RedeemLines;
  }

  lemma SameLine(e: Event, f: Event, id: Uuid)
    requires Unlinked(e) == Unlinked(f)
    ensures IsRedeemLine(e, id) == IsRedeemLine(f, id) && IsRevokeLine(e, id) == IsRevokeLine(f, id)
  {
    assert e == f.(prevHash := e.prevHash, hash := e.hash);
  }

  lemma {:induction false} SameRedeems(es: seq<Event>, fs: seq<Event>, id: Uuid)
    requires SameLines(es, fs)
    ensures RedeemLines(es, id) == RedeemLines(fs, id)
  {
    hide IsRedeemLine, Unlinked;
    if es != [] {
      SameRedeems(es[..|es| - 1], fs[..|fs| - 1], id);
      SameLine(es[|es| - 1], fs[|fs| - 1], id);
    }
  }

  /** Share safety over lifetimes: the exact account of every share, however often the service was restarted. */
  lemma LifetimeSafety(p: Provider, kek: Key, w: World, lives: seq<seq<Op>>, id: Uuid)
    requires w.db.shares == map[] && w.log.events == [] && FreshShares(Flat(lives))
    ensures var (w', answers) := Live(p, kek, w, lives);
      var es, used, ops := w'.log.events, Deliveries(answers, id) + LostSlots(answers, id), Flat(lives);
      && |answers| == |ops|
      && Deliveries(answers, id) <= RedeemLines(es, id) == SlotsOnLog(ops, answers, id) <= used
      && used <= Limit(Issued(ops), id)
      && (id in w'.db.shares ==>
            var s := w'.db.shares[id];
            && s.downloadCount == used && used <= s.maxDownloads
            && (s.revokedAt.Some? <==> RevokedInLog(es, id) || RevocationLost(ops, answers, id)))
      && NoneAfterRevoked(es, id)
  {
    hide Live, Run, RedeemLines, Deliveries, LostSlots, SlotsOnLog, RevokedInLog, RevocationLost, NoneAfterRevoked,
         Issued, FreshShares, SameLines, Flat;
    RestartsUnseen(p, kek, w, lives);
    RunSafety(p, kek, w, Flat(lives), id);
    SameRecords(Live(p, kek, w, lives).0.log.events, Run(p, kek, w, Flat(lives)).0.log.events, id);
  }

  // ----- the chain over lifetimes -----------------------------------------------------------

  /** The writes of one lifetime. */
  ghost function LifeSteps(p: Provider, kek: Key, w: World, lives: seq<seq<Op>>, k: nat): seq<AuditRuns.Step>
    requires k < |lives|
  {
    RunLog.AuditSteps(p, kek, Reopened(Live(p, kek, w, lives[..k]).0), lives[k])
  }

  /** Opening the log and writing, lifetime after lifetime. */
  ghost function AllSteps(p: Provider, kek: Key, w: World, lives: seq<seq<Op>>): seq<AuditRuns.Step> {
    if lives == [] then []
    else
      var n := |lives| - 1;
      AllSteps(p, kek, w, lives[..n]) + ([AuditRuns.Open(true)] + LifeSteps(p, kek, w, lives, n))
  }

  /** In no lifetime did a line land after a lost one. */
  ghost predicate AllGapless(p: Provider, kek: Key, w: World, lives: seq<seq<Op>>) {
    forall k | 0 <= k < |lives| :: AuditRuns.Gapless(LifeSteps(p, kek, w, lives, k))
  }

  lemma {:induction false} LiveReadable(p: Provider, kek: Key, w: World, lives: seq<seq<Op>>)
    requires forall e | e in w.log.events :: Readable(e)
    ensures forall e | e in Live(p, kek, w, lives).0.log.events :: Readable(e)
    decreases |lives|
  {
    hide Readable, Run;
    if lives != [] {
      var n := |lives| - 1;
      LiveReadable(p, kek, w, lives[..n]);
      RunLog.RunReadable(p, kek, Reopened(Live(p, kek, w, lives[..n]).0), lives[n]);
    }
  }

  /** One lifetime on the log's own terms, and what it does to the record of gaps. */
  lemma LifeIsSteps(p: Provider, kek: Key, w: World, ops: seq<Op>, s: AuditRuns.State, h: AuditRuns.History)
    requires s.events == w.log.events && forall e | e in w.log.events :: Readable(e)
    ensures var steps := RunLog.AuditSteps(p, kek, Reopened(w), ops);
      var (s', h') := AuditRuns.RunAll(p.sha, s, h, [AuditRuns.Open(true)] + steps);
      && s'.events == Run(p, kek, Reopened(w), ops).0.log.events
      && (h'.gapAt.None? <==> h.gapAt.None? && AuditRuns.Gapless(steps))
  {
    hide Run, RunLog.AuditSteps, AuditRuns.RunAll, Readable, AuditRuns.Gapless, LastHash;
    var steps := RunLog.AuditSteps(p, kek, Reopened(w), ops);
    var held := RunLog.Held(Reopened(w).log);
    assert s.events != [] ==> s.events[|s.events| - 1] in w.log.events;
    AuditRuns.RunOne(p.sha, s, h, AuditRuns.Open(true));
    AuditRuns.RunConcat(p.sha, s, h, [AuditRuns.Open(true)], steps);
    RunLog.RunIsSteps(p, kek, Reopened(w), ops, h.(lost := []));
    if h.gapAt.Some? {
      AuditRuns.GapStays(p.sha, held, h.(lost := []), steps);
    } else {
      AuditRuns.GapExact(p.sha, held, h.(lost := []), steps);
    }
  }

  lemma {:induction false} LivesAreSteps(p: Provider, kek: Key, w: World, lives: seq<seq<Op>>)
    requires forall e | e in w.log.events :: Readable(e)
    ensures var s, h := AuditRuns.State(w.log.events, None), AuditRuns.History([], None, w.log.events);
      var (s', h') := AuditRuns.RunAll(p.sha, s, h, AllSteps(p, kek, w, lives));
      && s'.events == Live(p, kek, w, lives).0.log.events
      && (h'.gapAt.None? <==> AllGapless(p, kek, w, lives))
    decreases |lives|
  {
    var s, h := AuditRuns.State(w.log.events, None), AuditRuns.History([], None, w.log.events);
    if lives == [] {
      hide Run, AuditRuns.Next, AuditRuns.Record;
    } else {
      hide Run, Readable, AuditRuns.RunAll, AuditRuns.Gapless, LifeSteps, Live;
      var n := |lives| - 1;
      var init := lives[..n];
      LivesAreSteps(p, kek, w, init);
      LiveReadable(p, kek, w, init);
      var (s1, h1) := AuditRuns.RunAll(p.sha, s, h, AllSteps(p, kek, w, init));
      AuditRuns.RunConcat(p.sha, s, h, AllSteps(p, kek, w, init),
                          [AuditRuns.Open(true)] + LifeSteps(p, kek, w, lives, n));
      LifeSnoc(p, kek, w, lives);
      LifeIsSteps(p, kek, Live(p, kek, w, init).0, lives[n], s1, h1);
    }
  }

  lemma LifeSnoc(p: Provider, kek: Key, w: World, lives: seq<seq<Op>>)
    requires lives != []
    ensures var n := |lives| - 1;
      var before := Live(p, kek, w, lives[..n]).0;
      && Live(p, kek, w, lives).0 == Run(p, kek, Reopened(before), lives[n]).0
      && LifeSteps(p, kek, w, lives, n) == RunLog.AuditSteps(p, kek, Reopened(before), lives[n])
      && (AllGapless(p, kek, w, lives) <==>
            AllGapless(p, kek, w, lives[..n]) && AuditRuns.Gapless(LifeSteps(p, kek, w, lives, n)))
  {
    hide Run, AuditRuns.Gapless, RunLog.AuditSteps, LifeSteps, AllGapless;
    StepsOfLife(p, kek, w, lives, |lives| - 1);
    GaplessLives(p, kek, w, lives);
  }

  lemma GaplessLives(p: Provider, kek: Key, w: World, lives: seq<seq<Op>>)
    requires lives != []
    ensures var n := |lives| - 1;
      AllGapless(p, kek, w, lives) <==>
        AllGapless(p, kek, w, lives[..n]) && AuditRuns.Gapless(LifeSteps(p, kek, w, lives, n))
  {
    hide AuditRuns.Gapless, LifeSteps, Live;
    var n := |lives| - 1;
    forall k | 0 <= k < n ensures LifeSteps(p, kek, w, lives[..n], k) == LifeSteps(p, kek, w, lives, k) {
      EarlierLife(p, kek, w, lives, n, k);
    }
  }

  /** What a lifetime writes depends on those before it only. */
  lemma EarlierLife(p: Provider, kek: Key, w: World, lives: seq<seq<Op>>, n: nat, k: nat)
    requires k < n <= |lives|
    ensures LifeSteps(p, kek, w, lives[..n], k) == LifeSteps(p, kek, w, lives, k)
  {
    hide Run, RunLog.AuditSteps, Live;
    assert lives[..n][..k] == lives[..k];
  }

  lemma StepsOfLife(p: Provider, kek: Key, w: World, lives: seq<seq<Op>>, n: nat)
    requires n < |lives|
    ensures LifeSteps(p, kek, w, lives, n)
         == RunLog.AuditSteps(p, kek, Reopened(Live(p, kek, w, lives[..n]).0), lives[n])
  {
    hide Run, RunLog.AuditSteps, Live;
  }

  /**
   The chain over lifetimes. From a file that verifies, the log verifies after any number of lifetimes if in
   none of them a line landed after a lost one, whatever was lost at the end of one; and otherwise it breaks
   exactly at the first that did, or a forgery is at hand.
   */
  lemma LifetimeVerdict(p: Provider, kek: Key, w: World, lives: seq<seq<Op>>)
    requires Chain(p.sha, GENESIS, w.log.events) && forall e | e in w.log.events :: Readable(e)
    ensures var (s, h) := AuditRuns.RunAll(p.sha, AuditRuns.State(w.log.events, None),
                                           AuditRuns.History([], None, w.log.events), AllSteps(p, kek, w, lives));
      && s.events == Live(p, kek, w, lives).0.log.events
      && (h.gapAt.None? <==> AllGapless(p, kek, w, lives))
      && (AllGapless(p, kek, w, lives) || !AuditRuns.Forged(p.sha, h) ==>
            IsVerdict(p.sha, GENESIS, s.events, AuditRuns.Foretold(s, h)))
  {
    hide *;
    LivesAreSteps(p, kek, w, lives);
    AuditRuns.RunVerdict(p.sha, w.log.events, AllSteps(p, kek, w, lives));
  }
}
