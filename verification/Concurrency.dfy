/**
 Threads and locks. Any number of threads run operations; each takes the store lock, does its store half,
 takes the audit lock if it has a line to write, writes it, and lets go in reverse order. Threads listing
 the audit log take the audit lock only. A schedule says which thread is given the next step; a thread
 that cannot move stays where it is.
 */
module Concurrency {
  import opened Basics
  import opened AuditEvent
  import opened AuditLog
  import opened Crypto
  import opened Tables
  import opened Service

  datatype Task = Operate(op: Op) | ListAudit

  datatype Phase =
    | Waiting
    | HasStore
    | StoreDone(m: Mid)
    | HasBoth(m: Mid)
    | Written(a: Answer)
    | AuditFreed(a: Answer)
    | Finished(a: Answer)
    | ListHolds
    | ListRead(events: seq<Event>)
    | ListDone(events: seq<Event>)

  /** `order` records who took the store lock, first to last. */
  datatype Config = Config(
    db: Db, log: LogState, storeOwner: Option<nat>, auditOwner: Option<nat>, phases: seq<Phase>, order: seq<nat>)

  datatype Site = Site(p: Provider, kek: Key, start: World, tasks: seq<Task>)

  ghost function Begin(s: Site): Config {
    Config(s.start.db, s.start.log, None, None, seq(|s.tasks|, _ => Waiting), [])
  }

  /** The next step of thread `t`, or None where it is blocked or has finished. */
  ghost function Step(s: Site, c: Config, t: nat): Option<Config>
    requires t < |s.tasks| && |c.phases| == |s.tasks|
  {
    var task := s.tasks[t];
    match c.phases[t]
    case Waiting =>
      if task.Operate? then
        if c.storeOwner.Some? then None
        else Some(c.(storeOwner := Some(t), phases := c.phases[t := HasStore], order := c.order + [t]))
      else
        if c.auditOwner.Some? then None
        else Some(c.(auditOwner := Some(t), phases := c.phases[t := ListHolds]))
    case HasStore =>
      if task.ListAudit? then None
      else
        var m := StorePart(s.p, s.kek, c.db, task.op);
        Some(c.(db := m.db, phases := c.phases[t := StoreDone(m)]))
    case StoreDone(m) =>
      if m.line.None? then
        Some(c.(storeOwner := None, phases := c.phases[t := Finished(Answer(m.reply, m.slot))]))
      else if c.auditOwner.Some? then None
      else Some(c.(auditOwner := Some(t), phases := c.phases[t := HasBoth(m)]))
    case HasBoth(m) =>
      if task.ListAudit? then None
      else
        var (log, a) := AuditPart(s.p.sha, c.log, m, task.op.at.write);
        Some(c.(log := log, phases := c.phases[t := Written(a)]))
    case Written(a) => Some(c.(auditOwner := None, phases := c.phases[t := AuditFreed(a)]))
    case AuditFreed(a) => Some(c.(storeOwner := None, phases := c.phases[t := Finished(a)]))
    case Finished(_) => None
    case ListHolds => Some(c.(phases := c.phases[t := ListRead(c.log.events)]))
    case ListRead(es) => Some(c.(auditOwner := None, phases := c.phases[t := ListDone(es)]))
    case ListDone(_) => None
  }

  /** A schedule run from the beginning: any sequence of thread numbers at all. */
  ghost function Exec(s: Site, schedule: seq<nat>): (c: Config)
    ensures |c.phases| == |s.tasks|
    decreases |schedule|
  {
    if schedule == [] then Begin(s)
    else
      var c, t := Exec(s, schedule[..|schedule| - 1]), schedule[|schedule| - 1];
      if t >= |s.tasks| then c
      else
        var next := Step(s, c, t);
        if next.None? then c else next.value
  }

  // ----- the serial run in lock order ---------------------------------------------------

  ghost predicate IsOrder(s: Site, order: seq<nat>) {
    forall i | 0 <= i < |order| :: order[i] < |s.tasks| && s.tasks[order[i]].Operate?
  }

  ghost function OpsOf(s: Site, order: seq<nat>): (ops: seq<Op>)
    requires IsOrder(s, order)
    ensures |ops| == |order|
  {
    if order == [] then []
    else OpsOf(s, order[..|order| - 1]) + [s.tasks[order[|order| - 1]].op]
  }

  /** Running the operations one after the other in that order. */
  ghost function Serial(s: Site, order: seq<nat>): (r: (World, seq<Answer>))
    requires IsOrder(s, order)
  {
    Run(s.p, s.kek, s.start, OpsOf(s, order))
  }

  lemma SerialSnoc(s: Site, order: seq<nat>, t: nat)
    requires IsOrder(s, order) && t < |s.tasks| && s.tasks[t].Operate?
    ensures IsOrder(s, order + [t])
    ensures var (w, answers) := Serial(s, order);
      var (w', a) := Apply(s.p, s.kek, w, s.tasks[t].op);
      Serial(s, order + [t]) == (w', answers + [a])
  {
    hide Run, Apply;
    assert (order + [t])[..|order|] == order;
    RunSnoc(s.p, s.kek, s.start, OpsOf(s, order), s.tasks[t].op);
  }

  lemma {:induction false} SerialLength(s: Site, order: seq<nat>)
    requires IsOrder(s, order)
    ensures |Serial(s, order).1| == |order|
  {
    if order == [] {
      hide Apply;
    } else {
      hide Serial, Apply;
      SplitLast(order);
      SerialLength(s, order[..|order| - 1]);
      SerialSnoc(s, order[..|order| - 1], order[|order| - 1]);
    }
  }

  /** Thread `t` came k-th, for some k, and got the k-th answer of the serial run. */
  ghost predicate AnsweredAs(s: Site, order: seq<nat>, t: nat, a: Answer)
    requires IsOrder(s, order)
  {
    exists k :: 0 <= k < |order| && k < |Serial(s, order).1| && order[k] == t && Serial(s, order).1[k] == a
  }

  /** The events are those of the serial run after its first k operations, for some k. */
  ghost predicate IsPast(s: Site, order: seq<nat>, es: seq<Event>)
    requires IsOrder(s, order)
  {
    exists k :: 0 <= k <= |order| && es == Serial(s, order[..k]).0.log.events
  }

  // ----- the invariant --------------------------------------------------------------------

  predicate HoldsStore(ph: Phase) {
    ph.HasStore? || ph.StoreDone? || ph.HasBoth? || ph.Written? || ph.AuditFreed?
  }

  predicate HoldsAudit(ph: Phase) {
    ph.HasBoth? || ph.Written? || ph.ListHolds? || ph.ListRead?
  }

  predicate IsListing(ph: Phase) {
    ph.ListHolds? || ph.ListRead? || ph.ListDone?
  }

  /** Where the tables, the log and the owner's phase stand against the serial run. */
  ghost predicate InStep(s: Site, c: Config)
    requires |c.phases| == |s.tasks| && IsOrder(s, c.order)
  {
    if c.storeOwner.None? then World(c.db, c.log) == Serial(s, c.order).0
    else
      var t := c.storeOwner.value;
      && t < |s.tasks| && s.tasks[t].Operate? && c.order != [] && c.order[|c.order| - 1] == t
      && OwnerInStep(s, c, Serial(s, c.order[..|c.order| - 1]).0, t)
  }

  ghost predicate OwnerInStep(s: Site, c: Config, before: World, t: nat)
    requires |c.phases| == |s.tasks| && IsOrder(s, c.order) && t < |s.tasks| && s.tasks[t].Operate?
  {
    var ph := c.phases[t];
    if ph.HasStore? then World(c.db, c.log) == before
    else if ph.StoreDone? || ph.HasBoth? then
      ph.m == StorePart(s.p, s.kek, before.db, s.tasks[t].op) && c.db == ph.m.db && c.log == before.log
    else
      (ph.Written? || ph.AuditFreed?)
      && World(c.db, c.log) == Serial(s, c.order).0 && AnsweredAs(s, c.order, t, ph.a)
  }

  ghost predicate Owners(s: Site, c: Config)
    requires |c.phases| == |s.tasks|
  {
    && (forall t | 0 <= t < |s.tasks| ::
          && (HoldsStore(c.phases[t]) <==> c.storeOwner == Some(t))
          && (HoldsAudit(c.phases[t]) <==> c.auditOwner == Some(t))
          && (IsListing(c.phases[t]) ==> s.tasks[t].ListAudit?)
          && (c.phases[t] != Waiting && !IsListing(c.phases[t]) <==> t in c.order))
    && (c.storeOwner.Some? ==> c.storeOwner.value < |s.tasks|)
    && (c.auditOwner.Some? ==> c.auditOwner.value < |s.tasks|)
    && (forall i, j | 0 <= i < j < |c.order| :: c.order[i] != c.order[j])
  }

  /** Finished threads have their serial answer, and listings show a past of the serial log. */
  ghost predicate ResultOk(s: Site, order: seq<nat>, t: nat, ph: Phase)
    requires IsOrder(s, order)
  {
    && (ph.Finished? ==> AnsweredAs(s, order, t, ph.a))
    && (ph.ListRead? || ph.ListDone? ==> IsPast(s, order, ph.events))
  }

  ghost predicate Results(s: Site, c: Config)
    requires |c.phases| == |s.tasks| && IsOrder(s, c.order)
  {
    forall t | 0 <= t < |s.tasks| :: ResultOk(s, c.order, t, c.phases[t])
  }

  ghost predicate Inv(s: Site, c: Config) {
    |c.phases| == |s.tasks| && IsOrder(s, c.order) && Owners(s, c) && InStep(s, c) && Results(s, c)
  }

  // ----- a longer order keeps what was said of a shorter one ---------------------------------

  lemma AnsweredSnoc(s: Site, order: seq<nat>, t: nat, u: nat, a: Answer)
    requires IsOrder(s, order) && t < |s.tasks| && s.tasks[t].Operate? && AnsweredAs(s, order, u, a)
    ensures IsOrder(s, order + [t]) && AnsweredAs(s, order + [t], u, a)
  {
    hide Serial, Apply;
    SerialSnoc(s, order, t);
    var k :| 0 <= k < |order| && k < |Serial(s, order).1| && order[k] == u && Serial(s, order).1[k] == a;
    assert (order + [t])[k] == u && Serial(s, order + [t]).1[k] == a;
  }

  lemma PastSnoc(s: Site, order: seq<nat>, t: nat, es: seq<Event>)
    requires IsOrder(s, order) && t < |s.tasks| && s.tasks[t].Operate? && IsPast(s, order, es)
    ensures IsOrder(s, order + [t]) && IsPast(s, order + [t], es)
  {
    hide Serial;
    var k :| 0 <= k <= |order| && es == Serial(s, order[..k]).0.log.events;
    assert (order + [t])[..k] == order[..k];
  }

  lemma LastAnswer(s: Site, order: seq<nat>, t: nat)
    requires IsOrder(s, order) && t < |s.tasks| && s.tasks[t].Operate?
    ensures var (w, _) := Serial(s, order);
      var (w', a) := Apply(s.p, s.kek, w, s.tasks[t].op);
      IsOrder(s, order + [t]) && Serial(s, order + [t]).0 == w' && AnsweredAs(s, order + [t], t, a)
  {
    hide Serial, Apply;
    SerialSnoc(s, order, t);
    SerialLength(s, order);
    var (w, answers) := Serial(s, order);
    var (_, a) := Apply(s.p, s.kek, w, s.tasks[t].op);
    assert (order + [t])[|order|] == t && (answers + [a])[|answers|] == a;
  }

  // ----- every step keeps the invariant ---------------------------------------------------

  lemma BeginInv(s: Site)
    ensures Inv(s, Begin(s))
  {
    hide StorePart, AuditPart, Apply;
  }

  /** Who holds which lock. */
  lemma StepOwners(s: Site, c: Config, t: nat)
    requires Inv(s, c) && t < |s.tasks| && Step(s, c, t).Some?
    ensures |Step(s, c, t).value.phases| == |s.tasks| && Owners(s, Step(s, c, t).value)
  {
    hide InStep, Results, StorePart, AuditPart, Serial, OpsOf;
  }

  lemma TakeStore(s: Site, c: Config, t: nat)
    requires Inv(s, c) && t < |s.tasks| && c.phases[t].Waiting? && s.tasks[t].Operate?
    requires Step(s, c, t).Some?
    ensures IsOrder(s, Step(s, c, t).value.order) && InStep(s, Step(s, c, t).value)
  {
    hide Results, Owners, StorePart, AuditPart, Serial, OpsOf;
    assert (c.order + [t])[..|c.order|] == c.order;
  }

  /** The store half, then taking the audit lock. */
  lemma WorkOnStore(s: Site, c: Config, t: nat)
    requires Inv(s, c) && t < |s.tasks| && Step(s, c, t).Some?
    requires c.phases[t].HasStore? || (c.phases[t].StoreDone? && c.phases[t].m.line.Some?)
    ensures Step(s, c, t).value.order == c.order && InStep(s, Step(s, c, t).value)
  {
    hide StorePart, AuditPart, Serial, OpsOf, Results;
    assert c.storeOwner == Some(t);
    hide Owners, IsOrder;
  }

  /** Before its work is complete, the owner runs on what the operations before it left. */
  lemma OwnerFacts(s: Site, c: Config, t: nat)
    requires Inv(s, c) && t < |s.tasks| && HoldsStore(c.phases[t])
    ensures c.storeOwner == Some(t) && s.tasks[t].Operate? && c.order != [] && c.order[|c.order| - 1] == t
    ensures IsOrder(s, c.order[..|c.order| - 1])
    ensures OwnerInStep(s, c, Serial(s, c.order[..|c.order| - 1]).0, t)
  {
    hide OwnerInStep, Serial, Results;
    assert c.storeOwner == Some(t);
    hide Owners;
  }

  /** The steps at which an operation has done all it does: writing its line, or having none. */
  lemma Complete(s: Site, c: Config, t: nat)
    requires Inv(s, c) && t < |s.tasks|
    requires c.phases[t].HasBoth? || (c.phases[t].StoreDone? && c.phases[t].m.line.None?)
    ensures s.tasks[t].Operate?
    ensures var (log, a) := AuditPart(s.p.sha, c.log, c.phases[t].m, s.tasks[t].op.at.write);
      && World(c.db, log) == Serial(s, c.order).0
      && AnsweredAs(s, c.order, t, a)
  {
    hide StorePart, AuditPart, Serial, AnsweredAs, InStep, Results, Owners;
    OwnerFacts(s, c, t);
    var order := c.order[..|c.order| - 1];
    SplitLast(c.order);
    LastAnswer(s, order, t);
    assert c.order == order + [t];
  }

  lemma CompleteInStep(s: Site, c: Config, t: nat)
    requires Inv(s, c) && t < |s.tasks| && Step(s, c, t).Some?
    requires c.phases[t].HasBoth? || (c.phases[t].StoreDone? && c.phases[t].m.line.None?)
    ensures Step(s, c, t).value.order == c.order && InStep(s, Step(s, c, t).value)
    ensures Step(s, c, t).value.phases[t].Finished? ==> AnsweredAs(s, c.order, t, Step(s, c, t).value.phases[t].a)
  {
    hide StorePart, WriteEvent, Serial, OpsOf, AnsweredAs, Results;
    assert c.storeOwner == Some(t);
    Complete(s, c, t);
    hide Owners, IsOrder;
  }

  lemma LetGo(s: Site, c: Config, t: nat)
    requires Inv(s, c) && t < |s.tasks| && (c.phases[t].Written? || c.phases[t].AuditFreed?)
    ensures Step(s, c, t).value.order == c.order && InStep(s, Step(s, c, t).value)
    ensures AnsweredAs(s, c.order, t, c.phases[t].a)
  {
    hide StorePart, AuditPart, Serial, OpsOf, AnsweredAs, Results;
    assert c.storeOwner == Some(t);
    hide Owners, IsOrder;
  }

  /** The invariant looks at the owner's phase only. */
  lemma SameInStep(s: Site, c: Config, c': Config)
    requires |c.phases| == |c'.phases| == |s.tasks| && IsOrder(s, c.order) && InStep(s, c)
    requires c'.db == c.db && c'.log == c.log && c'.order == c.order && c'.storeOwner == c.storeOwner
    requires c.storeOwner.Some? && c.storeOwner.value < |s.tasks| ==>
      c'.phases[c.storeOwner.value] == c.phases[c.storeOwner.value]
    ensures InStep(s, c')
  {
    hide AnsweredAs, StorePart, Serial, IsOrder;
  }

  /** Listing threads touch neither the tables nor the log. */
  lemma Listing(s: Site, c: Config, t: nat)
    requires Inv(s, c) && t < |s.tasks| && Step(s, c, t).Some?
    requires IsListing(c.phases[t]) || (c.phases[t].Waiting? && s.tasks[t].ListAudit?)
    ensures Step(s, c, t).value.order == c.order && InStep(s, Step(s, c, t).value)
  {
    hide StorePart, AuditPart, InStep, Results, IsOrder;
    var c' := Step(s, c, t).value;
    assert c.storeOwner != Some(t);
    StepOthers(s, c, t);
    hide Owners;
    assert c'.db == c.db && c'.log == c.log && c'.order == c.order && c'.storeOwner == c.storeOwner;
    hide Step;
    SameInStep(s, c, c');
  }

  /** The log is where the first i operations leave it, the tables where the first j do: all but the last at least. */
  ghost predicate Stands(s: Site, c: Config, i: nat, j: nat)
    requires IsOrder(s, c.order)
  {
    && i <= j <= |c.order| <= i + 1
    && c.log == Serial(s, c.order[..i]).0.log && c.db == Serial(s, c.order[..j]).0.db
    && (c.storeOwner.None? ==> i == |c.order|)
  }

  /** The store half leaves the tables that the whole operation leaves. */
  lemma StoreAhead(s: Site, order: seq<nat>)
    requires IsOrder(s, order) && order != []
    ensures var n := |order| - 1;
      Serial(s, order).0.db == StorePart(s.p, s.kek, Serial(s, order[..n]).0.db, s.tasks[order[n]].op).db
  {
    hide StorePart, Serial, Apply;
    var n := |order| - 1;
    SplitLast(order);
    SerialSnoc(s, order[..n], order[n]);
    AnswerOf(s.p, s.kek, Serial(s, order[..n]).0, s.tasks[order[n]].op);
  }

  /** In any reachable configuration, inside operations and between them. */
  lemma Standing(s: Site, c: Config) returns (i: nat, j: nat)
    requires Inv(s, c)
    ensures Stands(s, c, i, j)
  {
    hide StorePart, Serial, OpsOf, Results, AnsweredAs;
    var n := |c.order|;
    i, j := n, n;
    assert c.order[..n] == c.order;
    if c.storeOwner.Some? {
      var ph := c.phases[c.storeOwner.value];
      assert HoldsStore(ph);
      OwnerFacts(s, c, c.storeOwner.value);
      hide InStep, Owners;
      StoreAhead(s, c.order);
      if ph.HasStore? {
        i, j := n - 1, n - 1;
      } else if ph.StoreDone? || ph.HasBoth? {
        i := n - 1;
      }
    } else {
      hide Owners;
    }
  }

  /** While a thread lists, the log is the one after some number of completed operations. */
  lemma ListedPast(s: Site, c: Config, t: nat)
    requires Inv(s, c) && t < |s.tasks| && c.phases[t].ListHolds?
    ensures IsPast(s, c.order, c.log.events)
  {
    hide Inv, Serial;
    var i, _ := Standing(s, c);
  }

  lemma ResultSnoc(s: Site, order: seq<nat>, t: nat, u: nat, ph: Phase)
    requires IsOrder(s, order) && ResultOk(s, order, u, ph) && t < |s.tasks| && s.tasks[t].Operate?
    ensures IsOrder(s, order + [t]) && ResultOk(s, order + [t], u, ph)
  {
    hide AnsweredAs, IsPast, Serial;
    if ph.Finished? {
      AnsweredSnoc(s, order, t, u, ph.a);
    } else if ph.ListRead? || ph.ListDone? {
      PastSnoc(s, order, t, ph.events);
    }
  }

  lemma ResultsSnoc(s: Site, c: Config, t: nat)
    requires |c.phases| == |s.tasks| && IsOrder(s, c.order) && Results(s, c)
    requires t < |s.tasks| && s.tasks[t].Operate?
    ensures IsOrder(s, c.order + [t])
    ensures forall u | 0 <= u < |s.tasks| :: ResultOk(s, c.order + [t], u, c.phases[u])
  {
    hide ResultOk, IsOrder;
    forall u | 0 <= u < |s.tasks| ensures IsOrder(s, c.order + [t]) && ResultOk(s, c.order + [t], u, c.phases[u]) {
      ResultSnoc(s, c.order, t, u, c.phases[u]);
    }
    TakenOrder(s, c.order, t);
  }

  lemma TakenOrder(s: Site, order: seq<nat>, t: nat)
    requires IsOrder(s, order) && t < |s.tasks| && s.tasks[t].Operate?
    ensures IsOrder(s, order + [t])
  {}

  lemma StepInStep(s: Site, c: Config, t: nat)
    requires Inv(s, c) && t < |s.tasks| && Step(s, c, t).Some?
    ensures |Step(s, c, t).value.phases| == |s.tasks|
    ensures IsOrder(s, Step(s, c, t).value.order) && InStep(s, Step(s, c, t).value)
  {
    hide InStep, Results, Owners, StorePart, AuditPart, Serial, IsOrder, Step;
    StepOthers(s, c, t);
    var ph := c.phases[t];
    if ph.Waiting? {
      if s.tasks[t].Operate? { TakeStore(s, c, t); } else { Listing(s, c, t); }
    } else if IsListing(ph) {
      Listing(s, c, t);
    } else if ph.Written? || ph.AuditFreed? {
      LetGo(s, c, t);
    } else if ph.HasBoth? || (ph.StoreDone? && ph.m.line.None?) {
      CompleteInStep(s, c, t);
    } else {
      StepMoves(s, c, t);
      WorkOnStore(s, c, t);
    }
  }

  /** A finished thread, or one that has listed, takes no step. */
  lemma StepMoves(s: Site, c: Config, t: nat)
    requires |c.phases| == |s.tasks| && t < |s.tasks| && Step(s, c, t).Some?
    ensures !c.phases[t].Finished? && !c.phases[t].ListDone?
  {
    hide StorePart, AuditPart;
  }

  /** What the step says of the thread that took it. */
  lemma StepResult(s: Site, c: Config, t: nat)
    requires Inv(s, c) && t < |s.tasks| && Step(s, c, t).Some?
    requires IsOrder(s, Step(s, c, t).value.order) && |Step(s, c, t).value.phases| == |s.tasks|
    ensures ResultOk(s, Step(s, c, t).value.order, t, Step(s, c, t).value.phases[t])
  {
    hide InStep, Results, Owners, StorePart, AuditPart, Serial, IsOrder, AnsweredAs, IsPast;
    var ph := c.phases[t];
    if ph.ListHolds? {
      ListedPast(s, c, t);
    } else if ph.ListRead? {
      OwnResult(s, c, t);
    } else if ph.AuditFreed? {
      LetGo(s, c, t);
    } else if ph.StoreDone? && ph.m.line.None? {
      CompleteInStep(s, c, t);
    }
  }

  lemma OwnResult(s: Site, c: Config, t: nat)
    requires Inv(s, c) && t < |s.tasks|
    ensures ResultOk(s, c.order, t, c.phases[t])
  {
    hide ResultOk, InStep, Owners;
  }

  lemma StepInv(s: Site, c: Config, t: nat)
    requires Inv(s, c) && t < |s.tasks| && Step(s, c, t).Some?
    ensures Inv(s, Step(s, c, t).value)
  {
    hide InStep, Owners, ResultOk, Step, IsOrder;
    StepOwners(s, c, t);
    StepInStep(s, c, t);
    StepResult(s, c, t);
    StepOthers(s, c, t);
    if s.tasks[t].Operate? {
      ResultsSnoc(s, c, t);
    }
  }

  /** A step changes the phase of its own thread only, and the order by that thread at most. */
  lemma StepOthers(s: Site, c: Config, t: nat)
    requires |c.phases| == |s.tasks| && t < |s.tasks| && Step(s, c, t).Some?
    ensures var c' := Step(s, c, t).value;
      && |c'.phases| == |s.tasks|
      && (forall u | 0 <= u < |s.tasks| && u != t :: c'.phases[u] == c.phases[u])
      && (c'.order == c.order || (s.tasks[t].Operate? && c'.order == c.order + [t]))
  {
    hide StorePart, AuditPart;
  }

  lemma {:induction false} ExecInv(s: Site, schedule: seq<nat>)
    ensures Inv(s, Exec(s, schedule))
    decreases |schedule|
  {
    hide Inv, Step, Begin;
    if schedule == [] {
      BeginInv(s);
    } else {
      var init, t := schedule[..|schedule| - 1], schedule[|schedule| - 1];
      ExecInv(s, init);
      if t < |s.tasks| && Step(s, Exec(s, init), t).Some? {
        StepInv(s, Exec(s, init), t);
      }
    }
  }

  // ----- the log only grows --------------------------------------------------------------------

  lemma StepGrows(s: Site, c: Config, t: nat)
    requires |c.phases| == |s.tasks| && t < |s.tasks| && Step(s, c, t).Some?
    ensures c.log.events <= Step(s, c, t).value.log.events && c.order <= Step(s, c, t).value.order
  {
    hide StorePart, AuditLog.Seal;
  }

  predicate ShowsPrefix(c: Config, ph: Phase) {
    ph.ListRead? || ph.ListDone? ==> ph.events <= c.log.events
  }

  lemma StepShows(s: Site, c: Config, t: nat)
    requires |c.phases| == |s.tasks| && t < |s.tasks| && Step(s, c, t).Some?
    requires forall u | 0 <= u < |s.tasks| :: ShowsPrefix(c, c.phases[u])
    ensures |Step(s, c, t).value.phases| == |s.tasks|
    ensures forall u | 0 <= u < |s.tasks| :: ShowsPrefix(Step(s, c, t).value, Step(s, c, t).value.phases[u])
  {
    hide StorePart, AuditPart;
    StepOthers(s, c, t);
    StepGrows(s, c, t);
    var c' := Step(s, c, t).value;
    assert ShowsPrefix(c, c.phases[t]);
    assert ShowsPrefix(c', c'.phases[t]);
    hide Step;
    forall u | 0 <= u < |s.tasks| ensures ShowsPrefix(c', c'.phases[u]) {
      assert ShowsPrefix(c, c.phases[u]);
    }
  }

  /** Later steps add to the log and to the order, and take nothing away. */
  lemma {:induction false} ExecGrows(s: Site, schedule: seq<nat>, more: seq<nat>)
    ensures Exec(s, schedule).log.events <= Exec(s, schedule + more).log.events
    ensures Exec(s, schedule).order <= Exec(s, schedule + more).order
    decreases |more|
  {
    hide Step, Begin;
    if more == [] {
      assert schedule + more == schedule;
    } else {
      var all, init, t := schedule + more, more[..|more| - 1], more[|more| - 1];
      assert all[..|all| - 1] == schedule + init && all[|all| - 1] == t;
      ExecGrows(s, schedule, init);
      if t < |s.tasks| && Step(s, Exec(s, schedule + init), t).Some? {
        StepGrows(s, Exec(s, schedule + init), t);
      }
    }
  }

  lemma {:induction false} ExecShows(s: Site, schedule: seq<nat>)
    ensures forall u | 0 <= u < |s.tasks| :: ShowsPrefix(Exec(s, schedule), Exec(s, schedule).phases[u])
    decreases |schedule|
  {
    if schedule == [] {
      hide Step;
    } else {
      hide Step, Begin, ShowsPrefix;
      var init, t := schedule[..|schedule| - 1], schedule[|schedule| - 1];
      ExecShows(s, init);
      if t < |s.tasks| && Step(s, Exec(s, init), t).Some? {
        StepShows(s, Exec(s, init), t);
      }
    }
  }

  // ----- main theorems ---------------------------------------------------------------------------

  predicate Over(ph: Phase) {
    ph.Finished? || ph.ListDone?
  }

  /**
   Serialisation. Whatever the schedule, there is one serial run, in the order in which the store lock
   was taken, such that: every finished operation has that run's answer for it, each thread being in the
   order at most once; every listing shows the log after some number of its operations, a prefix of the
   log as it stands; whenever nobody holds the store lock the tables and the log are those the serial run
   leaves; and inside an operation they are those it leaves but for that operation, or the tables with and
   the log without it. Once all threads are over, the order holds exactly the operating threads.
   */
  lemma Serialisable(s: Site, schedule: seq<nat>)
    ensures var c := Exec(s, schedule);
      && IsOrder(s, c.order)
      && (forall i, j | 0 <= i < j < |c.order| :: c.order[i] != c.order[j])
      && (forall t | 0 <= t < |s.tasks| && c.phases[t].Finished? :: AnsweredAs(s, c.order, t, c.phases[t].a))
      && (forall t | 0 <= t < |s.tasks| && c.phases[t].ListDone? ::
            IsPast(s, c.order, c.phases[t].events) && c.phases[t].events <= c.log.events)
      && (c.storeOwner.None? ==> World(c.db, c.log) == Serial(s, c.order).0)
      && (exists i: nat, j: nat :: Stands(s, c, i, j))
      && ((forall t | 0 <= t < |s.tasks| :: Over(c.phases[t])) ==>
            && c.storeOwner.None?
            && forall t | 0 <= t < |s.tasks| :: t in c.order <==> s.tasks[t].Operate?)
  {
    hide *;
    ExecInv(s, schedule);
    ExecShows(s, schedule);
    ExecKinds(s, schedule);
    var c := Exec(s, schedule);
    var i, j := Standing(s, c);
    InvResults(s, c);
    InvOver(s, c);
  }

  /** What the invariant says of answers and listings. */
  lemma InvResults(s: Site, c: Config)
    requires Inv(s, c) && forall u | 0 <= u < |s.tasks| :: ShowsPrefix(c, c.phases[u])
    ensures IsOrder(s, c.order) && forall i, j | 0 <= i < j < |c.order| :: c.order[i] != c.order[j]
    ensures forall t | 0 <= t < |s.tasks| && c.phases[t].Finished? :: AnsweredAs(s, c.order, t, c.phases[t].a)
    ensures forall t | 0 <= t < |s.tasks| && c.phases[t].ListDone? ::
      IsPast(s, c.order, c.phases[t].events) && c.phases[t].events <= c.log.events
  {
    hide InStep, AnsweredAs, IsPast, Serial;
    forall t | 0 <= t < |s.tasks| ensures ResultOk(s, c.order, t, c.phases[t]) && ShowsPrefix(c, c.phases[t]) {
    }
  }

  /** What the invariant says once the store lock is free, and once all threads are over. */
  lemma InvOver(s: Site, c: Config)
    requires Inv(s, c) && forall t | 0 <= t < |s.tasks| && s.tasks[t].Operate? :: !IsListing(c.phases[t])
    ensures c.storeOwner.None? ==> World(c.db, c.log) == Serial(s, c.order).0
    ensures (forall t | 0 <= t < |s.tasks| :: Over(c.phases[t])) ==>
      && c.storeOwner.None?
      && forall t | 0 <= t < |s.tasks| :: t in c.order <==> s.tasks[t].Operate?
  {
    hide OwnerInStep, Results, Serial, Owners;
    if forall t | 0 <= t < |s.tasks| :: Over(c.phases[t]) {
      OverOwners(s, c);
    }
  }

  lemma OverOwners(s: Site, c: Config)
    requires |c.phases| == |s.tasks| && IsOrder(s, c.order) && Owners(s, c)
    requires forall t | 0 <= t < |s.tasks| && s.tasks[t].Operate? :: !IsListing(c.phases[t])
    requires forall t | 0 <= t < |s.tasks| :: Over(c.phases[t])
    ensures c.storeOwner.None?
    ensures forall t | 0 <= t < |s.tasks| :: t in c.order <==> s.tasks[t].Operate?
  {
  }

  /** A thread that was to operate does not list. */
  lemma {:induction false} ExecKinds(s: Site, schedule: seq<nat>)
    ensures forall t | 0 <= t < |s.tasks| && s.tasks[t].Operate? :: !IsListing(Exec(s, schedule).phases[t])
  {
    ExecInv(s, schedule);
    hide Exec, Begin, InStep, Results;
  }

  /** Only waiting for a lock somebody holds, or being over, keeps a thread from moving. */
  lemma Moves(s: Site, c: Config, t: nat)
    requires |c.phases| == |s.tasks| && t < |s.tasks|
    requires c.phases[t].HasStore? || c.phases[t].HasBoth? ==> s.tasks[t].Operate?
    requires c.auditOwner.Some? ==> HoldsAudit(c.phases[t])
    requires c.storeOwner.Some? ==> HoldsAudit(c.phases[t]) || HoldsStore(c.phases[t])
    requires !Over(c.phases[t])
    ensures Step(s, c, t).Some?
  {
    hide StorePart, AuditPart;
  }

  /** No deadlock: while a thread is not over, some thread can move. */
  lemma Progress(s: Site, c: Config, t: nat)
    requires Inv(s, c) && t < |s.tasks| && !Over(c.phases[t])
    ensures exists u: nat :: u < |s.tasks| && Step(s, c, u).Some?
  {
    hide InStep, Results, Step;
    var u := if c.auditOwner.Some? then c.auditOwner.value
             else if c.storeOwner.Some? then c.storeOwner.value else t;
    assert c.auditOwner.Some? ==> HoldsAudit(c.phases[u]);
    assert c.auditOwner.None? && c.storeOwner.Some? ==> HoldsStore(c.phases[u]) && !HoldsAudit(c.phases[u]);
    assert c.phases[u].HasStore? || c.phases[u].HasBoth? ==> u in c.order && s.tasks[u].Operate?;
    hide Inv, Owners;
    Moves(s, c, u);
  }

  /** How many steps a thread has left at most. */
  function Rank(ph: Phase): nat {
    match ph
    case Waiting => 6
    case HasStore => 5
    case StoreDone(_) => 4
    case HasBoth(_) => 3
    case Written(_) => 2
    case AuditFreed(_) => 1
    case Finished(_) => 0
    case ListHolds => 2
    case ListRead(_) => 1
    case ListDone(_) => 0
  }

  function Left(phases: seq<Phase>): nat {
    if phases == [] then 0 else Rank(phases[0]) + Left(phases[1..])
  }

  lemma {:induction false} LeftUpdate(phases: seq<Phase>, t: nat, ph: Phase)
    requires t < |phases|
    ensures Left(phases[t := ph]) + Rank(phases[t]) == Left(phases) + Rank(ph)
  {
    hide Rank;
    if t > 0 {
      assert phases[t := ph][1..] == phases[1..][t - 1 := ph];
      LeftUpdate(phases[1..], t - 1, ph);
    } else {
      assert phases[t := ph][1..] == phases[1..];
    }
  }

  lemma StepLowers(s: Site, c: Config, t: nat)
    requires |c.phases| == |s.tasks| && t < |s.tasks| && Step(s, c, t).Some?
    ensures Left(Step(s, c, t).value.phases) < Left(c.phases)
  {
    hide StorePart, AuditPart, Left;
    StepOthers(s, c, t);
    var ph := Step(s, c, t).value.phases[t];
    assert Rank(ph) < Rank(c.phases[t]);
    assert Step(s, c, t).value.phases == c.phases[t := ph];
    LeftUpdate(c.phases, t, ph);
    hide Step, Rank;
  }

  ghost predicate AllOver(c: Config) {
    forall t | 0 <= t < |c.phases| :: Over(c.phases[t])
  }

  /** From every reachable configuration some schedule finishes every thread. */
  lemma {:induction false} CanFinish(s: Site, schedule: seq<nat>)
    ensures exists more: seq<nat> :: AllOver(Exec(s, schedule + more))
    decreases Left(Exec(s, schedule).phases)
  {
    hide Step, Begin, Inv, Left;
    var c := Exec(s, schedule);
    if AllOver(c) {
      assert schedule + [] == schedule;
    } else {
      var t :| 0 <= t < |c.phases| && !Over(c.phases[t]);
      ExecInv(s, schedule);
      Progress(s, c, t);
      var u: nat :| u < |s.tasks| && Step(s, c, u).Some?;
      StepLowers(s, c, u);
      assert (schedule + [u])[..|schedule|] == schedule;
      var next: seq<nat> := schedule + [u];
      CanFinish(s, next);
      var more: seq<nat> :| AllOver(Exec(s, next + more));
      assert next + more == schedule + ([u] + more);
    }
  }
}
