/**
 Whole runs of the log: any sequence of opens and writes, any of which may fail. The chain breaks
 exactly where an event is written after a lost one without a reopen in between.
 */
module AuditRuns {
  import opened Basics
  import opened AuditEvent
  import opened AuditChain
  import opened AuditLog
  import Hex

  datatype Step = Open(io: bool) | Write(ev: Event, fault: WriteFault)

  /** The events in the file, and the running process's `prev_hash` if it has the log open. */
  datatype State = State(events: seq<Event>, handle: Option<string>)

  function Next(sha: Sha, s: State, step: Step): State {
    match step
    case Open(io) =>
      var n := |s.events|;
      if io && (n == 0 || Readable(s.events[n - 1]))
      then s.(handle := Some(LastHash(s.events, GENESIS)))
      else s.(handle := None)
    case Write(ev, fault) =>
      if s.handle.None? then s
      else
        var after := WriteEvent(sha, LogState(s.events, s.handle.value), ev, fault).0;
        State(after.events, Some(after.prev))
  }

  /**
   What happened, told without hashes: the events lost since the last open or landed write, the index
   of the first event that landed after a loss, and every event there ever was.
   */
  datatype History = History(lost: seq<Event>, gapAt: Option<nat>, all: seq<Event>)

  function Record(sha: Sha, s: State, h: History, step: Step): History {
    match step
    case Open(_) => h.(lost := [])
    case Write(ev, fault) =>
      if s.handle.None? || fault.HashFails? then h
      else
        var sealed := Seal(sha, ev, s.handle.value);
        var all := h.all + [sealed];
        if !Lands(fault) then History(h.lost + [sealed], h.gapAt, all)
        else History([], if h.gapAt.None? && h.lost != [] then Some(|s.events|) else h.gapAt, all)
  }

  function RunAll(sha: Sha, s: State, h: History, steps: seq<Step>): (State, History)
    decreases |steps|
  {
    if steps == [] then (s, h)
    else
      var (s', h') := RunAll(sha, s, h, steps[..|steps| - 1]);
      var step := steps[|steps| - 1];
      (Next(sha, s', step), Record(sha, s', h', step))
  }

  /** Some forgery witness sits among the events of the run. */
  ghost predicate Forged(sha: Sha, h: History) {
    exists w: Witness :: DrawnFrom(w, h.all, h.all) && IsWitness(sha, w)
  }

  ghost predicate Inv(sha: Sha, s: State, h: History) {
    && (forall e | e in s.events + h.lost :: e in h.all)
    && (match h.gapAt
        case None =>
          && Chain(sha, GENESIS, s.events + h.lost)
          && (s.handle.Some? ==> s.handle.value == LastHash(s.events + h.lost, GENESIS))
        case Some(i) => Forged(sha, h) || BreaksAt(sha, GENESIS, s.events, i))
  }

  lemma ForgedStays(sha: Sha, h: History, h': History)
    requires Forged(sha, h) && forall e | e in h.all :: e in h'.all
    ensures Forged(sha, h')
  {
    var w: Witness :| DrawnFrom(w, h.all, h.all) && IsWitness(sha, w);
    assert DrawnFrom(w, h'.all, h'.all);
  }

  lemma BreakStays(sha: Sha, es: seq<Event>, e: Event, i: nat)
    requires BreaksAt(sha, GENESIS, es, i)
    ensures BreaksAt(sha, GENESIS, es + [e], i)
  {
    assert (es + [e])[..i] == es[..i] && (es + [e])[i] == es[i];
  }

  /** An event landing after a loss breaks the chain there, unless the losses hash back to the file's end. */
  lemma GapBreaks(sha: Sha, events: seq<Event>, lost: seq<Event>, e: Event, h: History)
    requires lost != [] && Chain(sha, GENESIS, events + lost)
    requires e.prevHash == LastHash(events + lost, GENESIS)
    requires forall x | x in events + lost :: x in h.all
    ensures Forged(sha, h) || BreaksAt(sha, GENESIS, events + [e], |events|)
  {
    hide Chain, HashOf, LastHash, IsWitness;
    var full := events + lost;
    assert full[..|events|] == events;
    PrefixOfChain(sha, GENESIS, full, |events|);
    assert (events + [e])[..|events|] == events;
    if LastHash(full, GENESIS) == LastHash(events, GENESIS) {
      assert |full| != |events|;
      var w := Extract(sha, full, events);
      assert DrawnFrom(w, h.all, h.all);
    }
  }

  lemma StepKeepsInv(sha: Sha, s: State, h: History, step: Step)
    requires Inv(sha, s, h)
    ensures Inv(sha, Next(sha, s, step), Record(sha, s, h, step))
  {
    var h' := Record(sha, s, h, step);
    match step
    case Open(_) =>
      assert s.events + [] == s.events;
      if h.gapAt.None? {
        ChainConcat(sha, GENESIS, s.events, h.lost);
      } else if Forged(sha, h) {
        ForgedStays(sha, h, h');
      }
    case Write(ev, fault) =>
      if s.handle.Some? && !fault.HashFails? {
        WriteKeepsInv(sha, s, h, ev, fault);
      }
  }

  lemma WriteKeepsInv(sha: Sha, s: State, h: History, ev: Event, fault: WriteFault)
    requires Inv(sha, s, h) && s.handle.Some? && !fault.HashFails?
    ensures Inv(sha, Next(sha, s, Write(ev, fault)), Record(sha, s, h, Write(ev, fault)))
  {
    hide Chain, BreaksAt, HashOf, LastHash, Forged;
    var h' := Record(sha, s, h, Write(ev, fault));
    var sealed := Seal(sha, ev, s.handle.value);
    if h.gapAt.None? {
      WriteOnChain(sha, s, h, sealed);
      if Lands(fault) && h.lost != [] {
        GapBreaks(sha, s.events, h.lost, sealed, h');
      }
    } else if Forged(sha, h) {
      ForgedStays(sha, h, h');
    } else if Lands(fault) {
      BreakStays(sha, s.events, sealed, h.gapAt.value);
    }
  }

  lemma WriteOnChain(sha: Sha, s: State, h: History, sealed: Event)
    requires Inv(sha, s, h) && s.handle.Some? && h.gapAt.None?
    requires Extends(sha, s.handle.value, sealed)
    ensures Chain(sha, GENESIS, s.events + (h.lost + [sealed]))
    ensures LastHash(s.events + (h.lost + [sealed]), GENESIS) == sealed.hash
    ensures h.lost == [] ==> s.events + h.lost == s.events && s.events + [sealed] + [] == s.events + (h.lost + [sealed])
  {
    ChainSnoc(sha, GENESIS, s.events + h.lost, sealed);
    assert s.events + (h.lost + [sealed]) == s.events + h.lost + [sealed];
  }

  lemma {:induction false} RunKeepsInv(sha: Sha, s: State, h: History, steps: seq<Step>)
    requires Inv(sha, s, h)
    ensures var (s', h') := RunAll(sha, s, h, steps); Inv(sha, s', h')
    decreases |steps|
  {
    if steps != [] {
      RunKeepsInv(sha, s, h, steps[..|steps| - 1]);
      var (s', h') := RunAll(sha, s, h, steps[..|steps| - 1]);
      StepKeepsInv(sha, s', h', steps[|steps| - 1]);
    }
  }

  /** The verdict the history foretells. */
  function Foretold(s: State, h: History): ChainVerification {
    match h.gapAt
    case None => ChainVerification(true, None, |s.events|)
    case Some(i) => ChainVerification(false, Some(i), i)
  }

  /**
   Over every run of opens, writes and failures that starts on a file that verifies: `verify_chain`
   reports exactly the first event that landed after a loss without a reopen in between, and a valid
   chain if there is none. The one alternative is a forgery witness among the run's own events, and a
   run without such a gap needs no such alternative.
   */
  lemma RunVerdict(sha: Sha, start: seq<Event>, steps: seq<Step>)
    requires Chain(sha, GENESIS, start)
    ensures var (s, h) := RunAll(sha, State(start, None), History([], None, start), steps);
      && (h.gapAt.None? ==> IsVerdict(sha, GENESIS, s.events, Foretold(s, h)))
      && (!Forged(sha, h) ==> IsVerdict(sha, GENESIS, s.events, Foretold(s, h)))
  {
    var s0, h0 := State(start, None), History([], None, start);
    assert start + [] == start;
    RunKeepsInv(sha, s0, h0, steps);
    var (s, h) := RunAll(sha, s0, h0, steps);
    if h.gapAt.None? {
      ChainConcat(sha, GENESIS, s.events, h.lost);
    }
  }

  /** A landed write that directly follows a successful open never makes a new gap, whatever was lost before. */
  lemma ReopenRepairs(sha: Sha, s: State, h: History, ev: Event, fault: WriteFault)
    requires Next(sha, s, Open(true)).handle.Some?
    ensures var (s', h') := RunAll(sha, s, h, [Open(true), Write(ev, fault)]);
      h'.gapAt == h.gapAt && (!fault.HashFails? && Lands(fault) ==>
        s'.events == s.events + [Seal(sha, ev, LastHash(s.events, GENESIS))])
  {
    var steps := [Open(true), Write(ev, fault)];
    assert steps[..1] == [Open(true)] && steps[..1][..0] == [];
    assert RunAll(sha, s, h, steps[..1][..0]) == (s, h);
    assert RunAll(sha, s, h, [Open(true)]) == (Next(sha, s, Open(true)), h.(lost := []));
  }

  /** Opening the file of these events does to the handle what `Log.Open` does on its text. */
  lemma OpenIsNext(sha: Sha, es: seq<Event>, handle: Option<string>)
    ensures Next(sha, State(es, handle), Open(true))
         == State(es, match LastLineHash(Lines(FileText(es)))
                      case Ok(hash) => Some(hash)
                      case Err(_) => None)
  {
    ResumeWritten(es);
    hide Lines, FileText, LastLineHash, Readable, LastHash;
  }

  // ----- runs of writes -----------------------------------------------------------------

  /** A write whose hash is taken and whose line does not land. */
  predicate Loses(step: Step) {
    step.Write? && (step.fault.OpenFails? || step.fault.AppendFails?)
  }

  predicate LandsOne(step: Step) {
    step.Write? && Lands(step.fault)
  }

  ghost predicate OnlyWrites(steps: seq<Step>) {
    forall i | 0 <= i < |steps| :: steps[i].Write?
  }

  /** No line lands after a lost one. */
  ghost predicate Gapless(steps: seq<Step>) {
    forall i, j | 0 <= i < j < |steps| :: !(Loses(steps[i]) && LandsOne(steps[j]))
  }

  ghost predicate NoLoss(steps: seq<Step>) {
    forall i | 0 <= i < |steps| :: !Loses(steps[i])
  }

  lemma GaplessSnoc(init: seq<Step>, step: Step)
    ensures NoLoss(init + [step]) <==> NoLoss(init) && !Loses(step)
    ensures Gapless(init + [step]) <==> Gapless(init) && (LandsOne(step) ==> NoLoss(init))
    ensures OnlyWrites(init + [step]) ==> OnlyWrites(init) && step.Write?
  {
    hide Loses, LandsOne;
    var all := init + [step];
    assert all[|init|] == step && forall i | 0 <= i < |init| :: all[i] == init[i];
  }

  /** With the log open throughout, a gap opens exactly where a line lands after a lost one. */
  lemma {:induction false} GapExact(sha: Sha, s: State, h: History, steps: seq<Step>)
    requires OnlyWrites(steps) && s.handle.Some? && h.gapAt.None? && h.lost == []
    ensures var (s', h') := RunAll(sha, s, h, steps);
      && s'.handle.Some?
      && (h'.gapAt.None? <==> Gapless(steps))
      && (Gapless(steps) ==> (h'.lost == [] <==> NoLoss(steps)))
    decreases |steps|
  {
    if steps != [] {
      hide *;
      var init, step := steps[..|steps| - 1], steps[|steps| - 1];
      SplitLast(steps);
      GaplessSnoc(init, step);
      GapExact(sha, s, h, init);
      var (s1, h1) := RunAll(sha, s, h, init);
      StepGap(sha, s1, h1, step);
      RunOneMore(sha, s, h, init, step);
      LandsNotLost(step);
    }
  }

  /** A gap once made stays where it is. */
  lemma {:induction false} GapStays(sha: Sha, s: State, h: History, steps: seq<Step>)
    requires h.gapAt.Some?
    ensures RunAll(sha, s, h, steps).1.gapAt == h.gapAt
    decreases |steps|
  {
    hide Next;
    if steps != [] {
      GapStays(sha, s, h, steps[..|steps| - 1]);
    }
  }

  lemma LandsNotLost(step: Step)
    ensures !(LandsOne(step) && Loses(step))
  {
  }

  lemma StepGap(sha: Sha, s: State, h: History, step: Step)
    requires step.Write? && s.handle.Some?
    ensures Next(sha, s, step).handle.Some?
    ensures var h' := Record(sha, s, h, step);
      && (h'.gapAt.None? <==> h.gapAt.None? && (LandsOne(step) ==> h.lost == []))
      && (h'.lost == [] <==> LandsOne(step) || (h.lost == [] && !Loses(step)))
  {
    hide Seal;
  }

  /** Running two lists of steps is running the one and then the other. */
  lemma {:induction false} RunConcat(sha: Sha, s: State, h: History, a: seq<Step>, b: seq<Step>)
    ensures var (s', h') := RunAll(sha, s, h, a); RunAll(sha, s, h, a + b) == RunAll(sha, s', h', b)
    decreases |b|
  {
    var (s', h') := RunAll(sha, s, h, a);
    if b == [] {
      assert a + b == a;
    } else {
      hide *;
      var init, step := b[..|b| - 1], b[|b| - 1];
      SplitLast(b);
      assert a + b == (a + init) + [step];
      RunConcat(sha, s, h, a, init);
      RunOneMore(sha, s, h, a + init, step);
      RunOneMore(sha, s', h', init, step);
    }
  }

  /**
   A process that opens the log of a file that verifies and then writes: there is no gap exactly where no line
   lands after a lost one, and the file verifies then; else it breaks where the gap is, or a forgery is at hand.
   */
  lemma OneProcess(sha: Sha, start: seq<Event>, steps: seq<Step>)
    requires Chain(sha, GENESIS, start) && (start == [] || Readable(start[|start| - 1])) && OnlyWrites(steps)
    ensures var (s, h) := RunAll(sha, State(start, Some(LastHash(start, GENESIS))), History([], None, start), steps);
      && (h.gapAt.None? <==> Gapless(steps))
      && (Gapless(steps) || !Forged(sha, h) ==> IsVerdict(sha, GENESIS, s.events, Foretold(s, h)))
  {
    var s0, h0 := State(start, None), History([], None, start);
    var s1 := State(start, Some(LastHash(start, GENESIS)));
    RunOne(sha, s0, h0, Open(true));
    assert Next(sha, s0, Open(true)) == s1 && Record(sha, s0, h0, Open(true)) == h0;
    hide *;
    RunConcat(sha, s0, h0, [Open(true)], steps);
    GapExact(sha, s1, h0, steps);
    RunVerdict(sha, start, [Open(true)] + steps);
  }

  // ----- one run that breaks ---------------------------------------------------------------

  function Filled(n: nat, b: byte): (d: Bytes)
    ensures |d| == n && forall i | 0 <= i < n :: d[i] == b
  {
    if n == 0 then [] else Filled(n - 1, b) + [b]
  }

  /** A hash that tells one text from all others. */
  function Marks(text: string): Sha {
    t => if t == text then Filled(32, 1) else Filled(32, 2)
  }

  lemma MarkHex(b: byte)
    requires b == 1 || b == 2
    ensures Hex.Encode(Filled(32, b))[1] == Hex.Digit(b as nat)
    ensures Hex.Encode(Filled(32, b)) != GENESIS
  {
    var d := Filled(32, b);
    hide Filled;
    assert d[0] == b;
    assert GENESIS[1] == '0';
  }

  lemma MarkDigests()
    ensures Filled(32, 1) != Filled(32, 2)
  {
    hide Filled;
    assert Filled(32, 1)[0] != Filled(32, 2)[0];
  }

  lemma CanonicalApart(x: Event, y: Event)
    requires x.prevHash != y.prevHash
    ensures Canonical(x) != Canonical(y)
  {
    hide *;
    if Canonical(x) == Canonical(y) {
      CanonicalInjective(x, y);
      assert false;
    }
  }

  /** The same event, sealed at the start and then after itself: two texts, and so two hashes. */
  lemma SealedApart(ev: Event)
    ensures var sha := Marks(Canonical(ev.(prevHash := GENESIS)));
      var x := Seal(sha, ev, GENESIS);
      var y := Seal(sha, ev, x.hash);
      && sha(Canonical(x)) == Filled(32, 1) && x.hash == Hex.Encode(Filled(32, 1))
      && sha(Canonical(y)) == Filled(32, 2) && y.hash == Hex.Encode(Filled(32, 2))
  {
    hide Encode, Hex.Encode, Filled;
    var sha := Marks(Canonical(ev.(prevHash := GENESIS)));
    var x := Seal(sha, ev, GENESIS);
    assert x.(hash := "") == ev.(prevHash := GENESIS).(hash := "");
    MarkHex(1);
    var y := Seal(sha, ev, x.hash);
    CanonicalApart(y, ev.(prevHash := GENESIS));
  }

  /** Two events whose texts hash apart, neither to genesis, hold no forgery. */
  lemma NoForgery(sha: Sha, x: Event, y: Event, h: History)
    requires h.all == [x, y] && sha(Canonical(x)) != sha(Canonical(y))
    requires Hex.Encode(sha(Canonical(x))) != GENESIS && Hex.Encode(sha(Canonical(y))) != GENESIS
    ensures !Forged(sha, h)
  {
    hide Canonical, Hex.Encode;
    forall w: Witness | DrawnFrom(w, h.all, h.all) ensures !IsWitness(sha, w) {
      match w
      case Collision(a, b) => assert (a == x || a == y) && (b == x || b == y);
      case GenesisPreimage(a) => assert a == x || a == y;
    }
  }

  /** The run that loses one line and then writes on: it breaks at index 0, and no forgery is to blame. */
  lemma LostLineBreaks(ev: Event)
    ensures var sha := Marks(Canonical(ev.(prevHash := GENESIS)));
      var (s, h) := RunAll(sha, State([], None), History([], None, []),
                           [Open(true), Write(ev, AppendFails), Write(ev, NoFault)]);
      && |s.events| == 1 && h.gapAt == Some(0) && !Forged(sha, h)
      && IsVerdict(sha, GENESIS, s.events, ChainVerification(false, Some(0), 0))
  {
    var sha := Marks(Canonical(ev.(prevHash := GENESIS)));
    var x := Seal(sha, ev, GENESIS);
    var y := Seal(sha, ev, x.hash);
    EmptyChain(sha);
    hide RunAll, Marks, Filled, Forged, Canonical, Hex.Encode, IsVerdict, Chain;
    LostLineRun(sha, ev);
    SealedApart(ev);
    MarkHex(1);
    MarkHex(2);
    MarkDigests();
    NoForgery(sha, x, y, History([], Some(0), [x, y]));
    RunVerdict(sha, [], [Open(true), Write(ev, AppendFails), Write(ev, NoFault)]);
  }

  lemma EmptyChain(sha: Sha)
    ensures Chain(sha, GENESIS, [])
  {
  }

  lemma RunOneMore(sha: Sha, s: State, h: History, steps: seq<Step>, step: Step)
    ensures var (s', h') := RunAll(sha, s, h, steps);
      RunAll(sha, s, h, steps + [step]) == (Next(sha, s', step), Record(sha, s', h', step))
  {
    hide Next, Record;
    assert (steps + [step])[..|steps|] == steps;
  }

  lemma RunOne(sha: Sha, s: State, h: History, step: Step)
    ensures RunAll(sha, s, h, [step]) == (Next(sha, s, step), Record(sha, s, h, step))
  {
    hide Next, Record;
    assert [step][..0] == [] && RunAll(sha, s, h, []) == (s, h);
  }

  lemma LostLineRun(sha: Sha, ev: Event)
    ensures var x := Seal(sha, ev, GENESIS);
      var y := Seal(sha, ev, x.hash);
      RunAll(sha, State([], None), History([], None, []), [Open(true), Write(ev, AppendFails), Write(ev, NoFault)])
        == (State([y], Some(y.hash)), History([], Some(0), [x, y]))
  {
    hide *;
    var s, h := State([], None), History([], None, []);
    var steps := [Open(true), Write(ev, AppendFails)];
    RunOne(sha, s, h, Open(true));
    RunOneMore(sha, s, h, [Open(true)], Write(ev, AppendFails));
    RunOneMore(sha, s, h, steps, Write(ev, NoFault));
    assert [Open(true)] + [Write(ev, AppendFails)] == steps;
    assert steps + [Write(ev, NoFault)] == [Open(true), Write(ev, AppendFails), Write(ev, NoFault)];
    OpenFirst(sha);
    LoseFirst(sha, ev);
    LandSecond(sha, ev, Seal(sha, ev, GENESIS));
  }

  lemma LoseFirst(sha: Sha, ev: Event)
    ensures var x := Seal(sha, ev, GENESIS);
      var s1, h0 := State([], Some(GENESIS)), History([], None, []);
      && Next(sha, s1, Write(ev, AppendFails)) == State([], Some(x.hash))
      && Record(sha, s1, h0, Write(ev, AppendFails)) == History([x], None, [x])
  {
    hide Seal;
  }

  lemma LandSecond(sha: Sha, ev: Event, x: Event)
    ensures var y := Seal(sha, ev, x.hash);
      var s2, h1 := State([], Some(x.hash)), History([x], None, [x]);
      && Next(sha, s2, Write(ev, NoFault)) == State([y], Some(y.hash))
      && Record(sha, s2, h1, Write(ev, NoFault)) == History([], Some(0), [x, y])
  {
    hide Seal;
  }

  lemma OpenFirst(sha: Sha)
    ensures var s0, h0 := State([], None), History([], None, []);
      Next(sha, s0, Open(true)) == State([], Some(GENESIS)) && Record(sha, s0, h0, Open(true)) == h0
  {
  }
}
