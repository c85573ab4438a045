/**
 The hash chain and its verifier. SHA-256 is the parameter `sha`, a total function about which
 nothing is assumed: where distinctness matters the theorems produce the collision instead.
 */
module AuditChain {
  import opened Basics
  import opened AuditEvent
  import Hex

  type Sha = string -> Digest

  function HashOf(sha: Sha, e: Event): string {
    Hex.Encode(sha(Canonical(e)))
  }

  /** `e` is a well-formed successor of an event whose hash is `prev`. */
  predicate Extends(sha: Sha, prev: string, e: Event) {
    e.prevHash == prev && HashOf(sha, e) == e.hash
  }

  /** The hash a chain that started at `from` has reached. */
  function LastHash(es: seq<Event>, from: string): string {
    if es == [] then from else es[|es| - 1].hash
  }

  /** Every event extends the ones before it. */
  ghost predicate Chain(sha: Sha, from: string, es: seq<Event>) {
    forall i | 0 <= i < |es| :: Extends(sha, LastHash(es[..i], from), es[i])
  }

  /** The index of the first event that does not extend its predecessors. */
  ghost predicate BreaksAt(sha: Sha, from: string, es: seq<Event>, i: nat) {
    && i < |es|
    && Chain(sha, from, es[..i])
    && !Extends(sha, LastHash(es[..i], from), es[i])
  }

  datatype ChainVerification = ChainVerification(valid: bool, breakAt: Option<nat>, eventsChecked: nat)

  /** What `verify_chain` reports, read off the events themselves. */
  ghost predicate IsVerdict(sha: Sha, from: string, es: seq<Event>, v: ChainVerification) {
    match v.breakAt
    case None => v.valid && v.eventsChecked == |es| && Chain(sha, from, es)
    case Some(i) => !v.valid && v.eventsChecked == i && BreaksAt(sha, from, es, i)
  }

  method VerifyChain(sha: Sha, events: seq<Event>) returns (v: ChainVerification)
    ensures IsVerdict(sha, GENESIS, events, v)
  {
    var expectedPrev := GENESIS;
    for i := 0 to |events|
      invariant expectedPrev == LastHash(events[..i], GENESIS)
      invariant Chain(sha, GENESIS, events[..i])
    {
      var ev := events[i];
      assert events[..i + 1] == events[..i] + [ev];
      if ev.prevHash != expectedPrev {
        return ChainVerification(false, Some(i), i);
      }
      var computed := HashOf(sha, ev);
      if computed != ev.hash {
        return ChainVerification(false, Some(i), i);
      }
      ChainSnoc(sha, GENESIS, events[..i], ev);
      expectedPrev := ev.hash;
    }
    assert events[..|events|] == events;
    return ChainVerification(true, None, |events|);
  }

  lemma ChainSnoc(sha: Sha, from: string, es: seq<Event>, e: Event)
    ensures Chain(sha, from, es + [e]) <==> Chain(sha, from, es) && Extends(sha, LastHash(es, from), e)
  {
    var all := es + [e];
    assert all[..|es|] == es;
    forall i | 0 <= i < |es| ensures all[..i] == es[..i] && all[i] == es[i] {
    }
    if Chain(sha, from, all) {
      assert Extends(sha, LastHash(all[..|es|], from), all[|es|]);
      forall i | 0 <= i < |es| ensures Extends(sha, LastHash(es[..i], from), es[i]) {
        assert Extends(sha, LastHash(all[..i], from), all[i]);
      }
    }
  }

  /** The chain of a concatenation is the chain of the first part, and of the second from where it ends. */
  lemma {:induction false} ChainConcat(sha: Sha, from: string, a: seq<Event>, b: seq<Event>)
    ensures Chain(sha, from, a + b) <==> Chain(sha, from, a) && Chain(sha, LastHash(a, from), b)
    ensures LastHash(a + b, from) == LastHash(b, LastHash(a, from))
    decreases |b|
  {
    if b == [] {
      assert a + b == a;
    } else {
      var b', e := b[..|b| - 1], b[|b| - 1];
      assert b == b' + [e] && a + b == (a + b') + [e];
      ChainConcat(sha, from, a, b');
      ChainSnoc(sha, from, a + b', e);
      ChainSnoc(sha, LastHash(a, from), b', e);
    }
  }

  lemma PrefixOfChain(sha: Sha, from: string, es: seq<Event>, k: nat)
    requires k <= |es| && Chain(sha, from, es)
    ensures Chain(sha, from, es[..k])
  {
    hide *;
    assert es == es[..k] + es[k..];
    ChainConcat(sha, from, es[..k], es[k..]);
  }

  /** There is at most one verdict, and always one: the first break is unique. */
  lemma VerdictUnique(sha: Sha, from: string, es: seq<Event>, v: ChainVerification, w: ChainVerification)
    requires IsVerdict(sha, from, es, v) && IsVerdict(sha, from, es, w)
    ensures v == w
  {
    if v.breakAt.Some? {
      BreakIsOnly(sha, from, es, v.breakAt.value, w);
    }
  }

  lemma ChainAt(sha: Sha, from: string, es: seq<Event>, j: nat, i: nat)
    requires i < j <= |es| && Chain(sha, from, es[..j])
    ensures Extends(sha, LastHash(es[..i], from), es[i])
  {
    var p := es[..j];
    assert p[i] == es[i] && p[..i] == es[..i];
  }

  lemma BreakIsOnly(sha: Sha, from: string, es: seq<Event>, i: nat, w: ChainVerification)
    requires BreaksAt(sha, from, es, i) && IsVerdict(sha, from, es, w)
    ensures w == ChainVerification(false, Some(i), i)
  {
    assert es[..|es|] == es;
    var j := if w.breakAt.Some? then w.breakAt.value else |es|;
    if i < j {
      ChainAt(sha, from, es, j, i);
    } else if j < i {
      ChainAt(sha, from, es, i, j);
    }
  }

  function Shift(v: ChainVerification, k: nat): ChainVerification {
    ChainVerification(v.valid, if v.breakAt.None? then None else Some(k + v.breakAt.value), k + v.eventsChecked)
  }

  /**
   Verifying a concatenation is verifying the first part and, if it holds, the second part from the
   first part's last hash with every index shifted.
   */
  lemma VerdictConcat(sha: Sha, from: string, a: seq<Event>, b: seq<Event>,
                      va: ChainVerification, vb: ChainVerification)
    requires IsVerdict(sha, from, a, va) && IsVerdict(sha, LastHash(a, from), b, vb)
    ensures IsVerdict(sha, from, a + b, if va.valid then Shift(vb, |a|) else va)
  {
    hide Chain, Extends, LastHash;
    if !va.valid {
      var i := va.breakAt.value;
      assert (a + b)[..i] == a[..i] && (a + b)[i] == a[i];
    } else if vb.breakAt.None? {
      ChainConcat(sha, from, a, b);
    } else {
      var j := vb.breakAt.value;
      assert (a + b)[..|a| + j] == a + b[..j] && (a + b)[|a| + j] == b[j];
      ChainConcat(sha, from, a, b[..j]);
    }
  }

  // ----- tamper evidence ----------------------------------------------------

  /** What a forgery needs: two texts with one digest, or a text whose digest prints as genesis. */
  datatype Witness =
    | Collision(x: Event, y: Event)
    | GenesisPreimage(e: Event)

  predicate IsWitness(sha: Sha, w: Witness) {
    match w
    case Collision(x, y) => Canonical(x) != Canonical(y) && sha(Canonical(x)) == sha(Canonical(y))
    case GenesisPreimage(e) => Hex.Encode(sha(Canonical(e))) == GENESIS
  }

  /** The witness is made of events of the two lists, so it is found and not merely known to exist. */
  predicate DrawnFrom(w: Witness, a: seq<Event>, b: seq<Event>) {
    match w
    case Collision(x, y) => x in a && y in b
    case GenesisPreimage(e) => e in a || e in b
  }

  /**
   Tamper evidence. Two different lists that both verify and end in the same hash hand over a
   SHA-256 collision between two of their events, or one of them hashes to the genesis value.
   The lists may differ anywhere and in length: edits, insertions, deletions and swaps are all covered.
   */
  function Extract(sha: Sha, a: seq<Event>, b: seq<Event>): (w: Witness)
    requires a != b
    requires Chain(sha, GENESIS, a) && Chain(sha, GENESIS, b)
    requires LastHash(a, GENESIS) == LastHash(b, GENESIS)
    ensures IsWitness(sha, w) && DrawnFrom(w, a, b)
    decreases |a|
  {
    if a == [] then
      LastIsGenesis(sha, b);
      GenesisPreimage(b[|b| - 1])
    else if b == [] then
      LastIsGenesis(sha, a);
      GenesisPreimage(a[|a| - 1])
    else
      var a', x := a[..|a| - 1], a[|a| - 1];
      var b', y := b[..|b| - 1], b[|b| - 1];
      SplitLast(a);
      SplitLast(b);
      StepBack(sha, a', x, b', y);
      if Canonical(x) != Canonical(y) then Collision(x, y) else Extract(sha, a', b')
  }

  lemma LastIsGenesis(sha: Sha, es: seq<Event>)
    requires es != [] && Chain(sha, GENESIS, es) && LastHash(es, GENESIS) == GENESIS
    ensures IsWitness(sha, GenesisPreimage(es[|es| - 1]))
  {
    assert Extends(sha, LastHash(es[..|es| - 1], GENESIS), es[|es| - 1]);
  }

  /** One step of the walk back: the last events collide, or they are the same event. */
  lemma StepBack(sha: Sha, a: seq<Event>, x: Event, b: seq<Event>, y: Event)
    requires Chain(sha, GENESIS, a + [x]) && Chain(sha, GENESIS, b + [y]) && x.hash == y.hash
    ensures sha(Canonical(x)) == sha(Canonical(y))
    ensures Chain(sha, GENESIS, a) && Chain(sha, GENESIS, b)
    ensures Canonical(x) == Canonical(y) ==> x == y && LastHash(a, GENESIS) == LastHash(b, GENESIS)
  {
    ChainSnoc(sha, GENESIS, a, x);
    ChainSnoc(sha, GENESIS, b, y);
    Hex.EncodeInjective(sha(Canonical(x)), sha(Canonical(y)));
    if Canonical(x) == Canonical(y) {
      CanonicalInjective(x, y);
      assert x == x.(hash := "").(hash := x.hash) && y == y.(hash := "").(hash := y.hash);
    }
  }

  /** Read the other way: absent such a witness, the last hash pins down the whole verified list. */
  lemma LastHashDetermines(sha: Sha, a: seq<Event>, b: seq<Event>)
    requires Chain(sha, GENESIS, a) && Chain(sha, GENESIS, b)
    requires forall w: Witness | DrawnFrom(w, a, b) :: !IsWitness(sha, w)
    ensures LastHash(a, GENESIS) == LastHash(b, GENESIS) <==> a == b
  {
    if a != b && LastHash(a, GENESIS) == LastHash(b, GENESIS) {
      var _ := Extract(sha, a, b);
    }
  }
}
