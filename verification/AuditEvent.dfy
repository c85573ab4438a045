/** One audit event and its JSON line, as the derived serde code of the audit crate reads and writes it. */
module AuditEvent {
  import opened Basics
  import opened Json
  import opened JsonValue

  datatype Outcome = Success | Failure | Denied

  datatype Actor = Actor(userId: Option<string>, ip: string, ua: string)

  /** `ts` is the RFC 3339 text of the timestamp. */
  datatype Event = Event(
    ts: string,
    event: string,
    actor: Actor,
    target: Value,
    outcome: Outcome,
    meta: Value,
    prevHash: string,
    hash: string)

  /** What an event says, apart from where it stands in the chain. */
  function Unlinked(e: Event): Event {
    e.(prevHash := "", hash := "")
  }

  /** Sixty-four zeros: the `prev_hash` of the first event. */
  const GENESIS: string := Zeros(64)

  function Zeros(n: nat): (s: string)
    ensures |s| == n && forall i | 0 <= i < n :: s[i] == '0'
  {
    if n == 0 then "" else Zeros(n - 1) + "0"
  }

  /** serde_json refuses to open a 128th bracket. */
  const DEPTH_LIMIT: nat := 127

  function OutcomeText(o: Outcome): string {
    match o
    case Success => "success"
    case Failure => "failure"
    case Denied => "denied"
  }

  function ActorJson(a: Actor): Json {
    Object([Member("user_id", if a.userId.None? then Null else String(a.userId.value)),
            Member("ip", String(a.ip)),
            Member("ua", String(a.ua))])
  }

  function ToJson(e: Event): Json {
    Object([Member("ts", String(e.ts)),
            Member("event", String(e.event)),
            Member("actor", ActorJson(e.actor)),
            Member("target", e.target),
            Member("outcome", String(OutcomeText(e.outcome))),
            Member("meta", e.meta),
            Member("prev_hash", String(e.prevHash)),
            Member("hash", String(e.hash))])
  }

  function Encode(e: Event): string {
    Print(ToJson(e))
  }

  /** The hashed text: the event with its own hash cleared. */
  function Canonical(e: Event): string {
    Encode(e.(hash := ""))
  }

  // ----- decoding: a struct field must be present exactly once, unknown members are ignored -----

  /** The only member of that name; two of them are an error, as is none. */
  function Field(ms: seq<Member>, name: string): Option<Json> {
    if ms == [] then None
    else if ms[0].name != name then Field(ms[1..], name)
    else if Lookup(ms[1..], name).None? then Some(ms[0].value)
    else None
  }

  function Text(v: Option<Json>): Option<string> {
    match v
    case Some(String(s)) => Some(s)
    case _ => None
  }

  /** An absent or null `user_id` is `None`. */
  function ReadActor(v: Json): Option<Actor> {
    if !v.Object? then None
    else
      var ms := v.members;
      var id := Field(ms, "user_id");
      match (Text(Field(ms, "ip")), Text(Field(ms, "ua")))
      case (Some(ip), Some(ua)) =>
        if Lookup(ms, "user_id").None? || id == Some(Null) then Some(Actor(None, ip, ua))
        else if id.Some? && id.value.String? then Some(Actor(Some(id.value.s), ip, ua))
        else None
      case _ => None
  }

  function ReadOutcome(v: Option<string>): Option<Outcome> {
    if v.None? then None
    else if v.value == "success" then Some(Success)
    else if v.value == "failure" then Some(Failure)
    else if v.value == "denied" then Some(Denied)
    else None
  }

  function FromJson(v: Json): Option<Event> {
    if !v.Object? then None
    else
      var ms := v.members;
      var actor := Field(ms, "actor");
      var target, meta := Field(ms, "target"), Field(ms, "meta");
      match (Text(Field(ms, "ts")), Text(Field(ms, "event")), Text(Field(ms, "prev_hash")),
             Text(Field(ms, "hash")), ReadOutcome(Text(Field(ms, "outcome"))))
      case (Some(ts), Some(event), Some(prev), Some(hash), Some(outcome)) =>
        if actor.None? || target.None? || meta.None? || ReadActor(actor.value).None? then None
        else Some(Event(ts, event, ReadActor(actor.value).value, ToValue(target.value), outcome,
                        ToValue(meta.value), prev, hash))
      case _ => None
  }

  function Decode(line: string): Option<Event> {
    match Parse(line, DEPTH_LIMIT)
    case None => None
    case Some(v) => FromJson(v)
  }

  // ----- decoding inverts encoding, exactly for events the reader's nesting limit admits -----

  /** The event line is itself one bracket, so target and meta may use one less. */
  predicate Readable(e: Event) {
    Depth(e.target) < DEPTH_LIMIT && Depth(e.meta) < DEPTH_LIMIT
  }

  lemma ActorRound(a: Actor)
    ensures ReadActor(ActorJson(a)) == Some(a)
  {
    var ms := ActorJson(a).members;
    FieldAt(ms, 0);
    FieldAt(ms, 1);
    FieldAt(ms, 2);
  }

  /** With pairwise distinct names, the field of a member's name is that member. */
  lemma {:induction false} FieldAt(ms: seq<Member>, k: nat)
    requires k < |ms|
    requires forall i, j | 0 <= i < j < |ms| :: ms[i].name != ms[j].name
    ensures Field(ms, ms[k].name) == Some(ms[k].value)
    ensures Lookup(ms, ms[k].name) == Some(ms[k].value)
  {
    if k == 0 {
      LookupNone(ms[1..], ms[0].name);
    } else {
      FieldAt(ms[1..], k - 1);
    }
  }

  lemma {:induction false} LookupNone(ms: seq<Member>, name: string)
    requires forall m | m in ms :: m.name != name
    ensures Lookup(ms, name) == None
  {
    if ms != [] {
      LookupNone(ms[1..], name);
    }
  }

  ghost predicate DistinctNames(ms: seq<Member>) {
    forall i, j | 0 <= i < j < |ms| :: ms[i].name != ms[j].name
  }

  lemma EventNames(e: Event)
    ensures DistinctNames(ToJson(e).members)
  {
    hide ActorJson, OutcomeText;
    var ms := ToJson(e).members;
    assert |ms[0].name| == 2 && |ms[1].name| == |ms[2].name| == 5 && |ms[3].name| == 6;
    assert |ms[4].name| == 7 && |ms[5].name| == |ms[7].name| == 4 && |ms[6].name| == 9;
    assert ms[1].name[0] != ms[2].name[0] && ms[5].name[0] != ms[7].name[0];
  }

  lemma EventFields(e: Event)
    ensures var ms := ToJson(e).members;
      && Field(ms, "ts") == Some(String(e.ts))
      && Field(ms, "event") == Some(String(e.event))
      && Field(ms, "actor") == Some(ActorJson(e.actor))
      && Field(ms, "target") == Some(e.target)
      && Field(ms, "outcome") == Some(String(OutcomeText(e.outcome)))
      && Field(ms, "meta") == Some(e.meta)
      && Field(ms, "prev_hash") == Some(String(e.prevHash))
      && Field(ms, "hash") == Some(String(e.hash))
  {
    var ms := ToJson(e).members;
    EventNames(e);
    forall k | 0 <= k < 8 ensures Field(ms, ms[k].name) == Some(ms[k].value) {
      FieldAt(ms, k);
    }
    assert ms[0].name == "ts" && ms[1].name == "event" && ms[2].name == "actor" && ms[3].name == "target";
    assert ms[4].name == "outcome" && ms[5].name == "meta" && ms[6].name == "prev_hash" && ms[7].name == "hash";
  }

  lemma OutcomeRound(o: Outcome)
    ensures ReadOutcome(Some(OutcomeText(o))) == Some(o)
  {
  }

  lemma FromJsonToJson(e: Event)
    ensures FromJson(ToJson(e)) == Some(e)
  {
    EventFields(e);
    ActorRound(e.actor);
    OutcomeRound(e.outcome);
    NormalizeValue(e.target);
    NormalizeValue(e.meta);
  }

  lemma {:induction false} MembersDepthWithin(ms: seq<Member>, d: nat)
    ensures MembersDepth(ms) <= d <==> forall k | 0 <= k < |ms| :: Depth(ms[k].value) <= d
  {
    if ms != [] {
      MembersDepthWithin(ms[1..], d);
      assert ms == [ms[0]] + ms[1..];
    }
  }

  lemma ActorDepth(a: Actor)
    ensures Depth(ActorJson(a)) == 1
  {
    MembersDepthWithin(ActorJson(a).members, 0);
  }

  lemma EventDepth(e: Event)
    ensures Depth(ToJson(e)) <= DEPTH_LIMIT <==> Readable(e)
  {
    var ms := ToJson(e).members;
    MembersDepthWithin(ms, DEPTH_LIMIT - 1);
    ActorDepth(e.actor);
    hide ActorJson, MembersDepth;
    assert ms[3].value == e.target && ms[5].value == e.meta && ms[2].value == ActorJson(e.actor);
  }

  /** An encoded event reads back as itself exactly when it is readable; otherwise it is refused. */
  lemma DecodeEncode(e: Event)
    ensures Decode(Encode(e)) == if Readable(e) then Some(e) else None
  {
    ParsePrinted(ToJson(e), DEPTH_LIMIT);
    EventDepth(e);
    FromJsonToJson(e);
  }

  /** Events with the same canonical text differ at most in their hash, whatever their depth. */
  lemma CanonicalInjective(e: Event, f: Event)
    requires Canonical(e) == Canonical(f)
    ensures e.(hash := "") == f.(hash := "")
  {
    PrintInjective(ToJson(e.(hash := "")), ToJson(f.(hash := "")));
    FromJsonToJson(e.(hash := ""));
    FromJsonToJson(f.(hash := ""));
  }

  /** An encoded event is one non-blank line, whatever its strings hold. */
  lemma EncodeOneLine(e: Event)
    ensures OneLine(Encode(e))
    ensures Encode(e) != "" && Encode(e)[0] == '{'
  {
    WrittenOneLine(ToJson(e), "");
  }
}
