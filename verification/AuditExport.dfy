/** The audit page query and its CSV export, from the service's `list_audit_events` to the web's `audit_csv`. */
module AuditExport {
  import opened Basics
  import opened Json
  import opened AuditEvent
  import opened AuditChain
  import Csv

  const HEADER: seq<string> :=
    ["ts", "event", "outcome", "user_id", "ip", "ua", "target", "meta", "prev_hash", "hash"]

  const EXPORT_LIMIT: nat := 100000

  /** The ten cells of an event. */
  function Fields(e: Event): (f: seq<string>)
    ensures |f| == 10
  {
    [e.ts, e.event, OutcomeText(e.outcome), if e.actor.userId.None? then "" else e.actor.userId.value,
     e.actor.ip, e.actor.ua, Print(e.target), Print(e.meta), e.prevHash, e.hash]
  }

  function Matches(e: Event, prefix: string): bool {
    prefix <= e.event
  }

  function Filter(es: seq<Event>, prefix: string): seq<Event> {
    if es == [] then []
    else Filter(es[..|es| - 1], prefix) + (if Matches(es[|es| - 1], prefix) then [es[|es| - 1]] else [])
  }

  /** No prefix, or an empty one, selects everything. */
  function Selected(es: seq<Event>, prefix: Option<string>): seq<Event> {
    if prefix.Some? && prefix.value != "" then Filter(es, prefix.value) else es
  }

  function Last(es: seq<Event>, limit: nat): seq<Event> {
    if |es| <= limit then es else es[|es| - limit..]
  }

  ghost predicate IsReverse<T>(r: seq<T>, s: seq<T>) {
    |r| == |s| && forall k | 0 <= k < |s| :: r[k] == s[|s| - 1 - k]
  }

  /** The event's name starts with the prefix, if there is one. */
  predicate Wanted(e: Event, prefix: Option<string>) {
    prefix.None? || prefix.value <= e.event
  }

  /**
   The shown events stand at these places of the file, newest first. A wanted event that is not shown is older than
   every one that is, and then the page is full.
   */
  ghost predicate Placed(all: seq<Event>, prefix: Option<string>, limit: nat, shown: seq<Event>, places: seq<nat>) {
    && |places| == |shown| <= limit
    && (forall k | 0 <= k < |shown| ::
          places[k] < |all| && shown[k] == all[places[k]] && Wanted(all[places[k]], prefix))
    && (forall j, k | 0 <= j < k < |shown| :: places[j] > places[k])
    && (forall i | 0 <= i < |all| && Wanted(all[i], prefix) && i !in places ::
          |shown| == limit && forall k | 0 <= k < |shown| :: i < places[k])
  }

  /** The newest wanted events, up to the limit; without a prefix those are simply the last of the file, backwards. */
  ghost predicate Newest(all: seq<Event>, prefix: Option<string>, limit: nat, shown: seq<Event>) {
    && (exists places: seq<nat> :: Placed(all, prefix, limit, shown, places))
    && (prefix == None || prefix == Some("") ==>
          && |shown| == (if |all| < limit then |all| else limit)
          && forall k | 0 <= k < |shown| :: shown[k] == all[|all| - 1 - k])
  }

  /** The view of a file that reads as `all`: the newest wanted events, and the verdict on all. */
  ghost predicate Shows(sha: Sha, all: seq<Event>, prefix: Option<string>, limit: nat, v: AuditView) {
    && v.totalOnDisk == |all|
    && IsVerdict(sha, GENESIS, all, v.verification)
    && Newest(all, prefix, limit, v.events)
  }

  /** Where the matching events stand, oldest first. */
  ghost function Places(es: seq<Event>, prefix: string): seq<nat> {
    if es == [] then []
    else Places(es[..|es| - 1], prefix) + (if Matches(es[|es| - 1], prefix) then [|es| - 1] else [])
  }

  /** Each of these events stands at its place. */
  ghost predicate StandAt(es: seq<Event>, f: seq<Event>, at: seq<nat>) {
    |f| == |at| && forall k {:trigger at[k]} | 0 <= k < |at| :: at[k] < |es| && f[k] == es[at[k]]
  }

  ghost predicate Ascending(at: seq<nat>) {
    forall j, k | 0 <= j < k < |at| :: at[j] < at[k]
  }

  ghost predicate PlacesOf(es: seq<Event>, prefix: string, at: seq<nat>) {
    forall i: nat :: i in at <==> i < |es| && Matches(es[i], prefix)
  }

  lemma PlacesSnoc(es: seq<Event>, e: Event, prefix: string, f: seq<Event>, at: seq<nat>)
    requires StandAt(es, f, at) && Ascending(at) && PlacesOf(es, prefix, at)
    ensures Matches(e, prefix) ==>
      StandAt(es + [e], f + [e], at + [|es|]) && Ascending(at + [|es|]) && PlacesOf(es + [e], prefix, at + [|es|])
    ensures !Matches(e, prefix) ==> StandAt(es + [e], f, at) && PlacesOf(es + [e], prefix, at)
  {
    hide Matches;
  }

  lemma {:induction false} FilterPlaces(es: seq<Event>, prefix: string)
    ensures var f, at := Filter(es, prefix), Places(es, prefix);
      StandAt(es, f, at) && Ascending(at) && PlacesOf(es, prefix, at)
  {
    if es != [] {
      hide Matches, StandAt, Ascending, PlacesOf;
      var init, e := es[..|es| - 1], es[|es| - 1];
      SplitLast(es);
      FilterPlaces(init, prefix);
      var f, at := Filter(init, prefix), Places(init, prefix);
      assert f + [] == f && at + [] == at;
      PlacesSnoc(init, e, prefix, f, at);
    }
  }

  lemma {:induction false} FilterAll(es: seq<Event>)
    ensures Filter(es, "") == es
  {
    if es != [] {
      FilterAll(es[..|es| - 1]);
      SplitLast(es);
    }
  }

  ghost function Backwards(at: seq<nat>, n: nat): (places: seq<nat>)
    requires n <= |at|
    ensures |places| == n && forall k | 0 <= k < n :: places[k] == at[|at| - 1 - k]
  {
    seq(n, k requires 0 <= k < n => at[|at| - 1 - k])
  }

  lemma AmongLast(at: seq<nat>, n: nat, q: nat)
    requires n <= |at| && |at| - n <= q < |at|
    ensures at[q] in Backwards(at, n)
  {
    assert Backwards(at, n)[|at| - 1 - q] == at[q];
  }

  lemma BeforeLast(at: seq<nat>, n: nat, q: nat)
    requires Ascending(at) && n <= |at| && q < |at| - n
    ensures forall k | 0 <= k < n :: at[q] < Backwards(at, n)[k]
  {
  }

  lemma BackwardsDescends(at: seq<nat>, n: nat)
    requires Ascending(at) && n <= |at|
    ensures forall j, k | 0 <= j < k < n :: Backwards(at, n)[j] > Backwards(at, n)[k]
    ensures forall k | 0 <= k < n :: Backwards(at, n)[k] in at
  {
  }

  /** Of all places of wanted events, the last ones backwards. */
  lemma PlacedBackwards(all: seq<Event>, prefix: Option<string>, limit: nat, shown: seq<Event>, at: seq<nat>)
    requires PlacesOf(all, if prefix.None? then "" else prefix.value, at)
    requires Ascending(at) && |shown| == if |at| < limit then |at| else limit
    requires StandAt(all, shown, Backwards(at, |shown|))
    ensures Placed(all, prefix, limit, shown, Backwards(at, |shown|))
  {
    assert forall i: nat :: i in at <==> i < |all| && Wanted(all[i], prefix);
    hide Wanted, Ascending, Backwards, PlacesOf;
    var places := Backwards(at, |shown|);
    BackwardsDescends(at, |shown|);
    forall i | 0 <= i < |all| && Wanted(all[i], prefix) && i !in places
      ensures |shown| == limit && forall k | 0 <= k < |shown| :: i < places[k]
    {
      var q :| 0 <= q < |at| && at[q] == i;
      if q < |at| - |shown| {
        BeforeLast(at, |shown|, q);
      } else {
        AmongLast(at, |shown|, q);
      }
    }
  }

  lemma ReverseOfLast(f: seq<Event>, limit: nat, shown: seq<Event>)
    requires IsReverse(shown, Last(f, limit))
    ensures |shown| == if |f| < limit then |f| else limit
    ensures forall k | 0 <= k < |shown| :: shown[k] == f[|f| - 1 - k]
  {
  }

  lemma StandBackwards(all: seq<Event>, f: seq<Event>, at: seq<nat>, shown: seq<Event>)
    requires StandAt(all, f, at) && |shown| <= |f|
    requires forall k | 0 <= k < |shown| :: shown[k] == f[|f| - 1 - k]
    ensures |at| == |f| && StandAt(all, shown, Backwards(at, |shown|))
  {
    hide Backwards;
    var places := Backwards(at, |shown|);
    forall k | 0 <= k < |shown| ensures places[k] < |all| && shown[k] == all[places[k]] {
      assert places[k] == at[|at| - 1 - k];
    }
  }

  /** Reversing the last of the selection puts the newest wanted events first. */
  lemma NewestFirst(all: seq<Event>, prefix: Option<string>, limit: nat, shown: seq<Event>)
    requires IsReverse(shown, Last(Selected(all, prefix), limit))
    ensures Newest(all, prefix, limit, shown)
  {
    hide Filter, Places, Placed, PlacesOf, StandAt, Last, IsReverse, Ascending, Backwards;
    var name := if prefix.None? then "" else prefix.value;
    FilterAll(all);
    FilterPlaces(all, name);
    var f, at := Filter(all, name), Places(all, name);
    assert f == Selected(all, prefix);
    hide Selected;
    ReverseOfLast(f, limit, shown);
    StandBackwards(all, f, at, shown);
    PlacedBackwards(all, prefix, limit, shown, at);
  }

  datatype AuditView = AuditView(events: seq<Event>, verification: ChainVerification, totalOnDisk: nat)

  /** Newest first, in place. */
  method ReversePage<T>(page: array<T>)
    modifies page
    ensures forall k | 0 <= k < page.Length :: page[k] == old(page[page.Length - 1 - k])
  {
    var n := page.Length;
    for i := 0 to n / 2
      invariant forall k | 0 <= k < i || n - i <= k < n :: page[k] == old(page[n - 1 - k])
      invariant forall k | i <= k < n - i :: page[k] == old(page[k])
    {
      page[i], page[n - 1 - i] := page[n - 1 - i], page[i];
    }
  }

  method Select(all: seq<Event>, prefix: Option<string>) returns (filtered: seq<Event>)
    ensures filtered == Selected(all, prefix)
  {
    if prefix.None? || prefix.value == "" {
      return all;
    }
    filtered := [];
    for i := 0 to |all|
      invariant filtered == Filter(all[..i], prefix.value)
    {
      FilterSnoc(all[..i], all[i], prefix.value);
      assert all[..i + 1] == all[..i] + [all[i]];
      if Matches(all[i], prefix.value) {
        filtered := filtered + [all[i]];
      }
    }
    assert all[..|all|] == all;
  }

  lemma FilterSnoc(es: seq<Event>, e: Event, prefix: string)
    ensures Filter(es + [e], prefix) == Filter(es, prefix) + (if Matches(e, prefix) then [e] else [])
  {
    assert (es + [e])[..|es|] == es;
  }

  method Reversed<T>(page: seq<T>) returns (r: seq<T>)
    ensures IsReverse(r, page)
  {
    if page == [] {
      return [];
    }
    var arr := new T[|page|](_ => page[0]);
    for i := 0 to |page|
      invariant forall k | 0 <= k < i :: arr[k] == page[k]
    {
      arr[i] := page[i];
    }
    ReversePage(arr);
    return arr[..];
  }

  /** What `list_audit_events` makes of the events read from the file. */
  method BuildView(sha: Sha, all: seq<Event>, prefix: Option<string>, limit: nat) returns (v: AuditView)
    ensures Shows(sha, all, prefix, limit, v)
    ensures IsReverse(v.events, Last(Selected(all, prefix), limit))
  {
    hide Selected, IsVerdict, IsReverse, Newest;
    var verification := VerifyChain(sha, all);
    var filtered := Select(all, prefix);
    var start := if |filtered| >= limit then |filtered| - limit else 0;
    assert filtered[start..] == Last(filtered, limit);
    hide Last;
    var page := Reversed(filtered[start..]);
    NewestFirst(all, prefix, limit, page);
    return AuditView(page, verification, |all|);
  }

  function AllFields(es: seq<Event>): (rows: seq<seq<string>>)
    ensures |rows| == |es| && forall i | 0 <= i < |es| :: rows[i] == Fields(es[i])
  {
    hide Fields;
    if es == [] then [] else AllFields(es[..|es| - 1]) + [Fields(es[|es| - 1])]
  }

  function ExportText(page: seq<Event>): string {
    Csv.WriteRows([HEADER] + AllFields(page), "")
  }

  lemma ExportEmpty()
    ensures ExportText([]) == Csv.WriteRow(HEADER, "")
  {
    Csv.OneRow(HEADER);
    assert AllFields([]) == [] && [HEADER] + [] == [HEADER];
  }

  lemma ExportSnoc(page: seq<Event>, e: Event)
    ensures ExportText(page + [e]) == ExportText(page) + Csv.WriteRow(Fields(e), "")
  {
    assert (page + [e])[..|page|] == page;
    Csv.RowsSnoc([HEADER] + AllFields(page), Fields(e));
    assert [HEADER] + AllFields(page + [e]) == [HEADER] + AllFields(page) + [Fields(e)];
  }

  /** `audit_csv`: the header, then the page walked backwards. */
  method ExportCsv(view: AuditView, ghost page: seq<Event>) returns (csv: string)
    requires IsReverse(view.events, page)
    ensures csv == ExportText(page)
  {
    hide ExportText, Fields, HEADER, Csv.WriteRow;
    csv := Csv.WriteRow(HEADER, "");
    ExportEmpty();
    var n := |view.events|;
    for i := 0 to n
      invariant csv == ExportText(page[..i])
    {
      var e := view.events[n - 1 - i];
      ExportSnoc(page[..i], e);
      assert page[..i + 1] == page[..i] + [e];
      csv := csv + Csv.WriteRow(Fields(e), "");
    }
    assert page[..n] == page;
  }

  /**
   The export round trip: a reader of the CSV gets the ten column names and then a row per event, for the newest
   100000 wanted events, oldest first; the service's reverse and the exporter's cancel.
   */
  method ExportRoundTrip(sha: Sha, all: seq<Event>, prefix: Option<string>)
    returns (rows: Option<seq<seq<string>>>)
    ensures rows.Some? && rows.value != []
    ensures rows.value[0]
         == ["ts", "event", "outcome", "user_id", "ip", "ua", "target", "meta", "prev_hash", "hash"]
    ensures exists shown ::
      && Newest(all, prefix, 100000, shown) && |rows.value| == 1 + |shown|
      && var cells := rows.value[1..];
         forall i | 0 <= i < |shown| :: IsRowOf(cells[i], shown[|shown| - 1 - i])
  {
    hide ExportText, Fields, HEADER, Csv.ReadRows, Selected, Last, IsVerdict, Newest;
    var view := BuildView(sha, all, prefix, EXPORT_LIMIT);
    ghost var page := Last(Selected(all, prefix), EXPORT_LIMIT);
    var csv := ExportCsv(view, page);
    ExportRound(page);
    rows := Csv.ReadRows(csv);
    ghost var cells := rows.value[1..];
    forall i | 0 <= i < |page| ensures IsRowOf(cells[i], view.events[|page| - 1 - i]) {
      RowOf(page[i]);
    }
    Columns();
  }

  /** The ten cells of an event: target and meta as JSON, nothing where there is no user. */
  ghost predicate IsRowOf(row: seq<string>, e: Event) {
    row == [e.ts, e.event, match e.outcome case Success => "success" case Failure => "failure" case Denied => "denied",
            if e.actor.userId.None? then "" else e.actor.userId.value, e.actor.ip, e.actor.ua,
            Print(e.target), Print(e.meta), e.prevHash, e.hash]
  }

  lemma RowOf(e: Event)
    ensures IsRowOf(Fields(e), e)
  {
    hide Print, OutcomeText;
    OutcomeIs(e.outcome);
  }

  lemma OutcomeIs(o: Outcome)
    ensures OutcomeText(o) == match o case Success => "success" case Failure => "failure" case Denied => "denied"
  {
  }

  lemma Columns()
    ensures HEADER == ["ts", "event", "outcome", "user_id", "ip", "ua", "target", "meta", "prev_hash", "hash"]
  {
  }

  lemma ExportRound(page: seq<Event>)
    ensures Csv.ReadRows(ExportText(page)) == Some([HEADER] + AllFields(page))
  {
    Csv.RowsRound([HEADER] + AllFields(page));
  }

  /** The filter keeps exactly the events whose name starts with the prefix, and as often as they occur. */
  lemma {:induction false} FilterExact(es: seq<Event>, prefix: string)
    ensures forall e :: multiset(Filter(es, prefix))[e] == if prefix <= e.event then multiset(es)[e] else 0
  {
    if es != [] {
      FilterExact(es[..|es| - 1], prefix);
      SplitLast(es);
      assert multiset(es) == multiset(es[..|es| - 1]) + multiset{es[|es| - 1]};
    }
  }
}
