/**
 `serde_json::Value`: JSON trees whose objects are maps ordered by key. Reading text into a `Value`
 sorts the members and lets a later duplicate win.
 */
module JsonValue {
  import opened Basics
  import opened Json

  /** The order of `BTreeMap<String, _>`: code points left to right. */
  predicate Less(a: string, b: string) {
    if b == "" then false
    else if a == "" then true
    else a[0] < b[0] || (a[0] == b[0] && Less(a[1..], b[1..]))
  }

  lemma {:induction false} LessAsymmetric(a: string, b: string)
    requires Less(a, b)
    ensures a != b && !Less(b, a)
  {
    if a != "" && a[0] == b[0] {
      LessAsymmetric(a[1..], b[1..]);
    }
  }

  lemma {:induction false} LessTransitive(a: string, b: string, c: string)
    requires Less(a, b) && Less(b, c)
    ensures Less(a, c)
  {
    if a != "" && a[0] == b[0] == c[0] {
      LessTransitive(a[1..], b[1..], c[1..]);
    }
  }

  lemma {:induction false} LessTotal(a: string, b: string)
    requires a != b && !Less(b, a)
    ensures Less(a, b)
  {
    if a != "" && b != "" && a[0] == b[0] {
      assert a == [a[0]] + a[1..] && b == [b[0]] + b[1..];
      LessTotal(a[1..], b[1..]);
    }
  }

  ghost predicate SortedNames(ms: seq<Member>) {
    forall i, j | 0 <= i < j < |ms| :: Less(ms[i].name, ms[j].name)
  }

  ghost predicate IsValue(v: Json)
    decreases v
  {
    match v
    case Array(items) => forall x | x in items :: IsValue(x)
    case Object(members) => SortedNames(members) && forall m | m in members :: IsValue(m.value)
    case _ => true
  }

  type Value = v: Json | IsValue(v) witness Null

  function Insert(ms: seq<Member>, m: Member): seq<Member> {
    if ms == [] then [m]
    else if ms[0].name == m.name then [m] + ms[1..]
    else if Less(m.name, ms[0].name) then [m] + ms
    else [ms[0]] + Insert(ms[1..], m)
  }

  function InsertAll(acc: seq<Member>, ms: seq<Member>): seq<Member>
    decreases ms
  {
    if ms == [] then acc else InsertAll(Insert(acc, ms[0]), ms[1..])
  }

  /** What deserializing into a `Value` makes of the members as written. */
  function Normalize(v: Json): Json
    decreases v, 1
  {
    match v
    case Array(items) => Array(NormalizeItems(items))
    case Object(members) => Object(InsertAll([], NormalizeMembers(members)))
    case _ => v
  }

  function NormalizeItems(items: seq<Json>): seq<Json>
    decreases items, 0
  {
    if items == [] then [] else [Normalize(items[0])] + NormalizeItems(items[1..])
  }

  function NormalizeMembers(ms: seq<Member>): seq<Member>
    decreases ms, 0
  {
    if ms == [] then []
    else [Member(ms[0].name, Normalize(ms[0].value))] + NormalizeMembers(ms[1..])
  }

  lemma {:induction false} InsertLast(ms: seq<Member>, m: Member)
    requires forall i | 0 <= i < |ms| :: Less(ms[i].name, m.name)
    ensures Insert(ms, m) == ms + [m]
  {
    if ms != [] {
      LessAsymmetric(ms[0].name, m.name);
      InsertLast(ms[1..], m);
      assert ms == [ms[0]] + ms[1..];
    }
  }

  lemma {:induction false} InsertAllSorted(acc: seq<Member>, ms: seq<Member>)
    requires SortedNames(acc + ms)
    ensures InsertAll(acc, ms) == acc + ms
    decreases ms
  {
    if ms != [] {
      var all := acc + ms;
      forall i | 0 <= i < |acc| ensures Less(acc[i].name, ms[0].name) {
        assert all[i] == acc[i] && all[|acc|] == ms[0];
      }
      InsertLast(acc, ms[0]);
      assert (acc + [ms[0]]) + ms[1..] == all;
      InsertAllSorted(acc + [ms[0]], ms[1..]);
    }
  }

  /** A value already in key order is left alone. */
  lemma {:induction false} NormalizeValue(v: Json)
    requires IsValue(v)
    ensures Normalize(v) == v
    decreases v, 1
  {
    match v
    case Array(items) => NormalizeItemsValue(items);
    case Object(members) =>
      NormalizeMembersValue(members);
      assert [] + members == members;
      InsertAllSorted([], members);
    case _ =>
  }

  lemma {:induction false} NormalizeItemsValue(items: seq<Json>)
    requires forall x | x in items :: IsValue(x)
    ensures NormalizeItems(items) == items
    decreases items, 0
  {
    if items != [] {
      NormalizeValue(items[0]);
      NormalizeItemsValue(items[1..]);
      assert items == [items[0]] + items[1..];
    }
  }

  lemma {:induction false} NormalizeMembersValue(ms: seq<Member>)
    requires forall m | m in ms :: IsValue(m.value)
    ensures NormalizeMembers(ms) == ms
    decreases ms, 0
  {
    if ms != [] {
      NormalizeValue(ms[0].value);
      NormalizeMembersValue(ms[1..]);
      assert ms == [ms[0]] + ms[1..];
    }
  }

  lemma {:induction false} InsertIsValue(ms: seq<Member>, m: Member)
    requires SortedNames(ms) && IsValue(m.value) && forall x | x in ms :: IsValue(x.value)
    ensures var r := Insert(ms, m); SortedNames(r) && forall x | x in r :: IsValue(x.value)
    ensures forall x | x in Insert(ms, m) :: x == m || x in ms
  {
    if ms != [] {
      var tail := ms[1..];
      InsertIsValue(tail, m);
      if ms[0].name != m.name {
        if Less(m.name, ms[0].name) {
          forall j | 0 <= j < |ms| ensures Less(m.name, ms[j].name) {
            if j > 0 { LessTransitive(m.name, ms[0].name, ms[j].name); }
          }
        } else {
          LessTotal(ms[0].name, m.name);
          var r := Insert(tail, m);
          forall j | 0 <= j < |r| ensures Less(ms[0].name, r[j].name) {
            assert r[j] in r;
          }
        }
      }
    }
  }

  lemma {:induction false} InsertAllIsValue(acc: seq<Member>, ms: seq<Member>)
    requires IsValue(Object(acc)) && forall m | m in ms :: IsValue(m.value)
    ensures IsValue(Object(InsertAll(acc, ms)))
    decreases ms
  {
    if ms != [] {
      InsertIsValue(acc, ms[0]);
      InsertAllIsValue(Insert(acc, ms[0]), ms[1..]);
    }
  }

  lemma {:induction false} NormalizeIsValue(v: Json)
    ensures IsValue(Normalize(v))
    decreases v, 1
  {
    match v
    case Array(items) => NormalizeItemsIsValue(items);
    case Object(members) =>
      NormalizeMembersIsValue(members);
      InsertAllIsValue([], NormalizeMembers(members));
    case _ =>
  }

  lemma {:induction false} NormalizeItemsIsValue(items: seq<Json>)
    ensures forall x | x in NormalizeItems(items) :: IsValue(x)
    decreases items, 0
  {
    if items != [] {
      NormalizeIsValue(items[0]);
      NormalizeItemsIsValue(items[1..]);
    }
  }

  lemma {:induction false} NormalizeMembersIsValue(ms: seq<Member>)
    ensures forall m | m in NormalizeMembers(ms) :: IsValue(m.value)
    decreases ms, 0
  {
    if ms != [] {
      NormalizeIsValue(ms[0].value);
      NormalizeMembersIsValue(ms[1..]);
    }
  }

  function ToValue(v: Json): Value {
    NormalizeIsValue(v);
    Normalize(v)
  }

  /** The member of that name, as `Value::get` finds it. */
  function Get(v: Json, name: string): Option<Json> {
    if v.Object? then Lookup(v.members, name) else None
  }

  function Lookup(ms: seq<Member>, name: string): Option<Json> {
    if ms == [] then None
    else if ms[0].name == name then Some(ms[0].value)
    else Lookup(ms[1..], name)
  }
}
