/** Shared vocabulary: results, bytes, hashes and the text helpers of the standard library. */
module Basics {

  datatype Option<+T> = None | Some(value: T)

  datatype Result<+T, +E> = Ok(value: T) | Err(error: E)

  newtype byte = x: int | 0 <= x < 256

  type Bytes = seq<byte>

  /** A SHA-256 digest. The hash itself is always a parameter, and nothing is assumed of it. */
  type Digest = d: Bytes | |d| == 32 witness seq(32, _ => 0 as byte)

  /** A UUID, held as its hyphenated lower-case text. */
  type Uuid = s: string | |s| == 36 witness "00000000-0000-0000-0000-000000000000"

  /** `char::is_whitespace`: the White_Space property of Unicode. */
  predicate IsSpace(c: char) {
    || '\t' <= c <= '\r' || c == ' '
    || c == '\U{85}' || c == '\U{A0}' || c == '\U{1680}'
    || '\U{2000}' <= c <= '\U{200A}'
    || c == '\U{2028}' || c == '\U{2029}' || c == '\U{202F}' || c == '\U{205F}' || c == '\U{3000}'
  }

  function TrimStart(s: string): string {
    if s != "" && IsSpace(s[0]) then TrimStart(s[1..]) else s
  }

  function TrimEnd(s: string): string {
    if s != "" && IsSpace(s[|s| - 1]) then TrimEnd(s[..|s| - 1]) else s
  }

  /** `str::trim`. */
  function Trim(s: string): string {
    TrimEnd(TrimStart(s))
  }

  predicate NoOuterSpace(s: string) {
    s == "" || (!IsSpace(s[0]) && !IsSpace(s[|s| - 1]))
  }

  lemma TrimKeeps(s: string)
    requires NoOuterSpace(s)
    ensures Trim(s) == s
  {
  }

  lemma TrimShape(s: string)
    ensures NoOuterSpace(Trim(s))
  {
    StartShape(s);
    EndShape(TrimStart(s));
  }

  /** Trimming takes exactly the spaces at either end. */
  lemma TrimExact(s: string) returns (i: nat, j: nat)
    ensures i <= j <= |s| && Trim(s) == s[i..j] && NoOuterSpace(Trim(s))
    ensures forall k | 0 <= k < i || j <= k < |s| :: IsSpace(s[k])
  {
    TrimShape(s);
    i := StartExact(s);
    var n := EndExact(s[i..]);
    j := i + n;
    forall k | j <= k < |s| ensures IsSpace(s[k]) {
      assert s[i..][k - i] == s[k];
    }
  }

  lemma {:induction false} StartExact(s: string) returns (i: nat)
    ensures i <= |s| && TrimStart(s) == s[i..] && forall k | 0 <= k < i :: IsSpace(s[k])
  {
    i := 0;
    if s != "" && IsSpace(s[0]) {
      var n := StartExact(s[1..]);
      i := n + 1;
      forall k | 0 <= k < i ensures IsSpace(s[k]) {
        if k > 0 { assert s[1..][k - 1] == s[k]; }
      }
    }
  }

  lemma {:induction false} EndExact(s: string) returns (n: nat)
    ensures n <= |s| && TrimEnd(s) == s[..n] && forall k | n <= k < |s| :: IsSpace(s[k])
  {
    n := |s|;
    if s != "" && IsSpace(s[|s| - 1]) {
      n := EndExact(s[..|s| - 1]);
      forall k | n <= k < |s| ensures IsSpace(s[k]) {
        if k < |s| - 1 { assert s[..|s| - 1][k] == s[k]; }
      }
    }
  }

  lemma {:induction false} StartShape(s: string)
    ensures var t := TrimStart(s); t == "" || !IsSpace(t[0])
  {
    if s != "" { StartShape(s[1..]); }
  }

  lemma {:induction false} EndShape(s: string)
    requires s == "" || !IsSpace(s[0])
    ensures NoOuterSpace(TrimEnd(s))
  {
    if |s| > 1 { EndShape(s[..|s| - 1]); }
  }

  /** Nothing but spaces, exactly where trimming leaves nothing. */
  lemma BlankExact(s: string)
    ensures Trim(s) == "" <==> forall k | 0 <= k < |s| :: IsSpace(s[k])
  {
    var i, j := TrimExact(s);
    hide Trim;
    if i < j {
      assert !IsSpace(s[i..j][0]);
    }
  }

  /** The text before the first `sep`, and the text after it if there is one. */
  function Cut(s: string, sep: char): (r: (string, Option<string>))
    ensures r.1.Some? ==> |r.1.value| < |s|
  {
    if s == "" then ("", None)
    else if s[0] == sep then ("", Some(s[1..]))
    else
      var (head, tail) := Cut(s[1..], sep);
      ([s[0]] + head, tail)
  }

  lemma {:induction false} CutJoins(s: string, sep: char)
    ensures var (head, tail) := Cut(s, sep);
      sep !in head && s == (if tail.None? then head else head + [sep] + tail.value)
  {
    if s != "" && s[0] != sep {
      CutJoins(s[1..], sep);
      assert s == [s[0]] + s[1..];
    }
  }

  lemma {:induction false} CutAt(a: string, sep: char, rest: string)
    requires sep !in a
    ensures Cut(a + [sep] + rest, sep) == (a, Some(rest))
  {
    var s := a + [sep] + rest;
    if a == "" {
      assert s[1..] == rest;
    } else {
      assert s[1..] == a[1..] + [sep] + rest;
      CutAt(a[1..], sep, rest);
      assert [a[0]] + a[1..] == a;
    }
  }

  lemma {:induction false} CutNone(a: string, sep: char)
    requires sep !in a
    ensures Cut(a, sep) == (a, None)
  {
    if a != "" {
      CutNone(a[1..], sep);
      assert [a[0]] + a[1..] == a;
    }
  }

  lemma SplitLast<T>(s: seq<T>)
    requires s != []
    ensures s == s[..|s| - 1] + [s[|s| - 1]]
  {
  }
}
