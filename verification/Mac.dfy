/** The XOR/OR comparison that the crypto and storage crates use for tags and access-code hashes. */
module Mac {
  import opened Basics

  lemma Accumulate(d: bv8, x: bv8, y: bv8)
    ensures d | (x ^ y) == 0 <==> d == 0 && x == y
  {
  }

  function Pack(h: bool, g: bool, f: bool, e: bool, d: bool, c: bool, b: bool, a: bool): bv8 {
    (if h then 128 else 0) | (if g then 64 else 0) | (if f then 32 else 0) | (if e then 16 else 0)
    | (if d then 8 else 0) | (if c then 4 else 0) | (if b then 2 else 0) | (if a then 1 else 0)
  }

  lemma PackInjective(s: seq<bool>, t: seq<bool>)
    requires |s| == |t| == 8
    requires Pack(s[7], s[6], s[5], s[4], s[3], s[2], s[1], s[0])
      == Pack(t[7], t[6], t[5], t[4], t[3], t[2], t[1], t[0])
    ensures s == t
  {
    PackedBits(s[7], s[6], s[5], s[4], s[3], s[2], s[1], s[0]);
    PackedBits(t[7], t[6], t[5], t[4], t[3], t[2], t[1], t[0]);
    hide Pack;
  }

  lemma PackedBits(h: bool, g: bool, f: bool, e: bool, d: bool, c: bool, b: bool, a: bool)
    ensures var v := Pack(h, g, f, e, d, c, b, a);
      && (h <==> v & 128 != 0) && (g <==> v & 64 != 0) && (f <==> v & 32 != 0) && (e <==> v & 16 != 0)
      && (d <==> v & 8 != 0) && (c <==> v & 4 != 0) && (b <==> v & 2 != 0) && (a <==> v & 1 != 0)
  {
  }

  /** The last `k` binary digits, lowest first. */
  function Digits(n: nat, k: nat): (s: seq<bool>)
    ensures |s| == k
  {
    if k == 0 then [] else [n % 2 == 1] + Digits(n / 2, k - 1)
  }

  function Power(k: nat): nat {
    if k == 0 then 1 else 2 * Power(k - 1)
  }

  lemma {:induction false} DigitsInjective(n: nat, m: nat, k: nat)
    requires n < Power(k) && m < Power(k) && Digits(n, k) == Digits(m, k)
    ensures n == m
  {
    if k > 0 {
      assert Digits(n, k)[0] == Digits(m, k)[0] && Digits(n, k)[1..] == Digits(m, k)[1..];
      DigitsInjective(n / 2, m / 2, k - 1);
    }
  }

  /** The bits of a u8. */
  function Bits(x: byte): bv8 {
    var s := Digits(x as nat, 8);
    Pack(s[7], s[6], s[5], s[4], s[3], s[2], s[1], s[0])
  }

  lemma BitsInjective(x: byte, y: byte)
    ensures Bits(x) == Bits(y) <==> x == y
  {
    assert Power(8) == 256;
    if Bits(x) == Bits(y) {
      PackInjective(Digits(x as nat, 8), Digits(y as nat, 8));
      DigitsInjective(x as nat, y as nat, 8);
    }
    hide Pack, Digits;
  }

  /** Equality of byte strings, of any lengths. */
  method ConstantTimeEq(a: Bytes, b: Bytes) returns (equal: bool)
    ensures equal <==> a == b
  {
    if |a| != |b| {
      return false;
    }
    var diff: bv8 := 0;
    for i := 0 to |a|
      invariant diff == 0 <==> a[..i] == b[..i]
    {
      Accumulate(diff, Bits(a[i]), Bits(b[i]));
      BitsInjective(a[i], b[i]);
      assert a[..i + 1] == a[..i] + [a[i]] && b[..i + 1] == b[..i] + [b[i]];
      diff := diff | (Bits(a[i]) ^ Bits(b[i]));
    }
    assert a[..|a|] == a && b[..|b|] == b;
    return diff == 0;
  }

  /** `mac::verify` accepts exactly the recomputed tag; `None` is the failing provider call. */
  method Verify(hmac: (Bytes, Bytes) -> Option<Digest>, key: Bytes, data: Bytes, tag: Bytes)
    returns (r: Option<bool>)
    ensures r.None? <==> hmac(key, data).None?
    ensures r == Some(true) <==> hmac(key, data).Some? && tag == hmac(key, data).value
  {
    var expected := hmac(key, data);
    if expected.None? {
      return None;
    }
    var equal := ConstantTimeEq(expected.value, tag);
    return Some(equal);
  }

  /** `verify_access_code` accepts exactly the candidates whose hash is the stored one. */
  method VerifyAccessCode(sha: string -> Digest, stored: Digest, candidate: string) returns (r: bool)
    ensures r <==> sha(candidate) == stored
  {
    r := ConstantTimeEq(sha(candidate), stored);
  }
}
