/** Lower-case hexadecimal, as `hex::encode` prints digests. */
module Hex {
  import opened Basics

  function Digit(n: nat): (c: char)
    requires n < 16
    ensures '0' <= c <= '9' || 'a' <= c <= 'f'
  {
    if n < 10 then ('0' as int + n) as char else ('a' as int + n - 10) as char
  }

  function High(b: byte): nat { (b / 16) as nat }

  function Low(b: byte): nat { (b % 16) as nat }

  function Encode(bs: Bytes): (s: string)
    ensures |s| == 2 * |bs|
  {
    if bs == [] then "" else [Digit(High(bs[0])), Digit(Low(bs[0]))] + Encode(bs[1..])
  }

  /** Distinct byte strings print differently, so equal hex means equal digests. */
  lemma {:induction false} EncodeInjective(a: Bytes, b: Bytes)
    requires Encode(a) == Encode(b)
    ensures a == b
  {
    if a != [] && b != [] {
      var s := Encode(a);
      assert s[2..] == Encode(a[1..]) && s[2..] == Encode(b[1..]);
      assert s[0] == Digit(High(a[0])) == Digit(High(b[0]));
      assert s[1] == Digit(Low(a[0])) == Digit(Low(b[0]));
      EncodeInjective(a[1..], b[1..]);
      assert a == [a[0]] + a[1..] && b == [b[0]] + b[1..];
    }
  }
}
