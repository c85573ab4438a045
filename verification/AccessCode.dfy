/** The human-readable access code: bytes through a 31-letter alphabet, grouped in threes by dashes. */
module AccessCode {
  import opened Basics

  const ALPHABET: string := "23456789ABCDEFGHJKMNPQRSTUVWXYZ"

  function Letter(b: byte): char {
    ALPHABET[(b as int) % 31]
  }

  /** The letters, without the grouping. */
  function Letters(raw: Bytes): (s: string)
    ensures |s| == |raw|
    ensures forall i | 0 <= i < |raw| :: s[i] == Letter(raw[i])
  {
    if raw == [] then "" else Letters(raw[..|raw| - 1]) + [Letter(raw[|raw| - 1])]
  }

  /** A dash before every letter whose index is a positive multiple of three. */
  function Group(letters: string): string {
    if letters == "" then ""
    else
      var n := |letters| - 1;
      Group(letters[..n]) + (if n > 0 && n % 3 == 0 then "-" else "") + [letters[n]]
  }

  function Code(raw: Bytes): string {
    Group(Letters(raw))
  }

  /** `token::access_code` on the random bytes it drew (fifteen of them in the source). */
  method MakeCode(raw: Bytes) returns (out: string)
    ensures out == Code(raw)
  {
    out := "";
    for i := 0 to |raw|
      invariant out == Code(raw[..i])
    {
      CodeSnoc(raw, i);
      if i > 0 && i % 3 == 0 {
        out := out + "-";
      }
      out := out + [Letter(raw[i])];
    }
    assert raw[..|raw|] == raw;
  }

  lemma CodeSnoc(raw: Bytes, i: nat)
    requires i < |raw|
    ensures Code(raw[..i + 1]) == Code(raw[..i]) + (if i > 0 && i % 3 == 0 then "-" else "") + [Letter(raw[i])]
  {
    assert raw[..i + 1][..i] == raw[..i];
    var l := Letters(raw[..i + 1]);
    assert l == Letters(raw[..i]) + [Letter(raw[i])];
    assert l[..i] == Letters(raw[..i]);
  }

  // ----- shape ----------------------------------------------------------------

  function Undash(s: string): string {
    if s == "" then ""
    else Undash(s[..|s| - 1]) + (if s[|s| - 1] == '-' then "" else [s[|s| - 1]])
  }

  lemma UndashSnoc(s: string, c: char)
    ensures Undash(s + [c]) == Undash(s) + (if c == '-' then "" else [c])
  {
    assert (s + [c])[..|s|] == s;
  }

  predicate NoDash(s: string) {
    forall i | 0 <= i < |s| :: s[i] != '-'
  }

  lemma LettersNoDash(raw: Bytes)
    ensures NoDash(Letters(raw))
  {
    assert NoDash(ALPHABET);
  }

  function GroupedLength(n: nat): nat {
    if n == 0 then 0 else n + (n - 1) / 3
  }

  lemma GroupedLengthStep(n: nat)
    requires n > 0
    ensures n % 3 == 0 ==> GroupedLength(n) % 4 == 3 && GroupedLength(n + 1) == GroupedLength(n) + 2
    ensures n % 3 != 0 ==> GroupedLength(n) % 4 != 3 && GroupedLength(n + 1) == GroupedLength(n) + 1
  {
  }

  ghost predicate DashesInPlace(s: string) {
    forall k | 0 <= k < |s| :: s[k] == '-' <==> k % 4 == 3
  }

  /** Length, dash positions, and that dropping the dashes gives the letters back. */
  ghost predicate IsGrouping(g: string, letters: string) {
    && |g| == GroupedLength(|letters|)
    && DashesInPlace(g)
    && Undash(g) == letters
  }

  lemma GroupingSnoc(g: string, letters: string, c: char)
    requires IsGrouping(g, letters) && c != '-'
    ensures var n := |letters|;
      IsGrouping(g + (if n > 0 && n % 3 == 0 then "-" else "") + [c], letters + [c])
  {
    var n := |letters|;
    if n > 0 { GroupedLengthStep(n); }
    if n > 0 && n % 3 == 0 {
      UndashSnoc(g, '-');
      UndashSnoc(g + "-", c);
    } else {
      assert g + "" == g;
      UndashSnoc(g, c);
    }
  }

  lemma {:induction false} GroupShape(letters: string)
    requires NoDash(letters)
    ensures IsGrouping(Group(letters), letters)
  {
    if letters != "" {
      var n := |letters| - 1;
      GroupShape(letters[..n]);
      GroupingSnoc(Group(letters[..n]), letters[..n], letters[n]);
      SplitLast(letters);
    }
  }

  /** The shape of every code the generator can return. */
  lemma CodeShape(raw: Bytes)
    ensures |Code(raw)| == (if raw == [] then 0 else |raw| + (|raw| - 1) / 3)
    ensures forall k | 0 <= k < |Code(raw)| :: Code(raw)[k] == '-' <==> k % 4 == 3
    ensures Undash(Code(raw)) == Letters(raw)
    ensures forall i | 0 <= i < |raw| :: Undash(Code(raw))[i] == ALPHABET[raw[i] as int % 31]
  {
    LettersNoDash(raw);
    GroupShape(Letters(raw));
  }

  // ----- how many byte strings give one code -----------------------------------

  function Below(n: nat): (s: set<nat>)
    ensures forall i: nat :: i in s <==> i < n
    ensures |s| == n
  {
    if n == 0 then {} else Below(n - 1) + {n - 1}
  }

  ghost function AllBytes(): (s: set<byte>)
    ensures forall b: byte :: b in s
  {
    var s := set i | i in Below(256) :: i as byte;
    assert forall b: byte :: b as nat in Below(256) ==> b in s;
    s
  }

  /** Every extension of a string of `xs` by a byte of `bs`. */
  ghost function Extend(xs: set<Bytes>, bs: set<byte>): set<Bytes> {
    set x, b | x in xs && b in bs :: x + [b]
  }

  lemma InExtend(xs: set<Bytes>, bs: set<byte>, y: Bytes)
    ensures y in Extend(xs, bs) <==> y != [] && y[..|y| - 1] in xs && y[|y| - 1] in bs
  {
    if y in Extend(xs, bs) {
      var x, b :| x in xs && b in bs && y == x + [b];
      assert y[..|x|] == x;
    } else if y != [] {
      SplitLast(y);
    }
  }

  lemma ExtendStrings(xs: set<Bytes>, n: nat)
    requires n > 0 && forall x: Bytes :: x in xs <==> |x| == n - 1
    ensures forall x: Bytes :: x in Extend(xs, AllBytes()) <==> |x| == n
  {
    hide Extend;
    forall x: Bytes ensures x in Extend(xs, AllBytes()) <==> |x| == n { InExtend(xs, AllBytes(), x); }
  }

  /** All byte strings of length `n`. */
  ghost function Strings(n: nat): (s: set<Bytes>)
    ensures forall x: Bytes :: x in s <==> |x| == n
  {
    if n == 0 then {[]}
    else
      ExtendStrings(Strings(n - 1), n);
      Extend(Strings(n - 1), AllBytes())
  }

  /** The byte strings of length `n` from which the generator makes `code`. */
  ghost function Preimages(n: nat, code: string): set<Bytes> {
    set x | x in Strings(n) && Code(x) == code
  }

  /** The bytes that give a letter. */
  ghost function Class(c: char): set<byte> {
    set b | b in AllBytes() && Letter(b) == c
  }

  /** The byte strings with the given letters. */
  ghost function Spelling(letters: string): (s: set<Bytes>)
    ensures forall x: Bytes :: x in s <==> Letters(x) == letters
  {
    if letters == "" then {[]}
    else
      var n := |letters| - 1;
      var xs, bs := Spelling(letters[..n]), Class(letters[n]);
      assert forall x: Bytes :: x in Extend(xs, bs) <==> Letters(x) == letters by {
        forall x: Bytes ensures x in Extend(xs, bs) <==> Letters(x) == letters {
          InExtend(xs, bs, x);
          LettersSplit(x, letters);
        }
      }
      Extend(xs, bs)
  }

  lemma LettersSplit(x: Bytes, letters: string)
    requires letters != ""
    ensures var n := |letters| - 1;
      Letters(x) == letters <==> x != [] && Letters(x[..|x| - 1]) == letters[..n] && Letter(x[|x| - 1]) == letters[n]
  {
    SplitLast(letters);
    if x != [] {
      var l := Letters(x);
      assert l[..|x| - 1] == Letters(x[..|x| - 1]);
    }
  }

  function Pow(b: nat, n: nat): nat {
    if n == 0 then 1 else b * Pow(b, n - 1)
  }

  lemma {:induction false} ExtendSize(xs: set<Bytes>, bs: set<byte>)
    ensures |Extend(xs, bs)| == |xs| * |bs|
    decreases bs
  {
    if bs == {} {
      assert Extend(xs, bs) == {};
    } else {
      var b :| b in bs;
      var rest := bs - {b};
      var e, f := Extend(xs, rest), Extend(xs, {b});
      ExtendSize(xs, rest);
      OneByteSize(xs, b);
      assert Extend(xs, bs) == e + f;
      assert e !! f by {
        forall y | y in e && y in f ensures false {
          InExtend(xs, rest, y);
          InExtend(xs, {b}, y);
        }
      }
      SizeOfUnion(xs, bs, rest, e, f);
    }
  }

  lemma SizeOfUnion(xs: set<Bytes>, bs: set<byte>, rest: set<byte>, e: set<Bytes>, f: set<Bytes>)
    requires e !! f && |e| == |xs| * |rest| && |f| == |xs| && |bs| == |rest| + 1
    ensures |e + f| == |xs| * |bs|
  {
  }

  lemma {:induction false} OneByteSize(xs: set<Bytes>, b: byte)
    ensures |Extend(xs, {b})| == |xs|
    decreases xs
  {
    if xs == {} {
      assert Extend(xs, {b}) == {};
    } else {
      var x :| x in xs;
      var rest := xs - {x};
      OneByteSize(rest, b);
      assert x + [b] !in Extend(rest, {b}) by {
        InExtend(rest, {b}, x + [b]);
        assert (x + [b])[..|x|] == x;
      }
      forall y ensures y in Extend(xs, {b}) <==> y in Extend(rest, {b}) + {x + [b]} {
        InExtend(xs, {b}, y);
        InExtend(rest, {b}, y);
        if y != [] { SplitLast(y); }
      }
      assert Extend(xs, {b}) == Extend(rest, {b}) + {x + [b]};
    }
  }

  lemma DivStep(r: nat, k: nat)
    requires r < 31 && k > 0
    ensures (k + 30 - r) / 31 == (k + 29 - r) / 31 + (if (k - 1) % 31 == r then 1 else 0)
  {
  }

  ghost function Residues(r: nat, k: nat): (s: set<nat>)
    requires r < 31
    ensures forall i: nat :: i in s <==> i < k && i % 31 == r
  {
    if k == 0 then {}
    else if (k - 1) % 31 == r then Residues(r, k - 1) + {k - 1}
    else Residues(r, k - 1)
  }

  /** How many numbers below `k` leave remainder `r`. */
  lemma {:induction false} ResidueCount(r: nat, k: nat)
    requires r < 31
    ensures |Residues(r, k)| == (k + 30 - r) / 31
  {
    if k > 0 {
      ResidueCount(r, k - 1);
      DivStep(r, k);
    }
  }

  /** A letter of the alphabet comes from nine bytes or from eight: 256 is 8 * 31 + 8. */
  lemma ClassSize(b: byte)
    ensures |Class(Letter(b))| == if b as int % 31 < 8 then 9 else 8
  {
    var r := b as int % 31;
    ResidueCount(r, 256);
    InClass(b);
    ByteSetSize(Class(Letter(b)), Residues(r, 256));
  }

  lemma InClass(b: byte)
    ensures forall c: byte :: c in Class(Letter(b)) <==> (c as nat) in Residues(b as int % 31, 256)
  {
    forall c: byte { LetterEqual(c, b); }
  }

  /** The alphabet in runs of consecutive characters. */
  function Nth(i: nat): int
    requires i < 31
  {
    i + (if i < 8 then 50 else if i < 16 then 57 else if i < 18 then 58 else if i < 20 then 59 else 60)
  }

  lemma AlphabetRuns(i: nat)
    requires i < 31
    ensures |ALPHABET| == 31 && ALPHABET[i] as int == Nth(i)
  {
  }

  lemma AlphabetInjective()
    ensures |ALPHABET| == 31
    ensures forall i, j | 0 <= i < j < 31 :: ALPHABET[i] != ALPHABET[j]
  {
    hide ALPHABET;
    AlphabetRuns(0);
    forall i, j | 0 <= i < j < 31 ensures ALPHABET[i] != ALPHABET[j] {
      AlphabetRuns(i);
      AlphabetRuns(j);
    }
  }

  lemma LetterEqual(b: byte, c: byte)
    ensures Letter(b) == Letter(c) <==> b as int % 31 == c as int % 31
  {
    AlphabetInjective();
  }

  lemma {:induction false} ByteSetSize(bs: set<byte>, s: set<nat>)
    requires forall i | i in s :: i < 256
    requires forall b: byte :: b in bs <==> (b as nat) in s
    ensures |bs| == |s|
    decreases bs
  {
    if bs == {} {
      assert forall i | i in s :: i !in s;
    } else {
      var b :| b in bs;
      ByteSetSize(bs - {b}, s - {b as nat});
    }
  }

  lemma Product(p: nat, q: nat, low: nat, high: nat)
    requires low <= p <= high && 8 <= q <= 9
    ensures 8 * low <= p * q <= 9 * high
  {
  }

  lemma LettersLast(raw: Bytes)
    requires raw != []
    ensures var n := |raw| - 1;
      && |Letters(raw)| == |raw|
      && Letters(raw)[..n] == Letters(raw[..n]) && Letters(raw)[n] == Letter(raw[n])
  {
    hide Letter;
  }

  lemma SpellingStep(raw: Bytes)
    requires raw != []
    ensures var n := |raw| - 1;
      Spelling(Letters(raw)) == Extend(Spelling(Letters(raw[..n])), Class(Letter(raw[n])))
  {
    hide Letters, Letter, Class, Extend;
    LettersLast(raw);
  }

  lemma {:induction false} SpellingSize(raw: Bytes)
    ensures Pow(8, |raw|) <= |Spelling(Letters(raw))| <= Pow(9, |raw|)
  {
    if raw != [] {
      var n := |raw| - 1;
      SpellingSize(raw[..n]);
      SpellingStep(raw);
      var xs, bs := Spelling(Letters(raw[..n])), Class(Letter(raw[n]));
      ExtendSize(xs, bs);
      ClassSize(raw[n]);
      hide Spelling, Class, Extend, Letters, Letter;
      Product(|xs|, |bs|, Pow(8, n), Pow(9, n));
    }
  }

  lemma AllBytesSize()
    ensures |AllBytes()| == 256
  {
    ByteSetSize(AllBytes(), Below(256));
  }

  lemma StringsStep(n: nat)
    requires n > 0
    ensures Strings(n) == Extend(Strings(n - 1), AllBytes())
  {
    hide Extend, AllBytes;
  }

  lemma {:induction false} StringsSize(n: nat)
    ensures |Strings(n)| == Pow(256, n)
  {
    AllBytesSize();
    hide Extend, AllBytes;
    if n > 0 {
      StringsSize(n - 1);
      StringsStep(n);
      ExtendedBy(Strings(n - 1), AllBytes(), Pow(256, n - 1), 256);
    }
  }

  lemma ExtendedBy(xs: set<Bytes>, bs: set<byte>, p: nat, q: nat)
    requires |xs| == p && |bs| == q
    ensures |Extend(xs, bs)| == q * p
  {
    ExtendSize(xs, bs);
    hide Extend;
  }

  /**
   The counting bound, for every length: no code comes from more than 9^n of the 256^n byte strings,
   and one that comes from any comes from at least 8^n.
   */
  lemma PreimageBound(n: nat, code: string)
    ensures |Strings(n)| == Pow(256, n)
    ensures |Preimages(n, code)| <= Pow(9, n)
    ensures Preimages(n, code) != {} ==> Pow(8, n) <= |Preimages(n, code)|
  {
    StringsSize(n);
    if raw :| raw in Preimages(n, code) {
      SpellingSize(raw);
      SameLetters(n, code, raw);
    }
  }

  /** Only the letters matter: grouping is undone by dropping the dashes. */
  lemma SameCode(x: Bytes, raw: Bytes)
    ensures Code(x) == Code(raw) <==> Letters(x) == Letters(raw)
  {
    CodeShape(x);
    CodeShape(raw);
  }

  lemma SameLetters(n: nat, code: string, raw: Bytes)
    requires raw in Preimages(n, code)
    ensures Preimages(n, code) == Spelling(Letters(raw))
  {
    hide Code, Letters, Strings, Spelling;
    forall x: Bytes ensures x in Preimages(n, code) <==> x in Spelling(Letters(raw)) {
      SameCode(x, raw);
    }
  }

  /** At the source's fifteen bytes, any one code has probability at most 2^-72. */
  lemma CodeProbability(code: string)
    ensures |Preimages(15, code)| * Pow(2, 72) <= |Strings(15)|
  {
    PreimageBound(15, code);
    PowValues();
  }

  lemma PowValues()
    ensures Pow(9, 15) == 205891132094649
    ensures Pow(256, 15) == 0x1_0000_0000_0000_0000_0000_0000_0000_00
    ensures Pow(2, 72) == 0x1_0000_0000_0000_0000_00
  {
    assert Pow(9, 5) == 59049;
    assert Pow(9, 10) == 3486784401;
    assert Pow(256, 5) == 0x1_0000_0000_00;
    assert Pow(256, 10) == 0x1_0000_0000_0000_0000_0000;
    assert Pow(2, 8) == 0x1_00;
    assert Pow(2, 16) == 0x1_0000;
    assert Pow(2, 24) == 0x1_0000_00;
    assert Pow(2, 32) == 0x1_0000_0000;
    assert Pow(2, 40) == 0x1_0000_0000_00;
    assert Pow(2, 48) == 0x1_0000_0000_0000;
    assert Pow(2, 56) == 0x1_0000_0000_0000_00;
    assert Pow(2, 64) == 0x1_0000_0000_0000_0000;
  }
}
