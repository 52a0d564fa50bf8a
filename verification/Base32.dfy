/** Activation keys and identifiers: base-32 over a wrapping 64-bit accumulator (licensing/doc.go:190-240).
    The packing is that of section 6 of RFC 4648, without padding, over the Crockford alphabet. */
module Base32 {
  import opened Common

  newtype bit = x: int | 0 <= x < 2
  /** A five-bit group. */
  newtype quintet = x: int | 0 <= x < 32

  const CROCKFORD: string := "0123456789ABCDEFGHJKMNPQRSTVWXYZ"

  // -------------------------------------------------------------- bit strings

  function Pow2(n: nat): (p: nat)
    ensures p > 0
  {
    if n == 0 then 1 else 2 * Pow2(n - 1)
  }

  /** The n low bits of x, most significant first. */
  function Low(x: nat, n: nat): (s: seq<bit>)
    ensures |s| == n
  {
    if n == 0 then [] else Low(x / 2, n - 1) + [(x % 2) as bit]
  }

  function Value(bits: seq<bit>): nat {
    if bits == [] then 0 else 2 * Value(bits[..|bits| - 1]) + bits[|bits| - 1] as nat
  }

  function BitsOf(bytes: seq<byte>): (s: seq<bit>)
    ensures |s| == 8 * |bytes|
  {
    if bytes == [] then [] else BitsOf(bytes[..|bytes| - 1]) + Low(bytes[|bytes| - 1] as nat, 8)
  }

  function BitsOfGroups(qs: seq<quintet>): (s: seq<bit>)
    ensures |s| == 5 * |qs|
  {
    if qs == [] then [] else BitsOfGroups(qs[..|qs| - 1]) + Low(qs[|qs| - 1] as nat, 5)
  }

  function Zeros(n: nat): seq<bit> { if n == 0 then [] else Zeros(n - 1) + [0] }

  lemma {:induction false} ZerosAreLow(n: nat)
    ensures Zeros(n) == Low(0, n) && |Zeros(n)| == n
  {
    if n > 0 { ZerosAreLow(n - 1); }
  }

  lemma {:induction false} ValueOfLow(x: nat, n: nat)
    ensures Value(Low(x, n)) == x % Pow2(n)
  {
    if n > 0 {
      ValueOfLow(x / 2, n - 1);
      assert Low(x, n)[..n - 1] == Low(x / 2, n - 1);
      HalfMod(x, Pow2(n - 1));
    }
  }

  lemma MulAtLeast(k: int, d: int)
    requires k >= 1 && d > 0
    ensures k * d >= d
  {
  }

  lemma DivUnique(x: int, d: int, q: int, r: int)
    requires d > 0 && 0 <= r < d && x == q * d + r
    ensures x / d == q && x % d == r
  {
    var k := x / d - q;
    assert k * d == x / d * d - q * d;
    assert (-k) * d == -(k * d);
    if k >= 1 { MulAtLeast(k, d); }
    if k <= -1 { MulAtLeast(-k, d); }
  }

  lemma HalfMod(x: nat, p: nat)
    requires p > 0
    ensures x % (2 * p) == 2 * (x / 2 % p) + x % 2
    ensures x % (2 * p) / 2 == x / 2 % p
    ensures x % (2 * p) % 2 == x % 2
  {
    var q, r := x / 2 / p, x / 2 % p;
    assert x / 2 == q * p + r;
    assert q * (2 * p) == 2 * (q * p);
    DivUnique(x, 2 * p, q, 2 * r + x % 2);
  }

  lemma {:induction false} LowOfMod(x: nat, m: nat, n: nat)
    requires n <= m
    ensures Low(x % Pow2(m), n) == Low(x, n)
  {
    if n > 0 {
      HalfMod(x, Pow2(m - 1));
      LowOfMod(x / 2, m - 1, n - 1);
    }
  }

  /** Shifting left and adding appends bits. */
  lemma {:induction false} LowAppend(x: nat, c: nat, a: nat, b: nat)
    requires c < Pow2(b)
    ensures Low(x * Pow2(b) + c, a + b) == Low(x, a) + Low(c, b)
  {
    if b == 0 {
      assert x * Pow2(0) + c == x;
    } else {
      var p := Pow2(b - 1);
      var y := x * Pow2(b) + c;
      assert x * Pow2(b) == 2 * (x * p);
      assert y / 2 == x * p + c / 2 && y % 2 == c % 2;
      LowAppend(x, c / 2, a, b - 1);
      assert Low(x, a) + (Low(c / 2, b - 1) + [(c % 2) as bit]) == Low(x, a) + Low(c / 2, b - 1) + [(c % 2) as bit];
    }
  }

  /** x >> n. */
  function Shr(x: nat, n: nat): nat {
    if n == 0 then x else Shr(x / 2, n - 1)
  }

  /** Shifting right drops the low bits. */
  lemma {:induction false} LowSplit(x: nat, a: nat, b: nat)
    ensures Low(x, a + b) == Low(Shr(x, b), a) + Low(x, b)
  {
    if b > 0 {
      LowSplit(x / 2, a, b - 1);
      var l := [(x % 2) as bit];
      assert Low(Shr(x, b), a) + Low(x / 2, b - 1) + l == Low(Shr(x, b), a) + (Low(x / 2, b - 1) + l);
    } else {
      assert Low(x, a) + [] == Low(x, a);
    }
  }

  // ------------------------------------------------ the encoding, by its bits

  /** Five-bit groups of a bit string, most significant first, the last one filled with zeros. */
  function Groups(bits: seq<bit>): seq<quintet>
    decreases |bits|
  {
    if bits == [] then []
    else if |bits| < 5 then (ZerosAreLow(5 - |bits|); [Group(bits + Zeros(5 - |bits|))])
    else [Group(bits[..5])] + Groups(bits[5..])
  }

  function Group(five: seq<bit>): quintet
    requires |five| == 5
  {
    (16 * (five[0] as int) + 8 * (five[1] as int) + 4 * (five[2] as int) + 2 * (five[3] as int)
     + (five[4] as int)) as quintet
  }

  function Spell(qs: seq<quintet>): (s: string)
    ensures |s| == |qs| && forall i :: 0 <= i < |qs| ==> s[i] == CROCKFORD[qs[i]]
  {
    seq(|qs|, i requires 0 <= i < |qs| => CROCKFORD[qs[i]])
  }

  function Encode(b: seq<byte>): (s: string)
    ensures |s| == (8 * |b| + 4) / 5
  {
    GroupsAreBits(BitsOf(b));
    Spell(Groups(BitsOf(b)))
  }

  // ----------------------------------------------------------- groups and bits

  lemma Assoc(a: seq<bit>, b: seq<bit>, c: seq<bit>)
    ensures a + (b + c) == a + b + c
    ensures a + [] == a && [] + a == a
  {
  }

  lemma GroupOfLow(q: quintet)
    ensures Group(Low(q as nat, 5)) == q
  {
    ValueOfLow(q as nat, 5);
    FiveBits(Low(q as nat, 5));
  }

  lemma FiveBits(five: seq<bit>)
    requires |five| == 5
    ensures Group(five) as nat == Value(five)
  {
    assert five[..4][..3] == five[..3] && five[..3][..2] == five[..2] && five[..2][..1] == five[..1];
    assert five[..1][..0] == [];
    assert Value(five[..1]) == five[0] as nat;
    assert Value(five[..2]) == 2 * Value(five[..1]) + five[1] as nat;
    assert Value(five[..3]) == 2 * Value(five[..2]) + five[2] as nat;
    assert Value(five[..4]) == 2 * Value(five[..3]) + five[3] as nat;
  }

  lemma {:induction false} LowOfValue(bits: seq<bit>)
    ensures Low(Value(bits), |bits|) == bits && Value(bits) < Pow2(|bits|)
  {
    if bits != [] {
      LowOfValue(bits[..|bits| - 1]);
      assert bits == bits[..|bits| - 1] + [bits[|bits| - 1]];
    }
  }

  lemma LowOfGroup(five: seq<bit>)
    requires |five| == 5
    ensures Low(Group(five) as nat, 5) == five
  {
    FiveBits(five);
    LowOfValue(five);
  }

  lemma {:induction false} GroupsConcat(a: seq<quintet>, b: seq<quintet>)
    ensures BitsOfGroups(a + b) == BitsOfGroups(a) + BitsOfGroups(b)
  {
    if b == [] {
      assert a + b == a && BitsOfGroups(a) + [] == BitsOfGroups(a);
    } else {
      var n := |b| - 1;
      GroupsConcat(a, b[..n]);
      assert (a + b)[..|a + b| - 1] == a + b[..n];
      Assoc(BitsOfGroups(a), BitsOfGroups(b[..n]), Low(b[n] as nat, 5));
    }
  }

  lemma OneGroup(q: quintet)
    ensures BitsOfGroups([q]) == Low(q as nat, 5)
  {
    assert [q][..0] == [] && [] + Low(q as nat, 5) == Low(q as nat, 5);
  }

  function Padding(n: nat): (z: nat)
    ensures z < 5
  {
    if n % 5 == 0 then 0 else 5 - n % 5
  }

  lemma PaddingFacts(n: nat)
    ensures 0 < n < 5 ==> Padding(n) == 5 - n
    ensures n >= 5 ==> Padding(n - 5) == Padding(n)
    ensures 5 * ((n + 4) / 5) == n + Padding(n)
  {
  }

  lemma LastGroup(bits: seq<bit>)
    requires 0 < |bits| < 5
    ensures |Groups(bits)| == 1
    ensures BitsOfGroups(Groups(bits)) == bits + Zeros(5 - |bits|)
  {
    ZerosAreLow(5 - |bits|);
    var five := bits + Zeros(5 - |bits|);
    assert Groups(bits) == [Group(five)];
    LowOfGroup(five);
    OneGroup(Group(five));
  }

  lemma FirstGroup(bits: seq<bit>)
    requires |bits| >= 5
    ensures BitsOfGroups(Groups(bits)) == bits[..5] + BitsOfGroups(Groups(bits[5..]))
  {
    var head, tail := Group(bits[..5]), Groups(bits[5..]);
    assert Groups(bits) == [head] + tail;
    LowOfGroup(bits[..5]);
    OneGroup(head);
    GroupsConcat([head], tail);
  }

  /** The groups are the bits, in order, with fewer than five zeros after them. */
  lemma {:induction false} GroupsAreBits(bits: seq<bit>)
    ensures BitsOfGroups(Groups(bits)) == bits + Zeros(Padding(|bits|))
    ensures |Groups(bits)| == (|bits| + 4) / 5
    decreases |bits|
  {
    PaddingFacts(|bits|);
    if |bits| >= 5 {
      FirstGroup(bits);
      GroupsAreBits(bits[5..]);
      Assoc(bits[..5], bits[5..], Zeros(Padding(|bits|)));
      assert bits[..5] + bits[5..] == bits;
    } else if bits != [] {
      LastGroup(bits);
    }
  }

  lemma {:induction false} GroupsInjective(a: seq<quintet>, b: seq<quintet>)
    requires BitsOfGroups(a) == BitsOfGroups(b)
    ensures a == b
  {
    assert |a| == |b|;
    if a != [] {
      var n := |a| - 1;
      var x, y := BitsOfGroups(a), BitsOfGroups(b);
      assert x[..5 * n] == BitsOfGroups(a[..n]) && y[..5 * n] == BitsOfGroups(b[..n]);
      assert x[5 * n..] == Low(a[n] as nat, 5) && y[5 * n..] == Low(b[n] as nat, 5);
      GroupsInjective(a[..n], b[..n]);
      GroupOfLow(a[n]);
      GroupOfLow(b[n]);
      assert a == a[..n] + [a[n]] && b == b[..n] + [b[n]];
    }
  }

  // --------------------------------------------------- the accumulator program

  /** acc<<8 | uint(c) on a 64-bit accumulator. */
  function Push(acc: nat, c: byte): nat { (acc * 256 + c as nat) % TWO64 }

  /** (acc>>bits) & 31 */
  function Five(acc: nat, bits: nat): quintet { (Shr(acc, bits) % 32) as quintet }

  /** (acc<<(5-bits)) & 31 */
  function LastFive(acc: nat, bits: nat): quintet
    requires bits <= 5
  {
    (acc * Pow2(5 - bits) % TWO64 % 32) as quintet
  }

  lemma SpellSnoc(qs: seq<quintet>, q: quintet)
    ensures Spell(qs + [q]) == Spell(qs) + [CROCKFORD[q]]
  {
  }

  /** What the loop keeps: the bits already spelled, then the `bits` low bits of the accumulator. */
  ghost predicate Progress(b: seq<byte>, qs: seq<quintet>, acc: nat, bits: nat) {
    BitsOfGroups(qs) + Low(acc, bits) == BitsOf(b)
  }

  /** Wrapping at 64 bits keeps the low bits. */
  lemma LowOfWrapped(x: nat, n: nat)
    requires n <= 64
    ensures Low(x % TWO64, n) == Low(x, n)
  {
    Pow64();
    LowOfMod(x, 64, n);
  }

  lemma LowOf32(x: nat)
    ensures Low(x % 32, 5) == Low(x, 5)
  {
    Pow8();
    LowOfMod(x, 5, 5);
  }

  lemma ShiftInByte(acc: nat, c: byte, bits: nat)
    requires bits < 5
    ensures Low(Push(acc, c), bits + 8) == Low(acc, bits) + Low(c as nat, 8)
  {
    Pow8();
    LowAppend(acc, c as nat, bits, 8);
    LowOfWrapped(acc * 256 + c as nat, bits + 8);
  }

  lemma TakeByte(b: seq<byte>, c: byte, qs: seq<quintet>, acc: nat, bits: nat)
    requires Progress(b, qs, acc, bits) && bits < 5
    ensures Progress(b + [c], qs, Push(acc, c), bits + 8)
  {
    ShiftInByte(acc, c, bits);
    assert (b + [c])[..|b|] == b;
    Assoc(BitsOfGroups(qs), Low(acc, bits), Low(c as nat, 8));
  }

  lemma Pow8()
    ensures Pow2(8) == 256 && Pow2(5) == 32
  {
    assert Pow2(2) == 4 && Pow2(3) == 8 && Pow2(4) == 16;
  }

  lemma Pow64()
    ensures Pow2(64) == TWO64
  {
    Pow8();
    PowAdd(8, 8);
    assert Pow2(16) == 0x1_0000;
    PowAdd(16, 16);
    assert Pow2(32) == 0x1_0000_0000;
    PowAdd(32, 32);
  }

  lemma TwiceProduct(a: nat, b: nat)
    ensures a * (2 * b) == 2 * (a * b)
  {
  }

  lemma {:induction false} PowAdd(a: nat, b: nat)
    ensures Pow2(a + b) == Pow2(a) * Pow2(b)
  {
    if b > 0 {
      PowAdd(a, b - 1);
      TwiceProduct(Pow2(a), Pow2(b - 1));
      assert Pow2(a + b) == 2 * Pow2(a + (b - 1));
    }
  }

  lemma SpellGroup(b: seq<byte>, qs: seq<quintet>, acc: nat, bits: nat)
    requires Progress(b, qs, acc, bits) && bits >= 5
    ensures Progress(b, qs + [Five(acc, bits - 5)], acc, bits - 5)
  {
    var q := Five(acc, bits - 5);
    LowSplit(acc, 5, bits - 5);
    LowOf32(Shr(acc, bits - 5));
    assert (qs + [q])[..|qs|] == qs;
    Assoc(BitsOfGroups(qs), Low(q as nat, 5), Low(acc, bits - 5));
  }

  lemma ShiftInZeros(acc: nat, bits: nat)
    requires 0 < bits < 5
    ensures Low(LastFive(acc, bits) as nat, 5) == Low(acc, bits) + Zeros(5 - bits)
  {
    var x := acc * Pow2(5 - bits);
    LowAppend(acc, 0, bits, 5 - bits);
    assert Low(x + 0, bits + (5 - bits)) == Low(x, 5);
    ZerosAreLow(5 - bits);
    LowOfWrapped(x, 5);
    LowOf32(x % TWO64);
  }

  lemma PaddingUnique(n: nat, z: nat, m: nat)
    requires z < 5 && n + z == 5 * m
    ensures z == Padding(n)
  {
  }

  /** Groups are determined by their bits and the zero fill. */
  lemma GroupsAre(b: seq<byte>, qs: seq<quintet>, z: nat)
    requires z < 5 && BitsOfGroups(qs) == BitsOf(b) + Zeros(z)
    ensures Groups(BitsOf(b)) == qs
  {
    ZerosAreLow(z);
    GroupsAreBits(BitsOf(b));
    PaddingUnique(8 * |b|, z, |qs|);
    GroupsInjective(qs, Groups(BitsOf(b)));
  }

  lemma SpellRest(b: seq<byte>, qs: seq<quintet>, acc: nat, bits: nat)
    requires Progress(b, qs, acc, bits) && bits < 5
    ensures bits == 0 ==> Groups(BitsOf(b)) == qs
    ensures bits > 0 ==> Groups(BitsOf(b)) == qs + [LastFive(acc, bits)]
  {
    if bits == 0 {
      Assoc(BitsOf(b), [], []);
      Assoc(BitsOfGroups(qs), [], []);
      GroupsAre(b, qs, 0);
    } else {
      var q := LastFive(acc, bits);
      ShiftInZeros(acc, bits);
      assert (qs + [q])[..|qs|] == qs;
      Assoc(BitsOfGroups(qs), Low(acc, bits), Zeros(5 - bits));
      GroupsAre(b, qs + [q], 5 - bits);
    }
  }

  /** base32 as written: bytes shifted into an accumulator that wraps at 64 bits and is never masked. */
  method EncodeBytes(b: seq<byte>) returns (out: string)
    ensures out == Encode(b)
  {
    out := "";
    var acc: nat := 0;
    var bits: nat := 0;
    ghost var qs: seq<quintet> := [];
    for i := 0 to |b|
      invariant bits < 5
      invariant out == Spell(qs) && Progress(b[..i], qs, acc, bits)
    {
      assert b[..i + 1] == b[..i] + [b[i]];
      TakeByte(b[..i], b[i], qs, acc, bits);
      acc := Push(acc, b[i]);
      bits := bits + 8;
      while bits >= 5
        invariant out == Spell(qs) && Progress(b[..i + 1], qs, acc, bits)
      {
        SpellGroup(b[..i + 1], qs, acc, bits);
        bits := bits - 5;
        SpellSnoc(qs, Five(acc, bits));
        out := out + [CROCKFORD[Five(acc, bits)]];
        qs := qs + [Five(acc, bits)];
      }
    }
    assert b[..|b|] == b;
    SpellRest(b, qs, acc, bits);
    if bits > 0 {
      SpellSnoc(qs, LastFive(acc, bits));
      out := out + [CROCKFORD[LastFive(acc, bits)]];
    }
  }

  // ------------------------------------------------------------------ decoding

  /** The position of a symbol in the alphabet, 0 for a character outside it. */
  function Position(c: char, n: nat): quintet
    requires n <= 32
  {
    if n == 0 then 0 else if CROCKFORD[n - 1] == c then (n - 1) as quintet else Position(c, n - 1)
  }

  function Read(s: string): (qs: seq<quintet>)
    ensures |qs| == |s| && forall i :: 0 <= i < |s| ==> qs[i] == Position(s[i], 32)
  {
    seq(|s|, i requires 0 <= i < |s| => Position(s[i], 32))
  }

  /** Whole bytes of a bit string; a shorter rest is dropped. */
  function Bytes(bits: seq<bit>): seq<byte>
    decreases |bits|
  {
    if |bits| < 8 then []
    else (LowOfValue(bits[..8]); Pow8(); [Value(bits[..8]) as byte]) + Bytes(bits[8..])
  }

  function Decode(s: string): seq<byte> { Bytes(BitsOfGroups(Read(s))) }

  lemma AlphabetIsDistinct(q: quintet)
    ensures Position(CROCKFORD[q], 32) == q
  {
    PositionFrom(q, 32);
  }

  lemma {:induction false} PositionFrom(q: quintet, n: nat)
    requires q as nat < n <= 32
    ensures Position(CROCKFORD[q], n) == q
  {
    if q as nat < n - 1 {
      DistinctSymbols(q as nat, n - 1);
      PositionFrom(q, n - 1);
    }
  }

  lemma DistinctSymbols(i: nat, j: nat)
    requires i < j < 32
    ensures CROCKFORD[i] < CROCKFORD[j]
  {
  }

  lemma {:induction false} BytesAppend(b: seq<byte>, rest: seq<bit>)
    ensures Bytes(BitsOf(b) + rest) == b + Bytes(rest)
    decreases |b|
  {
    if b == [] {
      Assoc(rest, [], []);
      assert b + Bytes(rest) == Bytes(rest);
    } else {
      var n := |b| - 1;
      var last := Low(b[n] as nat, 8);
      Assoc(BitsOf(b[..n]), last, rest);
      BytesAppend(b[..n], last + rest);
      OneByte(b[n], rest);
      assert b[..n] + ([b[n]] + Bytes(rest)) == b[..n] + [b[n]] + Bytes(rest);
      assert b == b[..n] + [b[n]];
    }
  }

  lemma OneByte(c: byte, rest: seq<bit>)
    ensures Bytes(Low(c as nat, 8) + rest) == [c] + Bytes(rest)
  {
    var last := Low(c as nat, 8);
    var all := last + rest;
    assert all[..8] == last && all[8..] == rest;
    assert Value(last) == c as nat by {
      ValueOfLow(c as nat, 8);
      Pow8();
    }
    assert Bytes(all) == [c] + Bytes(all[8..]);
  }

  /** ROUND TRIP: decoding gives the bytes back, for every input. */
  lemma DecodeEncode(b: seq<byte>)
    ensures Decode(Encode(b)) == b
  {
    var qs := Groups(BitsOf(b));
    forall i | 0 <= i < |qs|
      ensures Read(Spell(qs))[i] == qs[i]
    {
      AlphabetIsDistinct(qs[i]);
    }
    assert Read(Spell(qs)) == qs;
    GroupsAreBits(BitsOf(b));
    var z := Zeros(Padding(8 * |b|));
    ZerosAreLow(Padding(8 * |b|));
    BytesAppend(b, z);
    assert b + [] == b;
  }

  lemma EncodeInjective(a: seq<byte>, b: seq<byte>)
    ensures Encode(a) == Encode(b) <==> a == b
  {
    DecodeEncode(a);
    DecodeEncode(b);
  }

  // --------------------------------------------------------------- identifiers

  /** NewID with the ten random bytes as an argument. */
  function NewID(prefix: string, random: seq<byte>): string {
    prefix + "_" + Lower(Encode(random))
  }

  function TierLetter(tier: string): char {
    if tier == "pro" then 'P' else if tier == "business" then 'B' else 'C'
  }

  function KeyText(letter: char, s: string): string
    requires |s| == 16
  {
    ['F', 'S', letter, '-'] + s[0..4] + ['-'] + s[4..8] + ['-'] + s[8..12] + ['-'] + s[12..16]
  }

  /** NewKey with the thirteen random bytes as an argument. */
  function NewKey(tier: string, random: seq<byte>): string
    requires |random| == 13
  {
    KeyText(TierLetter(tier), Encode(random)[..16])
  }

  lemma KeyTextInjective(c: char, s: string, d: char, t: string)
    requires |s| == |t| == 16 && KeyText(c, s) == KeyText(d, t)
    ensures c == d && s == t
  {
    var x, y := KeyText(c, s), KeyText(d, t);
    assert x[2] == c && y[2] == d;
    assert x[4..8] == s[0..4] && x[9..13] == s[4..8] && x[14..18] == s[8..12] && x[19..23] == s[12..16];
    assert y[4..8] == t[0..4] && y[9..13] == t[4..8] && y[14..18] == t[8..12] && y[19..23] == t[12..16];
    assert s == s[0..4] + s[4..8] + s[8..12] + s[12..16];
    assert t == t[0..4] + t[4..8] + t[8..12] + t[12..16];
  }

  lemma {:induction false} BitsOfPrefix(b: seq<byte>, n: nat)
    requires n <= |b|
    ensures BitsOf(b)[..8 * n] == BitsOf(b[..n])
  {
    if n < |b| {
      BitsOfPrefix(b[..|b| - 1], n);
      assert b[..|b| - 1][..n] == b[..n];
      assert BitsOf(b)[..8 * n] == BitsOf(b[..|b| - 1])[..8 * n];
    } else {
      assert b[..n] == b && BitsOf(b)[..8 * n] == BitsOf(b);
    }
  }

  lemma {:induction false} GroupsPrefix(bits: seq<bit>, n: nat)
    requires 5 * n <= |bits|
    ensures n <= |Groups(bits)| && Groups(bits)[..n] == Groups(bits[..5 * n])
  {
    if n == 0 {
      assert bits[..0] == [];
    } else {
      GroupsPrefix(bits[5..], n - 1);
      assert bits[..5 * n][..5] == bits[..5] && bits[..5 * n][5..] == bits[5..][..5 * (n - 1)];
      assert Groups(bits) == [Group(bits[..5])] + Groups(bits[5..]);
    }
  }

  lemma KeyUsesTenBytes(random: seq<byte>)
    requires |random| == 13
    ensures Encode(random)[..16] == Encode(random[..10])
  {
    var bits := BitsOf(random);
    GroupsPrefix(bits, 16);
    BitsOfPrefix(random, 10);
    assert Spell(Groups(bits))[..16] == Spell(Groups(bits)[..16]);
  }

  /** A key carries 80 random bits, not the 100 its comment promises: two keys are equal exactly when the
      tier letters and the first ten of the thirteen random bytes are. */
  lemma KeyHas80Bits(t: string, a: seq<byte>, u: string, b: seq<byte>)
    requires |a| == |b| == 13
    ensures NewKey(t, a) == NewKey(u, b) <==> TierLetter(t) == TierLetter(u) && a[..10] == b[..10]
    ensures |NewKey(t, a)| == 23
  {
    KeyUsesTenBytes(a);
    KeyUsesTenBytes(b);
    EncodeInjective(a[..10], b[..10]);
    if NewKey(t, a) == NewKey(u, b) {
      KeyTextInjective(TierLetter(t), Encode(a)[..16], TierLetter(u), Encode(b)[..16]);
    }
  }

  lemma LowerSymbols(p: quintet, q: quintet)
    requires LowerChar(CROCKFORD[p]) == LowerChar(CROCKFORD[q])
    ensures p == q
  {
    if p < q { DistinctSymbols(p as nat, q as nat); }
    if q < p { DistinctSymbols(q as nat, p as nat); }
  }

  /** Identifiers of one kind are equal only for equal random bytes: lower case loses nothing. */
  lemma IdentifiersAreDistinct(prefix: string, a: seq<byte>, b: seq<byte>)
    requires |a| == |b|
    ensures NewID(prefix, a) == NewID(prefix, b) <==> a == b
  {
    if NewID(prefix, a) == NewID(prefix, b) {
      var n, x, y := |prefix| + 1, Groups(BitsOf(a)), Groups(BitsOf(b));
      assert NewID(prefix, a)[n..] == Lower(Encode(a)) && NewID(prefix, b)[n..] == Lower(Encode(b));
      forall i | 0 <= i < |x|
        ensures x[i] == y[i]
      {
        assert Lower(Encode(a))[i] == Lower(Encode(b))[i];
        LowerSymbols(x[i], y[i]);
      }
      assert x == y;
      EncodeInjective(a, b);
    }
  }

  // --------------------------------------------------------- in plain terms

  /** Digits first, then the letters in order without I, L, O and U: there is only one such alphabet. */
  lemma AlphabetSays()
    ensures |CROCKFORD| == 32
    ensures forall i, j :: 0 <= i < j < 32 ==> CROCKFORD[i] < CROCKFORD[j]
    ensures forall i :: 0 <= i < 32 ==>
              ('0' <= CROCKFORD[i] <= '9' || 'A' <= CROCKFORD[i] <= 'Z')
              && CROCKFORD[i] != 'I' && CROCKFORD[i] != 'L' && CROCKFORD[i] != 'O' && CROCKFORD[i] != 'U'
  {
  }

  /** Bytes read as one number, the first the most significant. */
  function BytesNumber(b: seq<byte>): nat {
    if b == [] then 0 else 256 * BytesNumber(b[..|b| - 1]) + b[|b| - 1] as nat
  }

  /** Five-bit groups read as one number, the first the most significant. */
  function GroupsNumber(qs: seq<quintet>): nat {
    if qs == [] then 0 else 32 * GroupsNumber(qs[..|qs| - 1]) + qs[|qs| - 1] as nat
  }

  lemma {:induction false} ValueAppend(a: seq<bit>, b: seq<bit>)
    ensures Value(a + b) == Value(a) * Pow2(|b|) + Value(b)
  {
    if b == [] {
      assert a + b == a;
    } else {
      var front := b[..|b| - 1];
      ValueAppend(a, front);
      assert (a + b)[..|a + b| - 1] == a + front;
      TwiceProduct(Value(a), Pow2(|front|));
    }
  }

  lemma ValueThenLow(bits: seq<bit>, x: nat, n: nat)
    requires x < Pow2(n)
    ensures Value(bits + Low(x, n)) == Value(bits) * Pow2(n) + x
  {
    var l, p := Low(x, n), Pow2(n);
    ValueOfLow(x, n);
    SmallMod(x, p);
    ValueAppend(bits, l);
    assert |l| == n && Value(l) == x;
  }

  lemma SmallMod(x: nat, m: nat)
    requires x < m
    ensures x % m == x
  {
  }

  lemma {:induction false} ValueOfBytes(b: seq<byte>)
    ensures Value(BitsOf(b)) == BytesNumber(b)
  {
    if b != [] {
      var front, c := b[..|b| - 1], b[|b| - 1];
      Pow8();
      ValueOfBytes(front);
      ValueThenLow(BitsOf(front), c as nat, 8);
      assert BitsOf(b) == BitsOf(front) + Low(c as nat, 8);
    } else {
      assert BitsOf(b) == [];
    }
  }

  lemma Pow5()
    ensures Pow2(5) == 32
  {
    assert Pow2(5) == 2 * Pow2(4) && Pow2(4) == 2 * Pow2(3) && Pow2(3) == 2 * Pow2(2) && Pow2(2) == 2 * Pow2(1);
  }

  lemma {:induction false} ValueOfGroups(qs: seq<quintet>)
    ensures Value(BitsOfGroups(qs)) == GroupsNumber(qs)
  {
    if qs != [] {
      var front, q := qs[..|qs| - 1], qs[|qs| - 1];
      Pow5();
      ValueOfGroups(front);
      ValueThenLow(BitsOfGroups(front), q as nat, 5);
      assert BitsOfGroups(qs) == BitsOfGroups(front) + Low(q as nat, 5);
    } else {
      assert BitsOfGroups(qs) == [];
    }
  }

  lemma {:induction false} ValueOfZeros(n: nat)
    ensures Value(Zeros(n)) == 0 && |Zeros(n)| == n
  {
    if n > 0 {
      ValueOfZeros(n - 1);
      assert Zeros(n)[..n - 1] == Zeros(n - 1);
    }
  }

  /** THE NUMBER IS KEPT: one symbol for every started five bits, and the symbols' positions, read as a
      number in base 32, are the bytes, read as a number in base 256, shifted left by the bits left over. */
  lemma EncodesTheNumber(b: seq<byte>) returns (qs: seq<quintet>)
    ensures |qs| == |Encode(b)| == (8 * |b| + 4) / 5
    ensures forall i :: 0 <= i < |qs| ==> Encode(b)[i] == CROCKFORD[qs[i]]
    ensures GroupsNumber(qs) == BytesNumber(b) * Pow2(5 * |qs| - 8 * |b|)
  {
    qs := Groups(BitsOf(b));
    var z := 5 * |qs| - 8 * |b|;
    GroupsAreBits(BitsOf(b));
    PaddingFacts(8 * |b|);
    ValueOfGroups(qs);
    ValueOfBytes(b);
    ValueOfZeros(Padding(8 * |b|));
    ValueAppend(BitsOf(b), Zeros(Padding(8 * |b|)));
  }

  /** How a key reads: FS, the tier's letter, and four blocks of four symbols between dashes. */
  lemma KeySays(tier: string, random: seq<byte>)
    requires |random| == 13
    ensures var k, s := NewKey(tier, random), Encode(random);
      && |k| == 23 && |s| == 21 && k[..2] == "FS"
      && k[2] == (if tier == "pro" then 'P' else if tier == "business" then 'B' else 'C')
      && k[3] == k[8] == k[13] == k[18] == '-'
      && k[4..8] == s[0..4] && k[9..13] == s[4..8] && k[14..18] == s[8..12] && k[19..23] == s[12..16]
  {
    var qs := EncodesTheNumber(random);
    var s := Encode(random)[..16];
    assert s[0..4] == Encode(random)[0..4] && s[4..8] == Encode(random)[4..8];
    assert s[8..12] == Encode(random)[8..12] && s[12..16] == Encode(random)[12..16];
  }

  /** How an identifier reads: the prefix, an underscore and the symbols of ten bytes in lower case. */
  lemma IdentifierSays(prefix: string, random: seq<byte>)
    requires |random| == 10
    ensures var id, s := NewID(prefix, random), Encode(random);
      && |id| == |prefix| + 17 && |s| == 16 && id[..|prefix|] == prefix && id[|prefix|] == '_'
      && forall i :: 0 <= i < 16 ==> id[|prefix| + 1 + i] == LowerChar(s[i])
  {
    var qs := EncodesTheNumber(random);
    var n, id := |prefix|, NewID(prefix, random);
    assert id[..n] == prefix && id[n] == '_';
    assert id[n + 1..] == Lower(Encode(random));
    forall i | 0 <= i < 16
      ensures id[n + 1 + i] == LowerChar(Encode(random)[i])
    {
      assert id[n + 1 + i] == id[n + 1..][i];
    }
  }
}
