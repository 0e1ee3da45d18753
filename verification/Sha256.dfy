/** SHA-256: the block loop and the in-place padding, proved against FIPS 180-4. */
module Fips180 {
  import opened Arithmetic
  import opened Endian
  import opened Primes

  // Section 2.2 and section 3.2: operations on 32-bit words.

  type word = x: nat | x < TWO_32

  /** Bit `i` of a number, the least significant being bit 0. */
  predicate Bit(x: nat, i: nat) {
    x / Pow2(i) % 2 == 1
  }

  datatype Gate = AndGate | OrGate | XorGate

  predicate Through(g: Gate, p: bool, q: bool) {
    match g
    case AndGate => p && q
    case OrGate => p || q
    case XorGate => p != q
  }

  /** Both numbers through a gate, bit by bit, for `n` bits. */
  function Bitwise(g: Gate, x: nat, y: nat, n: nat): (r: nat)
    ensures r < Pow2(n)
  {
    if n == 0 then 0
    else (if Through(g, x % 2 == 1, y % 2 == 1) then 1 else 0) + 2 * Bitwise(g, x / 2, y / 2, n - 1)
  }

  lemma {:induction false} BitwiseBits(g: Gate, x: nat, y: nat, n: nat, i: nat)
    requires i < n
    ensures Bit(Bitwise(g, x, y, n), i) <==> Through(g, Bit(x, i), Bit(y, i))
  {
    var r, rest := Bitwise(g, x, y, n), Bitwise(g, x / 2, y / 2, n - 1);
    assert r / 2 == rest;
    if i == 0 {
      assert Pow2(0) == 1;
    } else {
      BitwiseBits(g, x / 2, y / 2, n - 1, i - 1);
      DivDiv(r, 2, Pow2(i - 1));
      DivDiv(x, 2, Pow2(i - 1));
      DivDiv(y, 2, Pow2(i - 1));
    }
  }

  lemma WordBits()
    ensures Pow2(32) == TWO_32
  {
    assert Pow2(8) == 256;
    assert Pow2(16) == 0x1_0000;
    assert Pow2(24) == 0x100_0000;
  }

  function And(x: word, y: word): word { WordBits(); Bitwise(AndGate, x, y, 32) }

  function Xor(x: word, y: word): word { WordBits(); Bitwise(XorGate, x, y, 32) }

  function Not(x: word): word { TWO_32 - 1 - x }

  function Add(x: word, y: word): word { (x + y) % TWO_32 }

  function Or(x: word, y: word): word { WordBits(); Bitwise(OrGate, x, y, 32) }

  function Shr(x: word, n: nat): word {
    if n == 0 then x else Shr(x, n - 1) / 2
  }

  function Shl(x: word, n: nat): word {
    if n == 0 then x else 2 * Shl(x, n - 1) % TWO_32
  }

  /** Right rotation. */
  function Rotr(x: word, n: nat): word
    requires n <= 32
  {
    Or(Shr(x, n), Shl(x, 32 - n))
  }

  // Section 4.1.2: the six functions.

  function Ch(x: word, y: word, z: word): word { Xor(And(x, y), And(Not(x), z)) }

  function Maj(x: word, y: word, z: word): word { Xor(Xor(And(x, y), And(x, z)), And(y, z)) }

  function BigSigma0(x: word): word { Xor(Xor(Rotr(x, 2), Rotr(x, 13)), Rotr(x, 22)) }

  function BigSigma1(x: word): word { Xor(Xor(Rotr(x, 6), Rotr(x, 11)), Rotr(x, 25)) }

  function SmallSigma0(x: word): word { Xor(Xor(Rotr(x, 7), Rotr(x, 18)), Shr(x, 3)) }

  function SmallSigma1(x: word): word { Xor(Xor(Rotr(x, 17), Rotr(x, 19)), Shr(x, 10)) }

  // Section 4.2.2 and section 5.3.3: constants.

  function RoundConstant(t: nat): word
    requires t < 64
  {
    match t
    case 0 => 0x428a2f98 case 1 => 0x71374491 case 2 => 0xb5c0fbcf case 3 => 0xe9b5dba5
    case 4 => 0x3956c25b case 5 => 0x59f111f1 case 6 => 0x923f82a4 case 7 => 0xab1c5ed5
    case 8 => 0xd807aa98 case 9 => 0x12835b01 case 10 => 0x243185be case 11 => 0x550c7dc3
    case 12 => 0x72be5d74 case 13 => 0x80deb1fe case 14 => 0x9bdc06a7 case 15 => 0xc19bf174
    case 16 => 0xe49b69c1 case 17 => 0xefbe4786 case 18 => 0x0fc19dc6 case 19 => 0x240ca1cc
    case 20 => 0x2de92c6f case 21 => 0x4a7484aa case 22 => 0x5cb0a9dc case 23 => 0x76f988da
    case 24 => 0x983e5152 case 25 => 0xa831c66d case 26 => 0xb00327c8 case 27 => 0xbf597fc7
    case 28 => 0xc6e00bf3 case 29 => 0xd5a79147 case 30 => 0x06ca6351 case 31 => 0x14292967
    case 32 => 0x27b70a85 case 33 => 0x2e1b2138 case 34 => 0x4d2c6dfc case 35 => 0x53380d13
    case 36 => 0x650a7354 case 37 => 0x766a0abb case 38 => 0x81c2c92e case 39 => 0x92722c85
    case 40 => 0xa2bfe8a1 case 41 => 0xa81a664b case 42 => 0xc24b8b70 case 43 => 0xc76c51a3
    case 44 => 0xd192e819 case 45 => 0xd6990624 case 46 => 0xf40e3585 case 47 => 0x106aa070
    case 48 => 0x19a4c116 case 49 => 0x1e376c08 case 50 => 0x2748774c case 51 => 0x34b0bcb5
    case 52 => 0x391c0cb3 case 53 => 0x4ed8aa4a case 54 => 0x5b9cca4f case 55 => 0x682e6ff3
    case 56 => 0x748f82ee case 57 => 0x78a5636f case 58 => 0x84c87814 case 59 => 0x8cc70208
    case 60 => 0x90befffa case 61 => 0xa4506ceb case 62 => 0xbef9a3f7 case _ => 0xc67178f2
  }

  // Where the constants come from: section 4.2.2 takes the first 32 bits of the fractional
  // parts of the cube roots of the first 64 primes, section 5.3.3 those of the square roots of
  // the first eight.

  /** The integral part, for the first 64 primes. */
  function CubeRoot(p: nat): nat {
    if p < 8 then 1 else if p < 27 then 2 else if p < 64 then 3 else if p < 125 then 4 else if p < 216 then 5 else 6
  }

  predicate IsCubeRootFraction(p: nat, k: word) {
    var v := CubeRoot(p) * TWO_32 + k;
    v * v * v <= p * TWO_32 * TWO_32 * TWO_32 < (v + 1) * (v + 1) * (v + 1)
  }

  const H0: seq<word> := [
    0x6a09e667, 0xbb67ae85, 0x3c6ef372, 0xa54ff53a, 0x510e527f, 0x9b05688c, 0x1f83d9ab, 0x5be0cd19]

  predicate IsSquareRootFraction(p: nat, h: word) {
    var v := (if p < 4 then 1 else if p < 9 then 2 else if p < 16 then 3 else 4) * TWO_32 + h;
    v * v <= p * TWO_32 * TWO_32 < (v + 1) * (v + 1)
  }

  lemma InitialHashIsSquareRoots(i: nat)
    requires i < 8
    ensures IsSquareRootFraction(Prime(i), H0[i])
  {
  }

  lemma RoundConstantsAreCubeRoots(t: nat)
    requires t < 64
    ensures IsCubeRootFraction(Prime(t), RoundConstant(t))
  {
  }

  // Section 5.1.1: padding, on whole bytes.

  type Bytes = seq<byte>

  predicate FillsBlock(len: nat, k: nat) {
    (len + 1 + k) % 64 == 56
  }

  /** The number of zero bytes: the least that leaves room for the length in the last block. */
  function ZeroBytes(len: nat): (k: nat)
    ensures FillsBlock(len, k) && forall j: nat :: j < k ==> !FillsBlock(len, j)
  {
    (119 - len % 64) % 64
  }

  /** A big-endian number of `n` bytes. */
  function BigEndian(v: nat, n: nat): (s: Bytes)
    ensures |s| == n
  {
    if n == 0 then [] else BigEndian(v / 256, n - 1) + [(v % 256) as byte]
  }

  function Zeros(n: nat): Bytes {
    seq(n, _ => 0)
  }

  function Padded(m: Bytes, zeros: Bytes, length: Bytes): (p: Bytes)
    ensures |p| == |m| + 1 + |zeros| + |length|
  {
    m + [0x80] + zeros + length
  }

  lemma WholeBlocks(n: nat)
    requires n % 64 == 56
    ensures n + 8 == 64 * ((n + 8) / 64)
  {
    var q, r := Split(n, 64);
    DivModUnique(n + 8, 64, q + 1, 0);
  }

  function Pad(m: Bytes): (p: Bytes)
    ensures |p| == 64 * (|p| / 64)
  {
    WholeBlocks(|m| + 1 + ZeroBytes(|m|));
    Padded(m, Zeros(ZeroBytes(|m|)), BigEndian(8 * |m|, 8))
  }

  // Section 6.2.2: the hash of one block.

  type Block = b: Bytes | |b| == 64 witness seq(64, _ => 0)

  /** The `t`-th 32-bit word of a block, most significant byte first. */
  function Word(m: Bytes, t: nat): word
    requires 4 * t + 4 <= |m|
  {
    m[4 * t] as nat * 0x100_0000 + m[4 * t + 1] as nat * 0x1_0000 + m[4 * t + 2] as nat * 0x100 + m[4 * t + 3] as nat
  }

  /** The first `n` words of the message schedule. */
  function Schedule(m: Block, n: nat): (w: seq<word>)
    requires n <= 64
    ensures |w| == n
  {
    if n == 0 then []
    else
      var w := Schedule(m, n - 1);
      var t := n - 1;
      w + [if t < 16 then Word(m, t)
           else Add(Add(Add(SmallSigma1(w[t - 2]), w[t - 7]), SmallSigma0(w[t - 15])), w[t - 16])]
  }

  datatype Vars = Vars(a: word, b: word, c: word, d: word, e: word, f: word, g: word, h: word)

  function T1(v: Vars, k: word, w: word): word { Add(Add(Add(Add(v.h, BigSigma1(v.e)), Ch(v.e, v.f, v.g)), k), w) }

  function T2(v: Vars): word { Add(BigSigma0(v.a), Maj(v.a, v.b, v.c)) }

  function Round(v: Vars, k: word, w: word): Vars {
    Vars(Add(T1(v, k, w), T2(v)), v.a, v.b, v.c, Add(v.d, T1(v, k, w)), v.e, v.f, v.g)
  }

  /** The first `t` rounds, with schedule `w`. */
  function Rounds(v: Vars, w: seq<word>, t: nat): Vars
    requires t <= 64 && t <= |w|
  {
    if t == 0 then v else Round(Rounds(v, w, t - 1), RoundConstant(t - 1), w[t - 1])
  }

  type Hash = h: seq<word> | |h| == 8 witness H0

  function VarsOf(h: Hash): Vars {
    Vars(h[0], h[1], h[2], h[3], h[4], h[5], h[6], h[7])
  }

  function Sum(v: Vars, h: Hash): Hash {
    [Add(v.a, h[0]), Add(v.b, h[1]), Add(v.c, h[2]), Add(v.d, h[3]),
     Add(v.e, h[4]), Add(v.f, h[5]), Add(v.g, h[6]), Add(v.h, h[7])]
  }

  function Compress(h: Hash, m: Block): Hash {
    Sum(Rounds(VarsOf(h), Schedule(m, 64), 64), h)
  }

  type Compression = (Hash, Block) -> Hash

  /** Fold a compression over the `n` 512-bit blocks of `m`. */
  function Fold(f: Compression, h: Hash, m: Bytes, n: nat): Hash
    requires |m| == 64 * n
  {
    if n == 0 then h
    else f(Fold(f, h, m[..64 * (n - 1)], n - 1), m[64 * (n - 1)..])
  }

  /** A word's bytes, most significant first. */
  function WordBytes(x: word): (s: Bytes)
    ensures |s| == 4
  {
    [(x / 0x100_0000 % 256) as byte, (x / 0x1_0000 % 256) as byte, (x / 0x100 % 256) as byte, (x % 256) as byte]
  }

  lemma WordBytesInvertsWord(x: word)
    ensures Word(WordBytes(x), 0) == x
  {
    var b1, b2, b3 := x / 0x100, x / 0x1_0000, x / 0x100_0000;
    assert b1 / 256 == b2 && b2 / 256 == b3 && b3 < 256;
  }

  function Digest(h: seq<word>): (s: Bytes)
    ensures |s| == 4 * |h|
  {
    if h == [] then [] else Digest(h[..|h| - 1]) + WordBytes(h[|h| - 1])
  }

  /** SHA-256 of a byte string. */
  function Sha256Of(m: Bytes): (d: Bytes)
    ensures |d| == 32
  {
    Digest(Fold(Compress, H0, Pad(m), |Pad(m)| / 64))
  }

  // ---------------------------------------------------------------- facts about the standard

  lemma BitOfHalf(x: nat, i: nat)
    ensures Bit(x / 2, i) <==> Bit(x, i + 1)
  {
    DivDiv(x, 2, Pow2(i));
  }

  lemma {:induction false} HighBitsClear(x: nat, k: nat, i: nat)
    requires x < Pow2(k) && k <= i
    ensures !Bit(x, i)
  {
    if k > 0 {
      HighBitsClear(x / 2, k - 1, i - 1);
      BitOfHalf(x, i - 1);
    }
  }

  lemma {:induction false} LowBitsKept(x: nat, k: nat, i: nat)
    requires i < k
    ensures Bit(x % Pow2(k), i) <==> Bit(x, i)
  {
    LowestDigit(x, 2, Pow2(k - 1));
    if i == 0 {
      assert Pow2(0) == 1;
    } else {
      LowBitsKept(x / 2, k - 1, i - 1);
      BitOfHalf(x, i - 1);
      BitOfHalf(x % Pow2(k), i - 1);
    }
  }

  lemma {:induction false} ShrBits(x: word, n: nat, i: nat)
    ensures Bit(Shr(x, n), i) <==> Bit(x, i + n)
  {
    if n > 0 {
      BitOfHalf(Shr(x, n - 1), i);
      ShrBits(x, n - 1, i + 1);
    }
  }

  lemma BitOfDouble(y: nat, i: nat)
    ensures Bit(2 * y, i) <==> i > 0 && Bit(y, i - 1)
  {
    if i == 0 {
      assert Pow2(0) == 1;
    } else {
      BitOfHalf(2 * y, i - 1);
    }
  }

  lemma {:induction false} ShlBits(x: word, n: nat, i: nat)
    requires i < 32
    ensures Bit(Shl(x, n), i) <==> i >= n && Bit(x, i - n)
  {
    if n > 0 {
      WordBits();
      LowBitsKept(2 * (Shl(x, n - 1) as nat), 32, i);
      BitOfDouble(Shl(x, n - 1), i);
      if i > 0 { ShlBits(x, n - 1, i - 1); }
    }
  }

  /** A rotation moves every bit, and loses none. */
  lemma RotrBits(x: word, n: nat, i: nat)
    requires n <= 32 && i < 32
    ensures Bit(Rotr(x, n), i) <==> Bit(x, (i + n) % 32)
  {
    WordBits();
    BitwiseBits(OrGate, Shr(x, n), Shl(x, 32 - n), 32, i);
    ShrBits(x, n, i);
    ShlBits(x, 32 - n, i);
    if i + n < 32 {
      DivModUnique(i + n, 32, 0, i + n);
    } else {
      HighBitsClear(x, 32, i + n);
      DivModUnique(i + n, 32, 1, i + n - 32);
    }
  }

  lemma FoldSnoc(f: Compression, h: Hash, m: Bytes, n: nat, block: Block)
    requires |m| == 64 * n
    ensures Fold(f, h, m + block, n + 1) == f(Fold(f, h, m, n), block)
  {
    var mb := m + block;
    assert mb[..64 * n] == m && mb[64 * n..] == block;
  }

  lemma DigestSnoc(h: seq<word>, x: word)
    ensures Digest(h + [x]) == Digest(h) + WordBytes(x)
  {
    assert (h + [x])[..|h|] == h;
  }

  /** A digest keeps every word of the state. */
  lemma {:induction false} DigestWord(h: seq<word>, t: nat)
    requires t < |h|
    ensures Word(Digest(h), t) == h[t]
  {
    var n := |h| - 1;
    if t < n {
      DigestWord(h[..n], t);
    } else {
      WordBytesInvertsWord(h[n]);
    }
  }

  /** The number that a big-endian byte string stands for. */
  function Value(s: Bytes): nat {
    if s == [] then 0 else 256 * Value(s[..|s| - 1]) + s[|s| - 1] as nat
  }

  lemma {:induction false} BigEndianValue(v: nat, n: nat)
    requires v < Pow256(n)
    ensures Value(BigEndian(v, n)) == v
  {
    if n > 0 {
      BigEndianValue(v / 256, n - 1);
      assert BigEndian(v, n)[..n - 1] == BigEndian(v / 256, n - 1);
    }
  }

  lemma {:induction false} BigEndianByte(v: nat, n: nat, i: nat)
    requires i < n
    ensures BigEndian(v, n)[i] == (v / Pow256(n - 1 - i) % 256) as byte
  {
    if i < n - 1 {
      BigEndianByte(v / 256, n - 1, i);
      DivDiv(v, 256, Pow256(n - 2 - i));
    }
  }

  /** An `n`-byte field holds the low `n` bytes. */
  lemma {:induction false} BigEndianWraps(v: nat, n: nat)
    ensures BigEndian(v % Pow256(n), n) == BigEndian(v, n)
  {
    if n > 0 {
      assert Pow256(n) == 256 * Pow256(n - 1);
      LowestDigit(v, 256, Pow256(n - 1));
      BigEndianWraps(v / 256, n - 1);
    }
  }

  lemma EightBytes()
    ensures Pow256(8) == 0x1_0000_0000_0000_0000
  {
    assert Pow256(2) == 0x1_0000;
    assert Pow256(4) == 0x1_0000_0000;
    assert Pow256(6) == 0x1_0000_0000_0000;
  }

  /** Below 2^61 bytes the 64-bit length field does not wrap: its value is the bit length. */
  lemma PaddedLengthField(m: Bytes)
    requires |m| < 0x2000_0000_0000_0000
    ensures Value(Pad(m)[|Pad(m)| - 8..]) == 8 * |m|
  {
    var p := Pad(m);
    assert p[|p| - 8..] == BigEndian(8 * |m|, 8);
    EightBytes();
    BigEndianValue(8 * |m|, 8);
  }
}

module Sha256 {
  import opened Arithmetic
  import opened Endian
  import opened Fips180

  const UINT64: nat := 0x1_0000_0000_0000_0000

  lemma AddReorder(a: word, b: word, c: word, d: word)
    ensures Add(Add(Add(a, b), c), d) == Add(Add(Add(d, c), b), a)
  {
    AddThree(a, b, c);
    AddThree(d, c, b);
    AddMod(a + b + c, d);
    AddMod(d + c + b, a);
  }

  lemma AddMod(x: nat, y: nat)
    ensures (x % TWO_32 + y) % TWO_32 == (x + y) % TWO_32
  {
  }

  lemma AddThree(a: word, b: word, c: word)
    ensures Add(Add(a, b), c) == (a + b + c) % TWO_32
  {
    AddMod(a + b, c);
  }

  method FirstWords(data: array<byte>, off: nat, w: array<word>)
    requires off + 64 <= data.Length && w.Length == 64
    modifies w
    ensures w[..16] == Schedule(data[off..off + 64], 16)
  {
    ghost var m := data[off..off + 64];
    for i := 0 to 16
      invariant w[..i] == Schedule(m, i)
    {
      w[i] := data[off + i * 4] as nat * 0x100_0000 + data[off + i * 4 + 1] as nat * 0x1_0000
            + data[off + i * 4 + 2] as nat * 0x100 + data[off + i * 4 + 3] as nat;
      assert w[i] == Word(m, i);
    }
  }

  /** The later words, each summed in the source's order. */
  method OtherWords(ghost m: Block, w: array<word>)
    requires w.Length == 64 && w[..16] == Schedule(m, 16)
    modifies w
    ensures w[..] == Schedule(m, 64)
  {
    for i := 16 to 64
      invariant w[..i] == Schedule(m, i)
    {
      ghost var before := w[..i];
      var s0 := Xor(Xor(Rotr(w[i - 15], 7), Rotr(w[i - 15], 18)), Shr(w[i - 15], 3));
      var s1 := Xor(Xor(Rotr(w[i - 2], 17), Rotr(w[i - 2], 19)), Shr(w[i - 2], 10));
      AddReorder(w[i - 16], s0, w[i - 7], s1);
      w[i] := Add(Add(Add(w[i - 16], s0), w[i - 7]), s1);
      assert w[..i] == before;
    }
  }

  /** The 64 rounds: eight working variables, reassigned in the source's order. */
  method RunRounds(start: Vars, w: array<word>) returns (r: Vars)
    requires w.Length == 64
    ensures r == Rounds(start, w[..], 64)
  {
    var a, b, c, d := start.a, start.b, start.c, start.d;
    var e, f, g, h := start.e, start.f, start.g, start.h;
    for i := 0 to 64
      invariant Vars(a, b, c, d, e, f, g, h) == Rounds(start, w[..], i)
    {
      var S1 := Xor(Xor(Rotr(e, 6), Rotr(e, 11)), Rotr(e, 25));
      var ch := Xor(And(e, f), And(Not(e), g));
      var t1 := Add(Add(Add(Add(h, S1), ch), RoundConstant(i)), w[i]);
      var S0 := Xor(Xor(Rotr(a, 2), Rotr(a, 13)), Rotr(a, 22));
      var maj := Xor(Xor(And(a, b), And(a, c)), And(b, c));
      var t2 := Add(S0, maj);
      h := g;
      g := f;
      f := e;
      e := Add(d, t1);
      d := c;
      c := b;
      b := a;
      a := Add(t1, t2);
    }
    r := Vars(a, b, c, d, e, f, g, h);
  }

  /** The closing additions. */
  method AddInto(state: array<word>, v: Vars)
    requires state.Length == 8
    modifies state
    ensures state[..] == Sum(v, old(state[..]))
  {
    ghost var h := state[..];
    state[0] := Add(state[0], v.a);
    state[1] := Add(state[1], v.b);
    state[2] := Add(state[2], v.c);
    state[3] := Add(state[3], v.d);
    state[4] := Add(state[4], v.e);
    state[5] := Add(state[5], v.f);
    state[6] := Add(state[6], v.g);
    state[7] := Add(state[7], v.h);
    assert forall i :: 0 <= i < 8 ==> state[i] == Sum(v, h)[i];
  }

  /** `compress_block` on the 64 bytes of `data` from `off` on. */
  method CompressBlock(state: array<word>, data: array<byte>, off: nat)
    requires state.Length == 8 && off + 64 <= data.Length
    modifies state
    ensures state[..] == Compress(old(state[..]), data[off..off + 64])
  {
    var w := new word[64](_ => 0);
    FirstWords(data, off, w);
    OtherWords(data[off..off + 64], w);
    var v := Vars(state[0], state[1], state[2], state[3], state[4], state[5], state[6], state[7]);
    v := RunRounds(v, w);
    AddInto(state, v);
  }

  // The loops below only chain compressions, so they are proved for any function that agrees
  // with `Compress`, point by point.

  ghost predicate At(h: Hash, m: Block) { true }

  ghost predicate Agrees(f: Compression) {
    forall h: Hash, m: Block {:trigger At(h, m)} :: f(h, m) == Compress(h, m)
  }

  method CompressAs(ghost f: Compression, state: array<word>, data: array<byte>, off: nat)
    requires Agrees(f) && state.Length == 8 && off + 64 <= data.Length
    modifies state
    ensures state[..] == f(old(state[..]), data[off..off + 64])
  {
    assert At(state[..], data[off..off + 64]);
    CompressBlock(state, data, off);
  }

  /** The loop over the whole blocks. */
  method FullBlocks(ghost f: Compression, h: array<word>, p: array<byte>) returns (offset: nat, ghost n: nat)
    requires Agrees(f) && h.Length == 8
    modifies h
    ensures offset <= p.Length < offset + 64 && offset == 64 * n
    ensures h[..] == Fold(f, old(h[..]), p[..offset], n)
  {
    offset, n := 0, 0;
    while p.Length - offset >= 64
      invariant offset <= p.Length && offset == 64 * n
      invariant h[..] == Fold(f, old(h[..]), p[..offset], n)
    {
      FoldSnoc(f, old(h[..]), p[..offset], n, p[offset..offset + 64]);
      assert p[..offset] + p[offset..offset + 64] == p[..offset + 64];
      CompressAs(f, h, p, offset);
      offset, n := offset + 64, n + 1;
    }
  }

  method Memcpy(dst: array<byte>, src: array<byte>, off: nat, n: nat)
    requires dst != src && off + n <= src.Length && n <= dst.Length
    modifies dst
    ensures dst[..n] == src[off..off + n]
  {
    for i := 0 to n
      invariant dst[..i] == src[off..off + i]
    {
      dst[i] := src[off + i];
    }
  }

  method Memset(dst: array<byte>, from: nat, to: nat)
    requires from <= to <= dst.Length
    modifies dst
    ensures dst[..to] == old(dst[..from]) + Zeros(to - from)
    ensures from == 0 ==> dst[..to] == Zeros(to)
  {
    for i := from to to
      invariant dst[..i] == old(dst[..from]) + Zeros(i - from)
    {
      dst[i] := 0;
    }
  }

  /** The eight length bytes, most significant first. */
  method PutLength(buf: array<byte>, bitlen: nat)
    requires buf.Length == 64
    modifies buf
    ensures buf[..] == old(buf[..56]) + BigEndian(bitlen, 8)
  {
    ghost var field := BigEndian(bitlen, 8);
    for i := 0 to 8
      invariant buf[..56] == old(buf[..56])
      invariant buf[56..56 + i] == field[..i]
    {
      buf[56 + i] := (bitlen / Pow256(7 - i) % 256) as byte;
      BigEndianByte(bitlen, 8, i);
      assert buf[56..56 + i] == field[..i];
    }
    assert buf[..] == buf[..56] + buf[56..56 + 8];
  }

  lemma ZerosAfterTail(len: nat, n: nat)
    requires 64 * n <= len < 64 * n + 64
    ensures ZeroBytes(len) == if len - 64 * n <= 55 then 55 - (len - 64 * n) else 119 - (len - 64 * n)
  {
    DivModUnique(len, 64, n, len - 64 * n);
  }

  /** A tail of at most 55 bytes: what is left fits one block. */
  lemma OneBlock(m: Bytes, head: Bytes, tail: Bytes, zeros: Bytes, length: Bytes)
    requires m == head + tail
    ensures Padded(m, zeros, length) == head + ((tail + [0x80] + zeros) + length)
  {
  }

  /** A longer tail: the padding spills into a second block. */
  lemma TwoBlocks(m: Bytes, head: Bytes, tail: Bytes, zeros: Bytes, more: Bytes, length: Bytes)
    requires m == head + tail
    ensures Padded(m, zeros + more, length) == (head + (tail + [0x80] + zeros)) + (more + length)
  {
  }

  /** The tail and its 0x80 byte. */
  method CopyTail(buf: array<byte>, p: array<byte>, offset: nat) returns (rem: nat)
    requires buf != p && buf.Length == 64 && offset <= p.Length < offset + 64
    modifies buf
    ensures rem == p.Length - offset + 1 && buf[..rem] == p[offset..] + [0x80]
  {
    rem := p.Length - offset;
    Memcpy(buf, p, offset, rem);
    buf[rem] := 0x80;
    rem := rem + 1;
  }

  /** `compress_block` on the padding buffer. */
  method CompressBuffer(ghost f: Compression, h: array<word>, buf: array<byte>,
                        ghost start: Hash, ghost hashed: Bytes, ghost n: nat)
    requires Agrees(f) && h.Length == 8 && buf.Length == 64
    requires |hashed| == 64 * n && h[..] == Fold(f, start, hashed, n)
    modifies h
    ensures h[..] == Fold(f, start, hashed + buf[..], n + 1)
  {
    FoldSnoc(f, start, hashed, n, buf[..]);
    assert buf[..] == buf[0..0 + 64];
    CompressAs(f, h, buf, 0);
  }

  /** The branch that has no room for the length: close the block and start an empty one. */
  method CloseBlock(ghost f: Compression, h: array<word>, buf: array<byte>, rem: nat,
                    ghost start: Hash, ghost hashed: Bytes, ghost n: nat)
    returns (ghost first: Bytes)
    requires Agrees(f) && h.Length == 8 && buf.Length == 64 && rem <= 64
    requires |hashed| == 64 * n && h[..] == Fold(f, start, hashed, n)
    modifies h, buf
    ensures first == old(buf[..rem]) + Zeros(64 - rem) && |first| == 64
    ensures h[..] == Fold(f, start, hashed + first, n + 1)
    ensures buf[..56] == Zeros(56)
  {
    Memset(buf, rem, 64);
    first := buf[..];
    CompressBuffer(f, h, buf, start, hashed, n);
    Memset(buf, 0, 56);
  }

  /** What was hashed before, in whole blocks, and what the buffer holds make up the padded message. */
  lemma PaddedBlocks(m: Bytes, n: nat, rem: nat, done: Bytes, last: Bytes)
    requires 64 * n <= |m| < 64 * n + 64 && rem == |m| - 64 * n + 1
    requires rem <= 56 ==> done == m[..64 * n] && last == m[64 * n..] + [0x80] + Zeros(56 - rem)
    requires rem > 56 ==> done == m[..64 * n] + (m[64 * n..] + [0x80] + Zeros(64 - rem)) && last == Zeros(56)
    ensures Pad(m) == done + (last + BigEndian(8 * |m|, 8))
  {
    var head, tail, length := m[..64 * n], m[64 * n..], BigEndian(8 * |m|, 8);
    ZerosAfterTail(|m|, n);
    if rem <= 56 {
      OneBlock(m, head, tail, Zeros(56 - rem), length);
    } else {
      assert Zeros(ZeroBytes(|m|)) == Zeros(64 - rem) + Zeros(56);
      TwoBlocks(m, head, tail, Zeros(64 - rem), Zeros(56), length);
    }
  }

  /** The two padding branches. */
  method PadBuffer(ghost f: Compression, h: array<word>, buf: array<byte>, rem: nat,
                   ghost start: Hash, ghost m: Bytes, ghost n: nat)
    returns (ghost done: Bytes, ghost blocks: nat)
    requires Agrees(f) && h.Length == 8 && buf.Length == 64
    requires 64 * n <= |m| < 64 * n + 64 && rem == |m| - 64 * n + 1
    requires h[..] == Fold(f, start, m[..64 * n], n) && buf[..rem] == m[64 * n..] + [0x80]
    modifies h, buf
    ensures |done| == 64 * blocks && h[..] == Fold(f, start, done, blocks)
    ensures Pad(m) == done + (buf[..56] + BigEndian(8 * |m|, 8))
  {
    done, blocks := m[..64 * n], n;
    if rem <= 56 {
      Memset(buf, rem, 56);
    } else {
      ghost var first := CloseBlock(f, h, buf, rem, start, done, n);
      done, blocks := done + first, n + 1;
    }
    PaddedBlocks(m, n, rem, done, buf[..56]);
  }

  lemma BitLengthField(len: nat)
    ensures BigEndian(len * 8 % UINT64, 8) == BigEndian(8 * len, 8)
  {
    EightBytes();
    BigEndianWraps(8 * len, 8);
  }

  /** The rest of the message: its tail, the padding and the length. */
  method Finish(ghost f: Compression, h: array<word>, p: array<byte>, offset: nat, ghost start: Hash, ghost n: nat)
    returns (ghost blocks: nat)
    requires Agrees(f) && h.Length == 8
    requires offset <= p.Length < offset + 64 && offset == 64 * n
    requires h[..] == Fold(f, start, p[..offset], n)
    modifies h
    ensures |Pad(p[..])| == 64 * blocks && h[..] == Fold(f, start, Pad(p[..]), blocks)
  {
    var bitlen := p.Length * 8 % UINT64;
    BitLengthField(p.Length);
    var buf := new byte[64](_ => 0);
    var rem := CopyTail(buf, p, offset);
    ghost var m := p[..];
    assert m[..offset] == p[..offset] && m[offset..] == p[offset..];
    ghost var done;
    done, blocks := PadBuffer(f, h, buf, rem, start, m, n);
    ghost var filled := buf[..56];
    PutLength(buf, bitlen);
    assert buf[..] == filled + BigEndian(8 * |m|, 8);
    CompressBuffer(f, h, buf, start, done, blocks);
    blocks := blocks + 1;
  }

  /** The words of the state, most significant byte first. */
  method Output(h: array<word>) returns (out: array<byte>)
    requires h.Length == 8
    ensures fresh(out) && out[..] == Digest(h[..])
  {
    out := new byte[32](_ => 0);
    for i := 0 to 8
      invariant out[..4 * i] == Digest(h[..i])
    {
      ghost var done := out[..4 * i];
      out[i * 4] := (h[i] / 0x100_0000 % 256) as byte;
      out[i * 4 + 1] := (h[i] / 0x1_0000 % 256) as byte;
      out[i * 4 + 2] := (h[i] / 0x100 % 256) as byte;
      out[i * 4 + 3] := (h[i] % 256) as byte;
      assert out[..4 * i + 4] == done + WordBytes(h[i]);
      DigestSnoc(h[..i], h[i]);
      assert h[..i + 1] == h[..i] + [h[i]];
    }
    assert h[..] == h[..8];
    assert out[..] == out[..32];
  }

  lemma BlockCount(m: Bytes, n: nat)
    requires |Pad(m)| == 64 * n
    ensures |Pad(m)| / 64 == n
  {
  }

  /** `hash_bytes`. */
  method HashBytes(p: array<byte>) returns (out: array<byte>)
    ensures fresh(out) && out[..] == Sha256Of(p[..])
  {
    var h := new word[8](i requires 0 <= i < 8 => H0[i]);
    assert h[..] == H0;
    var offset, n := FullBlocks(Compress, h, p);
    ghost var blocks := Finish(Compress, h, p, offset, H0, n);
    BlockCount(p[..], blocks);
    out := Output(h);
  }
}
