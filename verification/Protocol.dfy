/** Little-endian fields and the 24-byte frame header. */
module Endian {

  newtype byte = x: int | 0 <= x < 256

  function Pow256(n: nat): (r: nat)
    ensures r > 0
  {
    if n == 0 then 1 else 256 * Pow256(n - 1)
  }

  /** The value of a little-endian field. */
  function FromLe(s: seq<byte>): nat {
    if s == [] then 0 else s[0] as nat + 256 * FromLe(s[1..])
  }

  /** The `n`-byte little-endian field holding `v` modulo 256^n. */
  function ToLe(v: nat, n: nat): (s: seq<byte>)
    ensures |s| == n
  {
    if n == 0 then [] else [(v % 256) as byte] + ToLe(v / 256, n - 1)
  }

  lemma {:induction false} FromLeBound(s: seq<byte>)
    ensures FromLe(s) < Pow256(|s|)
  {
    if s != [] { FromLeBound(s[1..]); }
  }

  lemma {:induction false} ReadsWhatWasWritten(v: nat, n: nat)
    requires v < Pow256(n)
    ensures FromLe(ToLe(v, n)) == v
  {
    if n > 0 {
      ReadsWhatWasWritten(v / 256, n - 1);
      assert ToLe(v, n)[1..] == ToLe(v / 256, n - 1);
    }
  }

  lemma {:induction false} WritesWhatWasRead(s: seq<byte>)
    ensures ToLe(FromLe(s), |s|) == s
  {
    if s != [] {
      WritesWhatWasRead(s[1..]);
      assert FromLe(s) % 256 == s[0] as nat && FromLe(s) / 256 == FromLe(s[1..]);
      assert s == [s[0]] + s[1..];
    }
  }

  // The source's readers and writers: a shift by 8k is a product with 256^k or a quotient by
  // it, and an or of disjoint bytes is a sum.

  function ReadU16(p: seq<byte>): (v: nat)
    requires |p| == 2
    ensures v == FromLe(p)
  {
    assert p[1..][1..] == [];
    assert FromLe(p[1..]) == p[1] as nat + 256 * FromLe([]);
    p[0] as nat + p[1] as nat * 0x100
  }

  function ReadU32(p: seq<byte>): (v: nat)
    requires |p| == 4
    ensures v == FromLe(p)
  {
    assert p[1..][1..] == p[2..] && p[2..][1..] == p[3..] && p[3..][1..] == [];
    assert FromLe(p[3..]) == p[3] as nat + 256 * FromLe([]);
    assert FromLe(p[2..]) == p[2] as nat + 256 * FromLe(p[3..]);
    assert FromLe(p[1..]) == p[1] as nat + 256 * FromLe(p[2..]);
    p[0] as nat + p[1] as nat * 0x100 + p[2] as nat * 0x1_0000 + p[3] as nat * 0x100_0000
  }

  function ReadU64(p: seq<byte>): (v: nat)
    requires |p| == 8
    ensures v == FromLe(p)
  {
    FromLeSplit(p, 4);
    Widths();
    ReadU32(p[..4]) + ReadU32(p[4..]) * 0x1_0000_0000
  }

  lemma OneDigitMore(x: nat, low: nat, scale: nat, high: nat)
    requires x == low + scale * high
    ensures 256 * x == 256 * low + (256 * scale) * high
  {
  }

  lemma {:induction false} FromLeSplit(p: seq<byte>, n: nat)
    requires n <= |p|
    ensures FromLe(p) == FromLe(p[..n]) + Pow256(n) * FromLe(p[n..])
  {
    if n > 0 {
      FromLeSplit(p[1..], n - 1);
      assert p[..n][1..] == p[1..][..n - 1] && p[1..][n - 1..] == p[n..];
      OneDigitMore(FromLe(p[1..]), FromLe(p[..n][1..]), Pow256(n - 1), FromLe(p[n..]));
    } else {
      assert p[0..] == p;
    }
  }

  lemma Widths()
    ensures Pow256(2) == 0x1_0000 && Pow256(4) == 0x1_0000_0000
  {
    assert Pow256(2) == 0x1_0000;
  }

  method WriteU16(p: array<byte>, o: nat, v: nat)
    requires o + 2 <= p.Length
    modifies p
    ensures p[..o + 2] == old(p[..o]) + ToLe(v, 2) && p[o + 2..] == old(p[o + 2..])
  {
    p[o] := (v % 256) as byte;
    p[o + 1] := (v / 0x100 % 256) as byte;
    assert ToLe(v, 2) == [(v % 256) as byte, (v / 0x100 % 256) as byte] by {
      assert ToLe(v / 256, 1) == [(v / 256 % 256) as byte] + ToLe(v / 256 / 256, 0);
    }
  }

  method WriteU32(p: array<byte>, o: nat, v: nat)
    requires o + 4 <= p.Length
    modifies p
    ensures p[..o + 4] == old(p[..o]) + ToLe(v, 4) && p[o + 4..] == old(p[o + 4..])
  {
    p[o] := (v % 256) as byte;
    p[o + 1] := (v / 0x100 % 256) as byte;
    p[o + 2] := (v / 0x1_0000 % 256) as byte;
    p[o + 3] := (v / 0x100_0000 % 256) as byte;
    ToLeFour(v);
  }

  lemma ToLeFour(v: nat)
    ensures ToLe(v, 4) == [(v % 256) as byte, (v / 0x100 % 256) as byte,
                           (v / 0x1_0000 % 256) as byte, (v / 0x100_0000 % 256) as byte]
  {
    var a, b, c := v / 256, v / 0x1_0000, v / 0x100_0000;
    assert a / 256 == b && b / 256 == c;
    assert ToLe(c, 1) == [(c % 256) as byte] + ToLe(c / 256, 0);
    assert ToLe(b, 2) == [(b % 256) as byte] + ToLe(c, 1);
    assert ToLe(a, 3) == [(a % 256) as byte] + ToLe(b, 2);
  }
}

module Protocol {
  import opened Endian

  const MAGIC: nat := 0x44574641
  const VERSION: nat := 3
  const HEADER_LEN: nat := 24

  type u16 = v: nat | v < 0x1_0000
  type u32 = v: nat | v < 0x1_0000_0000

  datatype Header = Header(magic: u32, version: u16, headerLen: u16, bodyLen: u32,
                           msgType: u32, seqNo: u32, reserved: u32)

  /** The header as the protocol lays it out. */
  function Layout(h: Header): (s: seq<byte>)
    ensures |s| == HEADER_LEN
  {
    ToLe(h.magic, 4) + ToLe(h.version, 2) + ToLe(h.headerLen, 2) + ToLe(h.bodyLen, 4)
    + ToLe(h.msgType, 4) + ToLe(h.seqNo, 4) + ToLe(h.reserved, 4)
  }

  method PackLe(h: Header) returns (b: array<byte>)
    ensures fresh(b) && b[..] == Layout(h)
  {
    b := new byte[HEADER_LEN](_ => 0);
    PackShape(b, h);
    PackBody(b, h);
    assert b[..] == b[..24];
  }

  /** The first twelve bytes. */
  method PackShape(b: array<byte>, h: Header)
    requires b.Length == HEADER_LEN
    modifies b
    ensures b[..12] == ToLe(h.magic, 4) + ToLe(h.version, 2) + ToLe(h.headerLen, 2) + ToLe(h.bodyLen, 4)
  {
    WriteU32(b, 0, h.magic);
    assert b[..4] == ToLe(h.magic, 4);
    WriteU16(b, 4, h.version);
    assert b[..6] == ToLe(h.magic, 4) + ToLe(h.version, 2);
    WriteU16(b, 6, h.headerLen);
    assert b[..8] == ToLe(h.magic, 4) + ToLe(h.version, 2) + ToLe(h.headerLen, 2);
    WriteU32(b, 8, h.bodyLen);
  }

  /** The last twelve bytes. */
  method PackBody(b: array<byte>, h: Header)
    requires b.Length == HEADER_LEN
    modifies b
    ensures b[..24] == old(b[..12]) + ToLe(h.msgType, 4) + ToLe(h.seqNo, 4) + ToLe(h.reserved, 4)
  {
    WriteU32(b, 12, h.msgType);
    WriteU32(b, 16, h.seqNo);
    WriteU32(b, 20, h.reserved);
  }

  lemma FieldBounds(p: seq<byte>)
    ensures |p| == 2 ==> FromLe(p) < 0x1_0000
    ensures |p| == 4 ==> FromLe(p) < 0x1_0000_0000
  {
    FromLeBound(p);
    Widths();
  }

  function UnpackLe(p: seq<byte>): Header
    requires |p| == HEADER_LEN
  {
    FieldBounds(p[0..4]); FieldBounds(p[4..6]); FieldBounds(p[6..8]); FieldBounds(p[8..12]);
    FieldBounds(p[12..16]); FieldBounds(p[16..20]); FieldBounds(p[20..24]);
    Header(ReadU32(p[0..4]), ReadU16(p[4..6]), ReadU16(p[6..8]), ReadU32(p[8..12]),
           ReadU32(p[12..16]), ReadU32(p[16..20]), ReadU32(p[20..24]))
  }

  lemma LayoutFields(h: Header)
    ensures var s := Layout(h);
            && s[0..4] == ToLe(h.magic, 4) && s[4..6] == ToLe(h.version, 2) && s[6..8] == ToLe(h.headerLen, 2)
            && s[8..12] == ToLe(h.bodyLen, 4) && s[12..16] == ToLe(h.msgType, 4)
            && s[16..20] == ToLe(h.seqNo, 4) && s[20..24] == ToLe(h.reserved, 4)
  {
  }

  /** Unpacking what was packed gives the header back, for all field values. */
  lemma UnpackInvertsPack(h: Header)
    ensures UnpackLe(Layout(h)) == h
  {
    Widths();
    LayoutFields(h);
    ReadsWhatWasWritten(h.magic, 4);
    ReadsWhatWasWritten(h.version, 2);
    ReadsWhatWasWritten(h.headerLen, 2);
    ReadsWhatWasWritten(h.bodyLen, 4);
    ReadsWhatWasWritten(h.msgType, 4);
    ReadsWhatWasWritten(h.seqNo, 4);
    ReadsWhatWasWritten(h.reserved, 4);
  }

  /** Packing what was unpacked gives the bytes back, for all 24-byte strings. */
  lemma PackInvertsUnpack(p: seq<byte>)
    requires |p| == HEADER_LEN
    ensures Layout(UnpackLe(p)) == p
  {
    WritesWhatWasRead(p[0..4]);
    WritesWhatWasRead(p[4..6]);
    WritesWhatWasRead(p[6..8]);
    WritesWhatWasRead(p[8..12]);
    WritesWhatWasRead(p[12..16]);
    WritesWhatWasRead(p[16..20]);
    WritesWhatWasRead(p[20..24]);
    assert p == p[0..4] + p[4..6] + p[6..8] + p[8..12] + p[12..16] + p[16..20] + p[20..24];
  }
}
