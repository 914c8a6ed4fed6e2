/**
 * The source's `byte` and `dword` types: the byte-order layer of vm.c
 * (every 32-bit value the machine keeps in its register file or memory is
 * stored most significant byte first) and the bitwise operators vm.c
 * applies to dwords.
 */
module Dwords {
  import opened Bits

  /** The source's `byte` (uint8_t) and `dword` (uint32_t). */
  type byte = x: int | 0 <= x < 0x100
  type dword = x: int | 0 <= x < 0x1_0000_0000

  /** The dword stored big-endian in s[at..at+4]. */
  function Decode(s: seq<byte>, at: nat): dword
    requires at + 4 <= |s|
  {
    s[at] as int * 0x100_0000 + s[at + 1] as int * 0x1_0000 + s[at + 2] as int * 0x100 + s[at + 3] as int
  }

  /** The four bytes that store v, most significant first. */
  function Encode(v: dword): (bs: seq<byte>)
    ensures |bs| == 4
  {
    [v / 0x100_0000, (v / 0x1_0000) % 0x100, (v / 0x100) % 0x100, v % 0x100]
  }

  /** s with the dword at `at` replaced by v. */
  function Store(s: seq<byte>, at: nat, v: dword): (r: seq<byte>)
    requires at + 4 <= |s|
    ensures |r| == |s|
  {
    s[..at] + Encode(v) + s[at + 4..]
  }

  lemma DecodeEncode(v: dword)
    ensures Decode(Encode(v), 0) == v
  {
    var bs := Encode(v);
    assert v == bs[0] as int * 0x100_0000 + v % 0x100_0000;
    assert v % 0x100_0000 == bs[1] as int * 0x1_0000 + v % 0x1_0000;
    assert v % 0x1_0000 == bs[2] as int * 0x100 + bs[3] as int;
  }

  lemma EncodeDecode(s: seq<byte>, at: nat)
    requires at + 4 <= |s|
    ensures Encode(Decode(s, at)) == s[at..at + 4]
  {
    var v := Decode(s, at);
    var low := s[at + 2] as int * 0x100 + s[at + 3] as int;
    var mid := s[at + 1] as int * 0x1_0000 + low;
    assert v == s[at] as int * 0x100_0000 + mid && mid < 0x100_0000;
    assert v / 0x100_0000 == s[at];
    assert v / 0x1_0000 == s[at] as int * 0x100 + s[at + 1] as int;
    assert v / 0x100 == (s[at] as int * 0x100 + s[at + 1] as int) * 0x100 + s[at + 2] as int;
  }

  /*
   * vm.c reads and writes dwords through a native 4-byte access and swaps
   * the bytes when the host is little-endian. The functions below model
   * that path for either host; the lemmas show both give the big-endian
   * Decode and Store above, so the rest of the model uses those.
   */

  /** What a native 4-byte load `*(dword *)p` yields on the host. */
  function LoadNative(s: seq<byte>, at: nat, littleEndian: bool): dword
    requires at + 4 <= |s|
  {
    if littleEndian then
      s[at + 3] as int * 0x100_0000 + s[at + 2] as int * 0x1_0000 + s[at + 1] as int * 0x100 + s[at] as int
    else
      Decode(s, at)
  }

  /** What a native 4-byte store `*(dword *)p = v` leaves in s. */
  function StoreNative(s: seq<byte>, at: nat, v: dword, littleEndian: bool): (r: seq<byte>)
    requires at + 4 <= |s|
    ensures |r| == |s|
  {
    var bs := Encode(v);
    if littleEndian then s[..at] + [bs[3], bs[2], bs[1], bs[0]] + s[at + 4..] else Store(s, at, v)
  }

  /**
   * `_swap_bytes32`: the four masked and shifted terms occupy disjoint
   * bytes, so their bitwise OR is their sum.
   */
  function SwapBytes(v: dword): dword
  {
    (v % 0x100) * 0x100_0000 + ((v / 0x100) % 0x100) * 0x1_0000 + ((v / 0x1_0000) % 0x100) * 0x100 + v / 0x100_0000
  }

  /** `_vm_read_dword` on a host of the given byte order. */
  function ReadDword(s: seq<byte>, at: nat, littleEndian: bool): dword
    requires at + 4 <= |s|
  {
    var raw := LoadNative(s, at, littleEndian);
    if littleEndian then SwapBytes(raw) else raw
  }

  /** `_vm_write_dword` on a host of the given byte order. */
  function WriteDword(s: seq<byte>, at: nat, v: dword, littleEndian: bool): (r: seq<byte>)
    requires at + 4 <= |s|
    ensures |r| == |s|
  {
    StoreNative(s, at, if littleEndian then SwapBytes(v) else v, littleEndian)
  }

  lemma SwapBytesTwice(v: dword)
    ensures SwapBytes(SwapBytes(v)) == v
  {
    var b0, b1, b2, b3 := v / 0x100_0000, (v / 0x1_0000) % 0x100, (v / 0x100) % 0x100, v % 0x100;
    assert v == b0 * 0x100_0000 + b1 * 0x1_0000 + b2 * 0x100 + b3 by {
      DecodeEncode(v);
    }
    var w := SwapBytes(v);
    assert w == b3 * 0x100_0000 + b2 * 0x1_0000 + b1 * 0x100 + b0;
    assert Encode(w) == [b3, b2, b1, b0] by {
      EncodeDecode([b3, b2, b1, b0], 0);
    }
  }

  /** Reading a dword gives the big-endian value on either host. */
  lemma ReadDwordPortable(s: seq<byte>, at: nat, littleEndian: bool)
    requires at + 4 <= |s|
    ensures ReadDword(s, at, littleEndian) == Decode(s, at)
  {
    if littleEndian {
      var raw := LoadNative(s, at, true);
      assert Encode(raw) == [s[at + 3], s[at + 2], s[at + 1], s[at]] by {
        EncodeDecode([s[at + 3], s[at + 2], s[at + 1], s[at]], 0);
      }
    }
  }

  /** Writing a dword leaves the big-endian bytes on either host. */
  lemma WriteDwordPortable(s: seq<byte>, at: nat, v: dword, littleEndian: bool)
    requires at + 4 <= |s|
    ensures WriteDword(s, at, v, littleEndian) == Store(s, at, v)
  {
    if littleEndian {
      var w := SwapBytes(v);
      var b0, b1, b2, b3 := v / 0x100_0000, (v / 0x1_0000) % 0x100, (v / 0x100) % 0x100, v % 0x100;
      assert w == b3 * 0x100_0000 + b2 * 0x1_0000 + b1 * 0x100 + b0;
      assert Encode(w) == [b3, b2, b1, b0] by {
        EncodeDecode([b3, b2, b1, b0], 0);
      }
    }
  }

  lemma DecodeStore(s: seq<byte>, at: nat, v: dword)
    requires at + 4 <= |s|
    ensures Decode(Store(s, at, v), at) == v
  {
    var t := Store(s, at, v);
    assert t[at..at + 4] == Encode(v);
    assert Decode(t, at) == Decode(Encode(v), 0);
    DecodeEncode(v);
  }

  /** A store leaves every byte outside its four untouched. */
  lemma StoreFrame(s: seq<byte>, at: nat, v: dword, i: nat)
    requires at + 4 <= |s| && i < |s| && (i < at || at + 4 <= i)
    ensures Store(s, at, v)[i] == s[i]
  {
  }

  lemma DecodeStoreElsewhere(s: seq<byte>, at: nat, v: dword, other: nat)
    requires at + 4 <= |s| && other + 4 <= |s|
    requires other + 4 <= at || at + 4 <= other
    ensures Decode(Store(s, at, v), other) == Decode(s, other)
  {
    StoreFrame(s, at, v, other);
    StoreFrame(s, at, v, other + 1);
    StoreFrame(s, at, v, other + 2);
    StoreFrame(s, at, v, other + 3);
  }

  // Bitwise operators on dwords.

  /** C's `a | b` on dwords. */
  function Or32(a: dword, b: dword): dword
  {
    Pow2Values();
    OrBound(a, b, 32);
    Or(a, b)
  }

  /** OR-ing two bytes gives a byte. */
  lemma OrByte(a: byte, b: byte)
    ensures Or32(a, b) < 0x100
  {
    Pow2Values();
    OrBound(a, b, 8);
  }

  /** C's `a & b` on dwords. */
  function And32(a: dword, b: dword): dword
  {
    AndBound(a, b);
    And(a, b)
  }

  /** C's `~a` on dwords. */
  function Not32(a: dword): dword
  {
    0xFFFF_FFFF - a
  }

  lemma BitOr32(a: dword, b: dword, k: nat)
    ensures Bit(Or32(a, b), k) == (Bit(a, k) || Bit(b, k))
  {
    BitOr(a, b, k);
  }

  lemma BitAnd32(a: dword, b: dword, k: nat)
    ensures Bit(And32(a, b), k) == (Bit(a, k) && Bit(b, k))
  {
    BitAnd(a, b, k);
  }

  lemma BitNot32(a: dword, k: nat)
    requires k < 32
    ensures Bit(Not32(a), k) == !Bit(a, k)
  {
    Pow2Values();
    assert Not32(a) == Not(a, 32);
    BitNot(a, 32, k);
  }

  /** No dword has a bit at or above 32. */
  lemma BitAbove32(a: dword, k: nat)
    requires 32 <= k
    ensures !Bit(a, k)
  {
    Pow2Values();
    BitAbove(a, 32, k);
  }

  /** C's conversion of a dword to a byte keeps bits 0 to 7. */
  lemma BitTruncate8(a: dword, k: nat)
    ensures Bit(a % 0x100, k) == (k < 8 && Bit(a, k))
  {
    Pow2Values();
    BitMod(a, 8, k);
  }

  /** Testing a single-bit mask with `&` tests that bit. */
  lemma AndSingleBit(a: dword, j: nat)
    requires j < 32
    ensures Pow2(j) < 0x1_0000_0000
    ensures (And32(a, Pow2(j)) != 0) == Bit(a, j)
  {
    Pow2Values();
    Pow2Monotone(j, 32);
    AndPow2(a, j);
  }
}
