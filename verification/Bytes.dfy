/** Bytes, bitwise exclusive-or and network byte order. */
module Bytes {
  type byte = x: int | 0 <= x < 256
  type nibble = x: int | 0 <= x < 16

  const INT32_MAX: nat := 0x7FFF_FFFF
  const UINT32_LIMIT: nat := 0x1_0000_0000
  const UINT64_LIMIT: nat := 0x1_0000_0000_0000_0000

  function Pow2(n: nat): nat {
    if n == 0 then 1 else 2 * Pow2(n - 1)
  }

  /** The exclusive-or of the lowest `n` bits of `a` and `b`, bit by bit. */
  function XorBits(a: nat, b: nat, n: nat): nat {
    if n == 0 then 0 else (if a % 2 == b % 2 then 0 else 1) + 2 * XorBits(a / 2, b / 2, n - 1)
  }

  lemma {:induction false} XorBitsBound(a: nat, b: nat, n: nat)
    ensures XorBits(a, b, n) < Pow2(n)
  {
    if n > 0 {
      XorBitsBound(a / 2, b / 2, n - 1);
    }
  }

  lemma {:induction false} XorBitsTwice(a: nat, k: nat, n: nat)
    requires a < Pow2(n)
    ensures XorBits(XorBits(a, k, n), k, n) == a
  {
    if n > 0 {
      XorBitsTwice(a / 2, k / 2, n - 1);
      assert XorBits(a, k, n) / 2 == XorBits(a / 2, k / 2, n - 1);
      assert XorBits(a, k, n) % 2 == if a % 2 == k % 2 then 0 else 1;
    }
  }

  lemma {:induction false} XorBitsZero(a: nat, n: nat)
    requires a < Pow2(n)
    ensures XorBits(a, 0, n) == a
  {
    if n > 0 {
      XorBitsZero(a / 2, n - 1);
    }
  }

  function Xor(a: byte, b: byte): byte {
    XorBitsBound(a, b, 8);
    assert Pow2(8) == 256;
    XorBits(a, b, 8)
  }

  lemma XorLaws(a: byte, k: byte)
    ensures Xor(Xor(a, k), k) == a
    ensures Xor(a, 0) == a
  {
    assert Pow2(8) == 256;
    XorBitsTwice(a, k, 8);
    XorBitsZero(a, 8);
  }

  // -- the bit operations of the machine ------------------------------------------------------------------------------

  function ToMachine(b: byte): bv8 {
    b as bv8
  }

  function FromMachine(v: bv8): byte {
    v as int
  }

  lemma BackAndThere(v: bv8)
    ensures ToMachine(FromMachine(v)) == v
  {}

  lemma Successor(v: bv8)
    requires FromMachine(v) < 255
    ensures FromMachine(v + 1) == FromMachine(v) + 1
  {}

  /** Every byte is the value of some bits. */
  lemma {:induction false} FindBits(b: byte) returns (v: bv8)
    ensures FromMachine(v) == b
    decreases b
  {
    if b == 0 {
      v := 0;
      OneBit();
    } else {
      hide FromMachine;
      var w := FindBits(b - 1);
      Successor(w);
      v := w + 1;
    }
  }

  lemma ThereAndBack(b: byte)
    ensures FromMachine(ToMachine(b)) == b
  {
    hide FromMachine, ToMachine;
    var v := FindBits(b);
    BackAndThere(v);
  }

  function MachineXor(a: byte, b: byte): byte {
    FromMachine(ToMachine(a) ^ ToMachine(b))
  }

  /** A shift is a division and the lowest bit a remainder. */
  lemma LowestBit(v: bv8)
    ensures FromMachine(v >> 1) == FromMachine(v) / 2
    ensures FromMachine(v & 1) == FromMachine(v) % 2
  {}

  lemma XorByBits(v: bv8, w: bv8)
    ensures (v ^ w) >> 1 == (v >> 1) ^ (w >> 1)
    ensures (v ^ w) & 1 == if v & 1 == w & 1 then 0 else 1
  {}

  lemma Halved(a: byte)
    ensures ToMachine(a / 2) == ToMachine(a) >> 1
  {
    hide FromMachine, ToMachine;
    ThereAndBack(a);
    LowestBit(ToMachine(a));
    BackAndThere(ToMachine(a) >> 1);
  }

  lemma SameBit(v: bv8, w: bv8)
    ensures v & 1 == w & 1 <==> FromMachine(v) % 2 == FromMachine(w) % 2
  {
    hide FromMachine, ToMachine;
    LowestBit(v);
    LowestBit(w);
    BackAndThere(v & 1);
    BackAndThere(w & 1);
  }

  lemma MachineXorHalves(a: byte, b: byte)
    ensures MachineXor(a, b) / 2 == MachineXor(a / 2, b / 2)
  {
    hide FromMachine, ToMachine;
    XorByBits(ToMachine(a), ToMachine(b));
    Halved(a);
    Halved(b);
    LowestBit(ToMachine(a) ^ ToMachine(b));
  }

  lemma OneBit()
    ensures FromMachine(0) == 0 && FromMachine(1) == 1
  {}

  lemma MachineXorLowest(a: byte, b: byte)
    ensures MachineXor(a, b) % 2 == if a % 2 == b % 2 then 0 else 1
  {
    hide FromMachine, ToMachine;
    ThereAndBack(a);
    ThereAndBack(b);
    OneBit();
    XorByBits(ToMachine(a), ToMachine(b));
    SameBit(ToMachine(a), ToMachine(b));
    LowestBit(ToMachine(a) ^ ToMachine(b));
  }

  lemma MachineXorZero()
    ensures MachineXor(0, 0) == 0
  {}

  lemma {:induction false} XorBitsIsMachineXor(a: byte, b: byte, n: nat)
    requires a < Pow2(n) && b < Pow2(n)
    ensures XorBits(a, b, n) == MachineXor(a, b)
  {
    hide MachineXor;
    if n == 0 {
      MachineXorZero();
    } else {
      MachineXorHalves(a, b);
      MachineXorLowest(a, b);
      XorBitsIsMachineXor(a / 2, b / 2, n - 1);
    }
  }

  /** `Xor` is the exclusive-or of the machine. */
  lemma XorIsMachineXor(a: byte, b: byte)
    ensures Xor(a, b) == FromMachine(ToMachine(a) ^ ToMachine(b))
  {
    hide FromMachine, ToMachine;
    assert Pow2(8) == 256;
    XorBitsIsMachineXor(a, b, 8);
  }

  lemma FlagMasks(v: bv8)
    ensures v & 0x80 != 0 <==> FromMachine(v) >= 128
    ensures v & 0x70 != 0 <==> FromMachine(v) / 16 % 8 != 0
  {}

  lemma AddedFlag(v: bv8)
    requires FromMachine(v) < 128
    ensures FromMachine(0x80 | v) == 128 + FromMachine(v)
  {}

  lemma NibbleMask(v: bv8)
    ensures FromMachine(v & 0x0F) == FromMachine(v) % 16
  {}

  lemma LengthMask(v: bv8)
    ensures FromMachine(v & 0x7F) == FromMachine(v) % 128
  {}

  /** What the machine computes on the bits of a byte, read as a number. */
  method HighBit(b: byte) returns (r: bool)
    ensures r == (b >= 128)
  {
    hide FromMachine, ToMachine;
    ThereAndBack(b);
    FlagMasks(ToMachine(b));
    r := ToMachine(b) & 0x80 != 0;
  }

  method ReservedBits(b: byte) returns (r: bool)
    ensures r == (b / 16 % 8 != 0)
  {
    hide FromMachine, ToMachine;
    ThereAndBack(b);
    FlagMasks(ToMachine(b));
    r := ToMachine(b) & 0x70 != 0;
  }

  method LowNibble(b: byte) returns (r: nibble)
    ensures r == b % 16
  {
    hide FromMachine, ToMachine;
    ThereAndBack(b);
    NibbleMask(ToMachine(b));
    r := FromMachine(ToMachine(b) & 0x0F);
  }

  method LowBits(b: byte) returns (r: byte)
    ensures r == b % 128
  {
    hide FromMachine, ToMachine;
    ThereAndBack(b);
    LengthMask(ToMachine(b));
    r := FromMachine(ToMachine(b) & 0x7F);
  }

  method WithHighBit(b: byte) returns (r: byte)
    requires b < 128
    ensures r == 128 + b
  {
    hide FromMachine, ToMachine;
    ThereAndBack(b);
    AddedFlag(ToMachine(b));
    r := FromMachine(0x80 | ToMachine(b));
  }

  method XorByte(x: byte, y: byte) returns (r: byte)
    ensures r == Xor(x, y)
  {
    hide FromMachine, ToMachine;
    XorIsMachineXor(x, y);
    r := FromMachine(ToMachine(x) ^ ToMachine(y));
  }

  // -- network byte order ---------------------------------------------------------------------------------------------

  function Pow256(n: nat): nat {
    if n == 0 then 1 else 256 * Pow256(n - 1)
  }

  lemma Pow256Values()
    ensures Pow256(2) == 0x1_0000
    ensures Pow256(4) == UINT32_LIMIT
    ensures Pow256(8) == UINT64_LIMIT
  {
    assert Pow256(2) == 0x1_0000;
    assert Pow256(4) == 0x1_0000 * Pow256(2);
    assert Pow256(6) == 0x1_0000 * Pow256(4);
    assert Pow256(8) == 0x1_0000 * Pow256(6);
  }

  /** The `width` lowest bytes of `n`, most significant byte first. */
  function EncodeBE(n: nat, width: nat): (r: seq<byte>)
    ensures |r| == width
  {
    if width == 0 then [] else EncodeBE(n / 256, width - 1) + [n % 256]
  }

  function DecodeBE(s: seq<byte>): nat {
    if s == [] then 0 else DecodeBE(s[..|s| - 1]) * 256 + s[|s| - 1]
  }

  lemma {:induction false} DecodeEncodeBE(n: nat, width: nat)
    requires n < Pow256(width)
    ensures DecodeBE(EncodeBE(n, width)) == n
  {
    if width > 0 {
      DecodeEncodeBE(n / 256, width - 1);
      assert EncodeBE(n, width)[..width - 1] == EncodeBE(n / 256, width - 1);
    }
  }

  lemma {:induction false} EncodeDecodeBE(s: seq<byte>)
    ensures DecodeBE(s) < Pow256(|s|)
    ensures EncodeBE(DecodeBE(s), |s|) == s
  {
    if s != [] {
      EncodeDecodeBE(s[..|s| - 1]);
      assert DecodeBE(s) / 256 == DecodeBE(s[..|s| - 1]);
      assert DecodeBE(s) % 256 == s[|s| - 1];
      assert s == s[..|s| - 1] + [s[|s| - 1]];
    }
  }

  /** Concatenation is associative; named so that larger proofs can use it at one point only. */
  lemma Associative<T>(a: seq<T>, b: seq<T>, c: seq<T>)
    ensures (a + b) + c == a + (b + c)
  {}

  lemma DropAppended<T>(a: seq<T>, b: seq<T>, n: nat)
    requires n <= |a|
    ensures (a + b)[n..] == a[n..] + b
  {}

  lemma SliceAppended<T>(a: seq<T>, b: seq<T>, i: nat, j: nat)
    requires i <= j <= |a|
    ensures (a + b)[i..j] == a[i..j]
  {}

  /** Copies `data` into a buffer and touches no other byte. */
  method Overwrite(buf: array<byte>, at: nat, data: seq<byte>)
    requires at + |data| <= buf.Length
    modifies buf
    ensures forall j :: 0 <= j < buf.Length ==> buf[j] == if at <= j < at + |data| then data[j - at] else old(buf[j])
  {
    for k := 0 to |data|
      invariant forall j :: 0 <= j < buf.Length ==> buf[j] == if at <= j < at + k then data[j - at] else old(buf[j])
    {
      buf[at + k] := data[k];
    }
  }
}
