/** The frame codec in numbers: what is rejected, and the frames that section 5.7 of RFC 6455 gives as examples. */
module Rfc6455Examples {
  import opened Bytes
  import opened Rfc6455

  /** When a header is complete, rejected, or in need of more bytes, in the bits of its first two bytes. */
  lemma DecisionExactly(data: seq<byte>)
    requires |data| >= 2
    ensures var size, masked := data[1] % 128, data[1] >= 128;
            var length := 2 + (if size == 126 then 2 else if size == 127 then 8 else 0) + if masked then 4 else 0;
            && (Decode(data).Incomplete? <==> |data| < length)
            && (Decode(data).Complete? ==> Decode(data).length == length)
            && (Decode(data) == Invalid <==>
                  && length <= |data|
                  && (ToMachine(data[0]) & 0x70 != 0 || data[0] % 16 !in {0x0, 0x1, 0x2, 0x8, 0x9, 0xA}))
  {
    FirstByte(data[0]);
    hide HeaderFields, ToMachine;
  }

  lemma FirstByte(b: byte)
    ensures ToMachine(b) & 0x70 != 0 <==> b / 16 % 8 != 0
  {
    hide ToMachine, FromMachine;
    ThereAndBack(b);
    FlagMasks(ToMachine(b));
  }

  const HELLO: seq<byte> := [0x48, 0x65, 0x6C, 0x6C, 0x6F]
  const KEY: Key := 0x37FA213D

  lemma KeyBytes()
    ensures EncodeBE(KEY, 4) == [0x37, 0xFA, 0x21, 0x3D]
  {
    Encoded4(0x37, 0xFA, 0x21, 0x3D);
  }

  lemma Encoded4(a: byte, b: byte, c: byte, d: byte)
    ensures EncodeBE(((a * 256 + b) * 256 + c) * 256 + d, 4) == [a, b, c, d]
  {
    var s: seq<byte> := [a, b, c, d];
    assert s[..3] == [a, b, c] && s[..3][..2] == [a, b] && s[..3][..2][..1] == [a] && s[..3][..2][..1][..0] == [];
    assert DecodeBE([a]) == a;
    assert DecodeBE([a, b]) == a * 256 + b;
    assert DecodeBE([a, b, c]) == (a * 256 + b) * 256 + c;
    EncodeDecodeBE(s);
    hide EncodeBE;
  }

  lemma Masked(a: byte, b: byte, c: byte, v: bv8, w: bv8, x: bv8)
    requires ToMachine(a) == v && ToMachine(b) == w && ToMachine(c) == x && v ^ w == x
    ensures Xor(a, b) == c
  {
    hide ToMachine, FromMachine;
    XorIsMachineXor(a, b);
    ThereAndBack(c);
  }

  lemma MaskedHello()
    ensures Mask(KEY, HELLO) == [0x7F, 0x9F, 0x4D, 0x51, 0x58]
  {
    KeyBytes();
    hide Xor, EncodeBE;
    Masked(0x48, 0x37, 0x7F, 0x48, 0x37, 0x7F);
    Masked(0x65, 0xFA, 0x9F, 0x65, 0xFA, 0x9F);
    Masked(0x6C, 0x21, 0x4D, 0x6C, 0x21, 0x4D);
    Masked(0x6C, 0x3D, 0x51, 0x6C, 0x3D, 0x51);
    Masked(0x6F, 0x37, 0x58, 0x6F, 0x37, 0x58);
  }

  /** A text message in one frame and in two, and a ping, all unmasked. */
  lemma UnmaskedFrames()
    ensures Frame(true, TEXT_FRAME, 0, HELLO) == [0x81, 0x05, 0x48, 0x65, 0x6C, 0x6C, 0x6F]
    ensures Frame(false, TEXT_FRAME, 0, HELLO[..3]) == [0x01, 0x03, 0x48, 0x65, 0x6C]
    ensures Frame(true, CONTINUATION_FRAME, 0, HELLO[3..]) == [0x80, 0x02, 0x6C, 0x6F]
    ensures Frame(true, PING, 0, HELLO) == [0x89, 0x05, 0x48, 0x65, 0x6C, 0x6C, 0x6F]
    ensures Frame(true, CONNECTION_CLOSE, 0, []) == [0x88, 0x00]
  {
    ShortFrame(true, TEXT_FRAME, HELLO);
    ShortFrame(false, TEXT_FRAME, HELLO[..3]);
    ShortFrame(true, CONTINUATION_FRAME, HELLO[3..]);
    ShortFrame(true, PING, HELLO);
    ShortFrame(true, CONNECTION_CLOSE, []);
    hide Frame;
  }

  lemma ShortFrame(fin: bool, opcode: nibble, data: seq<byte>)
    requires |data| < 126
    ensures Frame(fin, opcode, 0, data) == [(if fin then 0x80 else 0) + opcode, |data|] + data
  {}

  /** A masked text message and the masked pong that answers the ping. */
  lemma MaskedFrames()
    ensures Frame(true, TEXT_FRAME, KEY, Mask(KEY, HELLO)) ==
            [0x81, 0x85, 0x37, 0xFA, 0x21, 0x3D, 0x7F, 0x9F, 0x4D, 0x51, 0x58]
    ensures Frame(true, PONG, KEY, Mask(KEY, HELLO)) ==
            [0x8A, 0x85, 0x37, 0xFA, 0x21, 0x3D, 0x7F, 0x9F, 0x4D, 0x51, 0x58]
  {
    KeyBytes();
    MaskedHello();
    hide Mask, EncodeBE;
  }

  /** 256 bytes and 64 kibibytes of binary data, unmasked. */
  lemma LongFrames(data: seq<byte>)
    ensures |data| == 256 ==> Frame(true, BINARY_FRAME, 0, data) == [0x82, 0x7E, 0x01, 0x00] + data
    ensures |data| == 0x1_0000 ==>
              Frame(true, BINARY_FRAME, 0, data) == [0x82, 0x7F, 0, 0, 0, 0, 0, 1, 0, 0] + data
  {
    if |data| == 256 {
      assert EncodeBE(256, 2) == [0x01, 0x00];
    } else if |data| == 0x1_0000 {
      Encoded4(0, 1, 0, 0);
      EncodeWide(0x1_0000);
    }
    hide EncodeBE;
  }

  lemma {:induction false} EncodeWider(n: nat, width: nat)
    requires n < Pow256(width)
    ensures EncodeBE(n, width + 1) == [0] + EncodeBE(n, width)
  {
    if width > 0 {
      EncodeWider(n / 256, width - 1);
    }
  }

  lemma EncodeWide(n: nat)
    requires n < UINT32_LIMIT
    ensures EncodeBE(n, 8) == [0, 0, 0, 0] + EncodeBE(n, 4)
  {
    Pow256Values();
    EncodeWider(n, 4);
    EncodeWider(n, 5);
    EncodeWider(n, 6);
    EncodeWider(n, 7);
    hide EncodeBE;
  }
}
