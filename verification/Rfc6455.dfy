/** The frame codec of RFC 6455, section 5.2: masking, frame assembly and header decoding. */
module Rfc6455 {
  import opened Bytes

  const CONTINUATION_FRAME: nibble := 0x00
  const TEXT_FRAME: nibble := 0x01
  const BINARY_FRAME: nibble := 0x02
  const CONNECTION_CLOSE: nibble := 0x08
  const PING: nibble := 0x09
  const PONG: nibble := 0x0A

  type Key = k: nat | k < UINT32_LIMIT

  datatype Header = Header(fin: bool, opcode: nibble, maskKey: Key, payloadLen: nat)

  /** What a call to `decode_header` reports: 0, -1 or the length of the header. */
  datatype Decoded = Incomplete | Invalid | Complete(hdr: Header, length: nat)

  predicate KnownOpcode(opcode: nibble) {
    opcode in {CONTINUATION_FRAME, TEXT_FRAME, BINARY_FRAME, CONNECTION_CLOSE, PING, PONG}
  }

  // -- masking ----------------------------------------------------------------

  function Mask(key: Key, data: seq<byte>): (r: seq<byte>)
    ensures |r| == |data|
  {
    seq(|data|, i requires 0 <= i < |data| => Xor(data[i], EncodeBE(key, 4)[i % 4]))
  }

  lemma {:induction false} EncodeZero(width: nat)
    ensures forall i :: 0 <= i < width ==> EncodeBE(0, width)[i] == 0
  {
    if width > 0 {
      EncodeZero(width - 1);
    }
  }

  /** Section 5.3: masking twice restores the data and the key 0 masks nothing. */
  lemma MaskTwice(key: Key, data: seq<byte>)
    ensures Mask(key, Mask(key, data)) == data
    ensures Mask(0, data) == data
  {
    EncodeZero(4);
    forall i | 0 <= i < |data|
      ensures Mask(key, Mask(key, data))[i] == data[i] && Mask(0, data)[i] == data[i]
    {
      XorLaws(data[i], EncodeBE(key, 4)[i % 4]);
    }
  }

  /** Masks `buf[lo..hi]` in place. */
  method MaskData(key: Key, buf: array<byte>, lo: nat, hi: nat)
    requires lo <= hi <= buf.Length
    modifies buf
    ensures buf[lo..hi] == Mask(key, old(buf[lo..hi]))
    ensures forall j :: 0 <= j < buf.Length && !(lo <= j < hi) ==> buf[j] == old(buf[j])
  {
    hide Xor, EncodeBE;
    var arr := EncodeBE(key, 4);
    var i := 0;
    for x := lo to hi
      invariant i == (x - lo) % 4
      invariant forall j :: lo <= j < x ==> buf[j] == Xor(old(buf[j]), arr[(j - lo) % 4])
      invariant forall j :: 0 <= j < buf.Length && !(lo <= j < x) ==> buf[j] == old(buf[j])
    {
      buf[x] := XorByte(buf[x], arr[i]);
      i := (i + 1) % 4;
    }
  }

  // -- frame assembly ---------------------------------------------------------

  function MaskBit(key: Key): byte {
    if key == 0 then 0 else 128
  }

  /** Mask bit and payload length in 7, 7+16 or 7+64 bits. */
  function LengthField(key: Key, length: nat): seq<byte> {
    if length < 126 then [MaskBit(key) + length]
    else if length < 0xFFFF then [MaskBit(key) + 126] + EncodeBE(length, 2)
    else [MaskBit(key) + 127] + EncodeBE(length, 8)
  }

  function KeyField(key: Key): seq<byte> {
    if key == 0 then [] else EncodeBE(key, 4)
  }

  function FrameHeader(fin: bool, opcode: nibble, key: Key, length: nat): seq<byte>
  {
    [(if fin then 128 else 0) + opcode] + LengthField(key, length) + KeyField(key)
  }

  /** The bytes of one frame; `data` is the payload after masking. */
  function Frame(fin: bool, opcode: nibble, key: Key, data: seq<byte>): seq<byte>
  {
    FrameHeader(fin, opcode, key, |data|) + data
  }

  /** An output buffer that only ever grows while a frame is written to it. */
  class FrameWriter {
    var out: seq<byte>

    constructor (out: seq<byte>)
      ensures this.out == out
    {
      this.out := out;
    }

    method PushBack(x: byte)
      modifies this
      ensures out == old(out) + [x]
    {
      out := out + [x];
    }

    method PushFlagged(key: Key, length: byte)
      requires length < 128
      modifies this
      ensures out == old(out) + [MaskBit(key) + length]
    {
      var b := length;
      if key != 0 {
        b := WithHighBit(length);
      }
      PushBack(b);
    }

    /** Mask flag and payload length: 7 bits, 7+16 bits, or 7+64 bits. */
    method WriteLength(key: Key, length: nat)
      requires length < UINT64_LIMIT
      modifies this
      ensures out == old(out) + LengthField(key, length)
    {
      if length < 126 {
        PushFlagged(key, length);
      } else if length < 0xFFFF {
        var lenData := EncodeBE(length, 2);
        PushFlagged(key, 126);
        PushBack(lenData[0]);
        PushBack(lenData[1]);
        assert lenData == [lenData[0], lenData[1]];
      } else {
        PushFlagged(key, 127);
        out := out + EncodeBE(length, 8);
      }
    }

    method AssembleFrame(opcode: nibble, key: Key, data: seq<byte>, fin: bool)
      requires |data| < UINT64_LIMIT
      modifies this
      ensures out == old(out) + Frame(fin, opcode, key, data)
    {
      var first: byte := opcode;
      if fin {
        first := WithHighBit(opcode);
      }
      PushBack(first);
      WriteLength(key, |data|);
      if key != 0 {
        out := out + EncodeBE(key, 4);
      }
      assert out == old(out) + FrameHeader(fin, opcode, key, |data|);
      out := out + data;
    }
  }

  // -- header decoding --------------------------------------------------------

  /** Length of a header whose second byte is `b`. */
  function HeaderLength(b: byte): nat {
    (if b % 128 < 126 then 2 else if b % 128 == 126 then 4 else 10) + (if b >= 128 then 4 else 0)
  }

  function HeaderFields(data: seq<byte>): Header
    requires |data| >= 2 && |data| >= HeaderLength(data[1])
  {
    var n := HeaderLength(data[1]);
    if data[1] < 128 then Header(data[0] >= 128, data[0] % 16, 0, PayloadLength(data[1..n]))
    else Header(data[0] >= 128, data[0] % 16, DecodeKey(data[n - 4..n]), PayloadLength(data[1..n - 4]))
  }

  function DecodeKey(s: seq<byte>): Key
    requires |s| == 4
  {
    EncodeDecodeBE(s);
    Pow256Values();
    DecodeBE(s)
  }

  /** The payload length in a length field. */
  function PayloadLength(s: seq<byte>): nat
    requires |s| > 0
  {
    if s[0] % 128 < 126 then s[0] % 128 else DecodeBE(s[1..])
  }

  function Decode(data: seq<byte>): Decoded {
    if |data| < 2 || |data| < HeaderLength(data[1]) then Incomplete
    else if data[0] / 16 % 8 != 0 || !KnownOpcode(data[0] % 16) then Invalid
    else Complete(HeaderFields(data), HeaderLength(data[1]))
  }

  /** Decodes the header at the front of `data`: 0 asks for more bytes, -1 rejects them. */
  method DecodeHeader(data: seq<byte>) returns (res: int, hdr: Header)
    ensures match Decode(data)
            case Incomplete => res == 0
            case Invalid => res == -1
            case Complete(h, n) => res == n && hdr == h && n > 0
  {
    hdr := Header(false, 0, 0, 0);
    if |data| < 2 {
      return 0, hdr;
    }
    var byte1, byte2 := data[0], data[1];
    var fin := HighBit(byte1);
    var opcode := LowNibble(byte1);
    hdr := hdr.(fin := fin, opcode := opcode);
    var masked := HighBit(byte2);
    var lenField := LowBits(byte2);
    var headerLength;
    if lenField < 126 {
      headerLength := 2 + if masked then 4 else 0;
      hdr := hdr.(payloadLen := lenField);
    } else if lenField == 126 {
      headerLength := 4 + if masked then 4 else 0;
    } else {
      headerLength := 10 + if masked then 4 else 0;
    }
    if |data| < headerLength {
      return 0, hdr;
    }
    var p := 2;
    if lenField == 126 {
      hdr := hdr.(payloadLen := DecodeBE(data[p..p + 2]));
      p := p + 2;
    } else if lenField == 127 {
      hdr := hdr.(payloadLen := DecodeBE(data[p..p + 8]));
      p := p + 8;
    }
    if masked {
      EncodeDecodeBE(data[p..p + 4]);
      Pow256Values();
      hdr := hdr.(maskKey := DecodeBE(data[p..p + 4]));
      p := p + 4;
    } else {
      hdr := hdr.(maskKey := 0);
    }
    var extension := ReservedBits(byte1);
    if extension || !KnownOpcode(hdr.opcode) {
      return -1, hdr;
    }
    return headerLength, hdr;
  }

  // -- codec theorems ---------------------------------------------------------

  lemma FrameHeaderShape(fin: bool, opcode: nibble, key: Key, length: nat)
    ensures var h := FrameHeader(fin, opcode, key, length);
            && 2 <= |h| <= 14
            && |h| == HeaderLength(h[1])
            && h[0] == (if fin then 128 else 0) + opcode
            && h[1] == LengthField(key, length)[0]
            && (h[1] >= 128 <==> key != 0)
  {}

  lemma LengthFieldDecodes(key: Key, length: nat)
    requires length < UINT64_LIMIT
    ensures PayloadLength(LengthField(key, length)) == length
  {
    Pow256Values();
    if 126 <= length < 0xFFFF {
      assert LengthField(key, length)[1..] == EncodeBE(length, 2);
      DecodeEncodeBE(length, 2);
    } else if 0xFFFF <= length {
      assert LengthField(key, length)[1..] == EncodeBE(length, 8);
      DecodeEncodeBE(length, 8);
    }
  }

  /** The bytes a decoder takes for the mask bit and the payload length, in any of the three forms. */
  predicate IsLengthField(f: seq<byte>) {
    f != [] && |f| == if f[0] % 128 < 126 then 1 else if f[0] % 128 == 126 then 3 else 9
  }

  /** Section 5.2 of RFC 6455 demands the shortest form of a length that decodes to it. The encoder meets this for every
      length except 65535, for which it writes the 64-bit form. */
  lemma ShortestExactly(key: Key, length: nat)
    requires length < UINT64_LIMIT
    ensures IsLengthField(LengthField(key, length)) && PayloadLength(LengthField(key, length)) == length
    ensures (forall f :: IsLengthField(f) && PayloadLength(f) == length ==> |LengthField(key, length)| <= |f|)
            <==> length != 0xFFFF
  {
    LengthFieldForm(key, length);
    LengthFieldDecodes(key, length);
    hide IsLengthField, PayloadLength;
    if length == 0xFFFF {
      var shorter := ShorterForm(key);
      assert |shorter| < |LengthField(key, length)|;
    } else {
      forall f | IsLengthField(f) && PayloadLength(f) == length ensures |LengthField(key, length)| <= |f| {
        LengthNeeded(f);
      }
    }
  }

  lemma LengthFieldForm(key: Key, length: nat)
    ensures IsLengthField(LengthField(key, length))
  {
    hide EncodeBE;
  }

  lemma ShorterForm(key: Key) returns (f: seq<byte>)
    ensures IsLengthField(f) && PayloadLength(f) == 0xFFFF && |f| == 3
  {
    Pow256Values();
    f := [MaskBit(key) + 126] + EncodeBE(0xFFFF, 2);
    DecodeEncodeBE(0xFFFF, 2);
    assert f[1..] == EncodeBE(0xFFFF, 2);
    hide EncodeBE, DecodeBE;
  }

  lemma LengthNeeded(f: seq<byte>)
    requires IsLengthField(f)
    ensures PayloadLength(f) < 126 || 3 <= |f|
    ensures PayloadLength(f) <= 0xFFFF || |f| == 9
  {
    Pow256Values();
    EncodeDecodeBE(f[1..]);
    hide DecodeBE, EncodeBE;
  }

  lemma FrameHeaderParts(fin: bool, opcode: nibble, key: Key, length: nat)
    ensures var h := FrameHeader(fin, opcode, key, length);
            && (key == 0 ==> h[1..] == LengthField(key, length))
            && (key != 0 ==> |h| >= 6 && h[1..|h| - 4] == LengthField(key, length) && h[|h| - 4..] == EncodeBE(key, 4))
  {}

  lemma KeyFieldDecodes(key: Key)
    ensures DecodeKey(EncodeBE(key, 4)) == key
  {
    Pow256Values();
    DecodeEncodeBE(key, 4);
  }

  lemma DecodeFrameHeader(fin: bool, opcode: nibble, key: Key, length: nat, rest: seq<byte>)
    requires KnownOpcode(opcode) && length < UINT64_LIMIT
    ensures var h := FrameHeader(fin, opcode, key, length);
            Decode(h + rest) == Complete(Header(fin, opcode, key, length), |h|)
  {
    hide FrameHeader, LengthField, KeyField, PayloadLength, DecodeKey;
    var h := FrameHeader(fin, opcode, key, length);
    FrameHeaderShape(fin, opcode, key, length);
    FirstBytes(h, rest);
    if key == 0 {
      PlainFields(fin, opcode, length, rest);
    } else {
      MaskedFields(fin, opcode, key, length, rest);
    }
    hide HeaderFields;
  }

  lemma FirstBytes(h: seq<byte>, rest: seq<byte>)
    requires |h| >= 2
    ensures (h + rest)[0] == h[0] && (h + rest)[1] == h[1] && |h + rest| == |h| + |rest|
  {}

  lemma PlainFields(fin: bool, opcode: nibble, length: nat, rest: seq<byte>)
    requires length < UINT64_LIMIT
    ensures var h := FrameHeader(fin, opcode, 0, length);
            |h| == HeaderLength(h[1]) >= 2 && HeaderFields(h + rest) == Header(fin, opcode, 0, length)
  {
    hide FrameHeader, LengthField, KeyField, PayloadLength, DecodeKey;
    var h := FrameHeader(fin, opcode, 0, length);
    FrameHeaderShape(fin, opcode, 0, length);
    LengthFieldDecodes(0, length);
    FrameHeaderParts(fin, opcode, 0, length);
    assert (h + rest)[1..|h|] == h[1..];
  }

  lemma MaskedFields(fin: bool, opcode: nibble, key: Key, length: nat, rest: seq<byte>)
    requires length < UINT64_LIMIT && key != 0
    ensures var h := FrameHeader(fin, opcode, key, length);
            |h| == HeaderLength(h[1]) >= 6 && HeaderFields(h + rest) == Header(fin, opcode, key, length)
  {
    hide FrameHeader, LengthField, KeyField, PayloadLength, DecodeKey;
    var h := FrameHeader(fin, opcode, key, length);
    FrameHeaderShape(fin, opcode, key, length);
    LengthFieldDecodes(key, length);
    FrameHeaderParts(fin, opcode, key, length);
    KeyFieldDecodes(key);
    assert (h + rest)[1..|h| - 4] == h[1..|h| - 4];
    assert (h + rest)[|h| - 4..|h|] == h[|h| - 4..];
  }

  /** Decoding an assembled frame returns its fields and the length of its header. */
  lemma DecodeFrame(fin: bool, opcode: nibble, key: Key, data: seq<byte>, rest: seq<byte>)
    requires KnownOpcode(opcode) && |data| < UINT64_LIMIT
    ensures var n := |FrameHeader(fin, opcode, key, |data|)|;
            && Decode(Frame(fin, opcode, key, data) + rest) == Complete(Header(fin, opcode, key, |data|), n)
            && |Frame(fin, opcode, key, data)| == n + |data|
            && (Frame(fin, opcode, key, data) + rest)[n..n + |data|] == data
            && (Frame(fin, opcode, key, data) + rest)[n + |data|..] == rest
  {
    DecodeFrameHeader(fin, opcode, key, |data|, data + rest);
    hide Decode, FrameHeader, LengthField, KeyField, EncodeBE;
    var h := FrameHeader(fin, opcode, key, |data|);
    assert h + (data + rest) == (h + data) + rest;
    assert Frame(fin, opcode, key, data) + rest == FrameHeader(fin, opcode, key, |data|) + (data + rest);
  }

  /** Any strict prefix of a header asks for more bytes. */
  lemma DecodeStrictPrefix(fin: bool, opcode: nibble, key: Key, length: nat, k: nat)
    requires k < |FrameHeader(fin, opcode, key, length)|
    ensures Decode(FrameHeader(fin, opcode, key, length)[..k]) == Incomplete
  {
    FrameHeaderShape(fin, opcode, key, length);
  }

  /** Bytes that arrive later never change a decision the decoder has taken. */
  lemma DecodeStable(a: seq<byte>, b: seq<byte>)
    requires !Decode(a).Incomplete?
    ensures Decode(a + b) == Decode(a)
  {
    hide PayloadLength, DecodeKey;
    var n := HeaderLength(a[1]);
    if a[1] < 128 {
      SliceAppended(a, b, 1, n);
    } else {
      SliceAppended(a, b, 1, n - 4);
      SliceAppended(a, b, n - 4, n);
    }
  }
}
