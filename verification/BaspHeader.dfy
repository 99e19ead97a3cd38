/** The 13-byte header of every BASP message. */
module BaspHeader {
  import opened Bytes

  const HEADER_SIZE: nat := 13

  const HANDSHAKE: byte := 0
  const ACTOR_MESSAGE: byte := 1
  const RESOLVE_REQUEST: byte := 2
  const RESOLVE_RESPONSE: byte := 3
  const MONITOR_MESSAGE: byte := 4
  const DOWN_MESSAGE: byte := 5
  const HEARTBEAT: byte := 6

  type uint32 = x: int | 0 <= x < UINT32_LIMIT
  type uint64 = x: int | 0 <= x < UINT64_LIMIT

  /** `kind` is any byte: a header read from the wire may carry an unknown message type. */
  datatype Header = Header(kind: byte, payloadLen: uint32, operationData: uint64)

  function ToBytes(h: Header): (r: seq<byte>)
    ensures |r| == HEADER_SIZE
  {
    [h.kind] + EncodeBE(h.payloadLen, 4) + EncodeBE(h.operationData, 8)
  }

  function FromBytes(bytes: seq<byte>): Header
    requires |bytes| >= HEADER_SIZE
  {
    Pow256Values();
    EncodeDecodeBE(bytes[1..5]);
    EncodeDecodeBE(bytes[5..13]);
    Header(bytes[0], DecodeBE(bytes[1..5]), DecodeBE(bytes[5..13]))
  }

  /** The layout in numbers: the type, 4 bytes for the size and 8 for the operation data, in network byte order. */
  lemma HeaderInNumbers()
    ensures ToBytes(Header(DOWN_MESSAGE, 0x102, 0x304)) == [5, 0, 0, 1, 2, 0, 0, 0, 0, 0, 0, 3, 4]
  {
    TwoBytes(1, 2, 4);
    TwoBytes(3, 4, 8);
    hide EncodeBE;
  }

  lemma {:induction false} TwoBytes(a: byte, b: byte, width: nat)
    requires width >= 2
    ensures EncodeBE(a * 256 + b, width) == Zeros(width - 2) + [a, b]
  {
    ZeroBytes(width - 2);
    assert EncodeBE(a, width - 1) == EncodeBE(0, width - 2) + [a];
  }

  function Zeros(n: nat): seq<byte> {
    seq(n, _ => 0)
  }

  lemma {:induction false} ZeroBytes(width: nat)
    ensures EncodeBE(0, width) == Zeros(width)
  {
    if width > 0 {
      ZeroBytes(width - 1);
    }
  }

  /** A header in front of anything reads back as it was written. */
  lemma FromToBytes(h: Header, rest: seq<byte>)
    ensures FromBytes(ToBytes(h) + rest) == h
  {
    Pow256Values();
    DecodeEncodeBE(h.payloadLen, 4);
    DecodeEncodeBE(h.operationData, 8);
    var w := ToBytes(h) + rest;
    assert w[1..5] == EncodeBE(h.payloadLen, 4);
    assert w[5..13] == EncodeBE(h.operationData, 8);
  }

  /** Every 13 bytes are the encoding of the header read from them. */
  lemma ToFromBytes(bytes: seq<byte>)
    requires |bytes| == HEADER_SIZE
    ensures ToBytes(FromBytes(bytes)) == bytes
  {
    EncodeDecodeBE(bytes[1..5]);
    EncodeDecodeBE(bytes[5..13]);
    assert bytes == [bytes[0]] + bytes[1..5] + bytes[5..13];
  }

  /** `to_bytes_impl`: writes the fields into a buffer, which starts with the header afterwards. */
  method WriteTo(h: Header, buf: array<byte>)
    requires buf.Length >= HEADER_SIZE
    modifies buf
    ensures buf[..HEADER_SIZE] == ToBytes(h)
    ensures forall j :: HEADER_SIZE <= j < buf.Length ==> buf[j] == old(buf[j])
  {
    buf[0] := h.kind;
    Overwrite(buf, 1, EncodeBE(h.payloadLen, 4));
    Overwrite(buf, 5, EncodeBE(h.operationData, 8));
    assert buf[..HEADER_SIZE] == ToBytes(h);
  }

  // -- comparison -----------------------------------------------------------------------------------------------------

  function Sign(x: int): int {
    if x < 0 then -1 else if x > 0 then 1 else 0
  }

  /** The sign of `memcmp`. */
  function Memcmp(a: seq<byte>, b: seq<byte>): int
    requires |a| == |b|
  {
    if a == [] then 0 else if a[0] != b[0] then Sign(a[0] as int - b[0] as int) else Memcmp(a[1..], b[1..])
  }

  function Compare(x: Header, y: Header): int {
    Memcmp(ToBytes(x), ToBytes(y))
  }

  function Then(first: int, second: int): int {
    if first != 0 then first else second
  }

  lemma {:induction false} MemcmpConcat(a: seq<byte>, b: seq<byte>, c: seq<byte>, d: seq<byte>)
    requires |a| == |b| && |c| == |d|
    ensures Memcmp(a + c, b + d) == Then(Memcmp(a, b), Memcmp(c, d))
    decreases |a|
  {
    if a == [] {
      assert a + c == c && b + d == d;
    } else {
      MemcmpConcat(a[1..], b[1..], c, d);
      assert (a + c)[1..] == a[1..] + c && (b + d)[1..] == b[1..] + d;
    }
  }

  lemma MemcmpOne(x: byte, y: byte)
    ensures Memcmp([x], [y]) == Sign(x as int - y as int)
  {
    assert Memcmp([], []) == 0;
  }

  /** In network byte order, comparing bytes compares numbers. */
  lemma {:induction false} MemcmpIsNumeric(m: nat, n: nat, width: nat)
    requires m < Pow256(width) && n < Pow256(width)
    ensures Memcmp(EncodeBE(m, width), EncodeBE(n, width)) == Sign(m - n)
  {
    if width > 0 {
      MemcmpIsNumeric(m / 256, n / 256, width - 1);
      MemcmpConcat(EncodeBE(m / 256, width - 1), EncodeBE(n / 256, width - 1), [m % 256], [n % 256]);
      MemcmpOne(m % 256, n % 256);
    }
  }

  /** Headers are ordered by message type, then payload size, then operation data; 0 means equality. */
  lemma CompareIsLexicographic(x: Header, y: Header)
    ensures Compare(x, y) == Then(Sign(x.kind as int - y.kind as int),
                                  Then(Sign(x.payloadLen as int - y.payloadLen as int),
                                      Sign(x.operationData as int - y.operationData as int)))
    ensures Compare(x, y) == 0 <==> x == y
  {
    Pow256Values();
    MemcmpOne(x.kind, y.kind);
    MemcmpIsNumeric(x.payloadLen, y.payloadLen, 4);
    MemcmpIsNumeric(x.operationData, y.operationData, 8);
    var xs, ys := EncodeBE(x.payloadLen, 4), EncodeBE(y.payloadLen, 4);
    MemcmpConcat([x.kind] + xs, [y.kind] + ys, EncodeBE(x.operationData, 8), EncodeBE(y.operationData, 8));
    MemcmpConcat([x.kind], [y.kind], xs, ys);
    hide Memcmp, EncodeBE;
  }
}
