/** The wake-up pipe: other threads write records with a counted pointer, and the pollset updater executes them. */
module PollsetUpdater {
  import opened Bytes

  const REGISTER_READING: byte := 0x00
  const REGISTER_WRITING: byte := 0x01
  const INIT_MANAGER: byte := 0x02
  const SHUTDOWN: byte := 0x04

  const RECORD_SIZE: nat := 9

  /** An opcode and a pointer to a socket manager, 0 for none. */
  datatype Record = Record(opcode: byte, mgr: nat)

  predicate IsPointer(r: Record) {
    r.mgr < UINT64_LIMIT
  }

  function Encode(r: Record): (b: seq<byte>)
    ensures |b| == RECORD_SIZE
  {
    [r.opcode] + EncodeBE(r.mgr, 8)
  }

  function Decode(b: seq<byte>): Record
    requires |b| == RECORD_SIZE
  {
    Record(b[0], DecodeBE(b[1..]))
  }

  lemma DecodeEncode(r: Record)
    requires IsPointer(r)
    ensures Decode(Encode(r)) == r
  {
    Pow256Values();
    DecodeEncodeBE(r.mgr, 8);
    assert Encode(r)[1..] == EncodeBE(r.mgr, 8);
  }

  function EncodeAll(rs: seq<Record>): seq<byte> {
    if rs == [] then [] else Encode(rs[0]) + EncodeAll(rs[1..])
  }

  lemma {:induction false} EncodeAllConcat(a: seq<Record>, b: seq<Record>)
    ensures EncodeAll(a + b) == EncodeAll(a) + EncodeAll(b)
  {
    if a == [] {
      assert a + b == b;
    } else {
      assert (a + b)[1..] == a[1..] + b;
      EncodeAllConcat(a[1..], b);
      Associative(Encode(a[0]), EncodeAll(a[1..]), EncodeAll(b));
    }
  }

  lemma {:induction false} EncodeAllLength(rs: seq<Record>)
    ensures |EncodeAll(rs)| == RECORD_SIZE * |rs|
  {
    if rs != [] {
      EncodeAllLength(rs[1..]);
    }
  }

  /** The references that records hold: one per record that is not a shutdown. */
  function References(rs: seq<Record>): multiset<nat> {
    if rs == [] then multiset{} else Held(rs[0]) + References(rs[1..])
  }

  function Held(r: Record): multiset<nat> {
    if r.opcode == SHUTDOWN then multiset{} else multiset{r.mgr}
  }

  lemma {:induction false} ReferencesConcat(a: seq<Record>, b: seq<Record>)
    ensures References(a + b) == References(a) + References(b)
  {
    if a == [] {
      assert a + b == b;
    } else {
      assert (a + b)[1..] == a[1..] + b;
      ReferencesConcat(a[1..], b);
    }
  }

  lemma AppendedRecord(part: seq<byte>, bytes: seq<byte>, pending: seq<Record>, r: Record)
    requires part + bytes == EncodeAll(pending)
    ensures part + (bytes + Encode(r)) == EncodeAll(pending + [r])
    ensures References(pending + [r]) == References(pending) + Held(r)
  {
    EncodeAllConcat(pending, [r]);
    ReferencesConcat(pending, [r]);
    assert [r][1..] == [];
    assert EncodeAll([r]) == Encode(r);
    assert References([r]) == Held(r);
    hide EncodeAll, References;
    Associative(part, bytes, Encode(r));
  }

  /** A full buffer in front of the pipe holds the oldest record on its way. */
  lemma OldestRecord(part: seq<byte>, bytes: seq<byte>, pending: seq<Record>)
    requires |part| == RECORD_SIZE && part + bytes == EncodeAll(pending) && forall r :: r in pending ==> IsPointer(r)
    ensures pending != [] && Decode(part) == pending[0] && bytes == EncodeAll(pending[1..])
    ensures References(pending) == Held(pending[0]) + References(pending[1..])
  {
    EncodeAllLength(pending);
    DecodeEncode(pending[0]);
    hide Decode, Encode, DecodeBE;
    assert (part + bytes)[..RECORD_SIZE] == part && (part + bytes)[RECORD_SIZE..] == bytes;
    assert EncodeAll(pending)[..RECORD_SIZE] == Encode(pending[0]);
    assert EncodeAll(pending)[RECORD_SIZE..] == EncodeAll(pending[1..]);
  }

  /** The pipe. Its records are shorter than what a pipe writes atomically, so a write takes all bytes or fails. */
  class Pipe {
    var bytes: seq<byte>
    /** The write end. */
    var open: bool

    constructor ()
      ensures bytes == [] && open
    {
      bytes, open := [], true;
    }

    method Write(data: seq<byte>) returns (n: int)
      modifies this`bytes
      ensures n == |data| || n <= 0
      ensures bytes == if n == |data| && n > 0 then old(bytes) + data else old(bytes)
    {
      n :| n == |data| || n <= 0;
      if n > 0 {
        bytes := bytes + data;
      }
    }

    /** Any positive number of the bytes that are there; 0 once the pipe is closed and empty, and -1 for an error,
        which is temporary only if the pipe is empty. */
    method Read(buf: array<byte>, lo: nat, hi: nat) returns (n: int, temporary: bool)
      requires lo < hi <= buf.Length
      modifies this`bytes, buf
      ensures -1 <= n <= hi - lo && n <= |old(bytes)|
      ensures n > 0 ==> bytes == old(bytes)[n..]
      ensures n <= 0 ==> bytes == old(bytes)
      ensures n == 0 ==> bytes == [] && !open
      ensures temporary ==> n < 0 && bytes == []
      ensures forall j :: 0 <= j < buf.Length ==> buf[j] == if lo <= j < lo + n then old(bytes)[j - lo] else old(buf[j])
    {
      n :| -1 <= n <= hi - lo && n <= |bytes| && (n == 0 ==> bytes == [] && !open);
      temporary :| temporary ==> n < 0 && bytes == [];
      if n > 0 {
        Overwrite(buf, lo, bytes[..n]);
        bytes := bytes[n..];
      }
    }
  }

  class Updater {
    const pipe: Pipe
    const buf: array<byte>
    var bufSize: nat
    /** References to socket managers that are held by records on their way. */
    var references: multiset<nat>
    /** The records carried out by the multiplexer, in order. */
    var executed: seq<Record>
    /** The records whose write has succeeded, in order. */
    ghost var written: seq<Record>

    ghost function Pending(): seq<Record>
      requires |executed| <= |written|
      reads this
    {
      written[|executed|..]
    }

    /** Executed are the records written first, in their order; the buffer and the pipe hold exactly the others, and
        each of these holds one reference. */
    ghost predicate Valid()
      reads this, buf, pipe
    {
      && buf.Length == RECORD_SIZE && bufSize < RECORD_SIZE
      && executed <= written && (forall r :: r in written ==> IsPointer(r))
      && buf[..bufSize] + pipe.bytes == EncodeAll(Pending())
      && references == References(Pending())
    }

    constructor (pipe: Pipe)
      requires pipe.bytes == []
      ensures Valid() && fresh(buf) && this.pipe == pipe && written == [] && references == multiset{}
    {
      this.pipe := pipe;
      buf := new byte[RECORD_SIZE];
      bufSize, references, executed, written := 0, multiset{}, [], [];
    }

    /** `write_to_pipe`, by any thread. */
    method WriteToPipe(r: Record)
      requires Valid() && IsPointer(r)
      modifies this`references, this`written, pipe`bytes
      ensures Valid() && (written == old(written) || written == old(written) + [r])
      ensures !pipe.open ==> written == old(written)
    {
      hide EncodeAll, References, Encode;
      ghost var pending := Pending();
      AppendedRecord(buf[..bufSize], pipe.bytes, pending, r);
      references := references + Held(r);
      var n := -1;
      if pipe.open {
        n := pipe.Write(Encode(r));
      }
      if n > 0 {
        written := written + [r];
        assert Pending() == pending + [r];
      } else {
        references := references - Held(r);
      }
    }

    /** A complete record: the reference passes to the multiplexer and is released after the call. */
    method Execute()
      requires buf.Length == RECORD_SIZE && bufSize == RECORD_SIZE
      requires executed <= written && (forall r :: r in written ==> IsPointer(r))
      requires buf[..bufSize] + pipe.bytes == EncodeAll(Pending()) && references == References(Pending())
      modifies this`bufSize, this`references, this`executed, pipe`open
      ensures Valid() && |executed| == |old(executed)| + 1
      ensures executed[|executed| - 1].opcode == SHUTDOWN ==> !pipe.open
      ensures executed[|executed| - 1].opcode != SHUTDOWN ==> pipe.open == old(pipe.open)
      ensures old(executed) <= executed && pipe.bytes == old(pipe.bytes)
    {
      hide EncodeAll, References, Decode;
      ghost var pending := Pending();
      assert buf[..bufSize] == buf[..];
      OldestRecord(buf[..], pipe.bytes, pending);
      bufSize := 0;
      var r := Decode(buf[..]);
      if r.opcode == SHUTDOWN {
        pipe.open := false;
      } else {
        references := references - multiset{r.mgr};
      }
      executed := executed + [r];
      assert Pending() == pending[1..];
      assert buf[..0] + pipe.bytes == pipe.bytes;
    }

    method WriteAll(rs: seq<Record>)
      requires Valid() && forall r :: r in rs ==> IsPointer(r)
      modifies this`references, this`written, pipe`bytes
      ensures Valid() && old(written) <= written
    {
      for k := 0 to |rs|
        invariant Valid() && old(written) <= written
      {
        WriteToPipe(rs[k]);
      }
    }

    /** Reads into the rest of the buffer. */
    method ReadMore() returns (n: int, temporary: bool)
      requires Valid()
      modifies this`bufSize, pipe`bytes, buf
      ensures n <= 0 ==> Valid() && (n == 0 ==> pipe.bytes == [] && !pipe.open) && (temporary ==> pipe.bytes == [])
      ensures n > 0 ==> !temporary && |pipe.bytes| < |old(pipe.bytes)| && 0 < bufSize <= RECORD_SIZE
      ensures n > 0 ==> buf[..bufSize] + pipe.bytes == EncodeAll(Pending())
    {
      ghost var unread, part := pipe.bytes, buf[..bufSize];
      n, temporary := pipe.Read(buf, bufSize, RECORD_SIZE);
      if n > 0 {
        bufSize := bufSize + n;
        assert buf[..bufSize] == part + unread[..n];
        assert unread == unread[..n] + unread[n..];
        Associative(part, unread[..n], unread[n..]);
      } else {
        assert buf[..bufSize] == part;
      }
    }

    /** One round of the loop: a read, and the record if it is complete. */
    method ReadAndExecute() returns (n: int, temporary: bool)
      requires Valid()
      modifies this`bufSize, this`references, this`executed, buf, pipe
      ensures Valid() && old(executed) <= executed
      ensures n <= 0 ==> (n == 0 ==> pipe.bytes == [] && !pipe.open) && (temporary ==> pipe.bytes == [])
      ensures n > 0 ==> !temporary && |pipe.bytes| < |old(pipe.bytes)|
    {
      hide EncodeAll, References;
      n, temporary := ReadMore();
      if n > 0 && bufSize == RECORD_SIZE {
        Execute();
      }
    }

    /** An empty pipe means that every record has been executed: none is left in the buffer. */
    lemma NothingLeft()
      requires Valid() && pipe.bytes == []
      ensures executed == written && references == multiset{}
    {
      EncodeAllLength(Pending());
      assert |buf[..bufSize] + pipe.bytes| == bufSize;
      assert Pending() == [];
    }

    /** `handle_read_event`; before its k-th read, other threads write `arrivals[k]`. Whenever the updater goes back to
        waiting, everything written has been executed and every reference has been released. */
    method HandleReadEvent(arrivals: seq<seq<Record>>) returns (keep: bool)
      requires Valid() && forall a, r :: a in arrivals && r in a ==> IsPointer(r)
      modifies this`bufSize, this`references, this`executed, this`written, buf, pipe
      ensures Valid() && old(executed) <= executed && old(written) <= written
      ensures keep ==> executed == written && references == multiset{}
      ensures !pipe.open && pipe.bytes == [] ==> executed == written && references == multiset{}
    {
      hide EncodeAll, References;
      var k := 0;
      while true
        invariant Valid() && k <= |arrivals| && old(executed) <= executed && old(written) <= written
        decreases |arrivals| - k, |pipe.bytes|
      {
        if k < |arrivals| {
          assert arrivals[k] in arrivals;
          WriteAll(arrivals[k]);
          k := k + 1;
        }
        var n, temporary := ReadAndExecute();
        if n <= 0 {
          if pipe.bytes == [] {
            NothingLeft();
          }
          return temporary;
        }
      }
    }

    /** Any interleaving of writers and read events. */
    method Run(events: seq<seq<seq<Record>>>)
      requires Valid() && forall e, a, r :: e in events && a in e && r in a ==> IsPointer(r)
      modifies this`bufSize, this`references, this`executed, this`written, buf, pipe
      ensures Valid() && old(executed) <= executed && old(written) <= written
    {
      for k := 0 to |events|
        invariant Valid() && old(executed) <= executed && old(written) <= written
      {
        assert events[k] in events;
        var keep := HandleReadEvent(events[k]);
      }
    }
  }
}
