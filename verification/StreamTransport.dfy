/** The stream transport: the read buffer, its thresholds and the output buffer around calls into an upper layer. */
module StreamTransport {
  import opened Bytes
  import opened StreamLayer
  import opened PollsetModel

  /** The calls of `recv` or `send` so far: how many, whether the last one has reported a temporary error, and whether
      any has failed for good, with a closed connection or another error. */
  datatype Calls = Calls(count: nat, dry: bool, failed: bool) {
    function Next(n: int, temporary: bool): Calls {
      Calls(count + 1, n < 0 && temporary, failed || n == 0 || (n < 0 && !temporary))
    }
  }

  /** A connected stream socket: the peer's bytes arrive in chunks of any size, and any positive prefix may be sent. */
  class Socket {
    const inbound: seq<byte>
    var pos: nat
    var sent: seq<byte>
    ghost var recvs: Calls
    ghost var sends: Calls

    ghost predicate Valid()
      reads this
    {
      pos <= |inbound|
    }

    ghost function Received(): seq<byte>
      requires Valid()
      reads this
    {
      inbound[..pos]
    }

    constructor (inbound: seq<byte>)
      ensures Valid() && this.inbound == inbound && pos == 0 && sent == [] && !recvs.failed && !sends.failed
    {
      this.inbound := inbound;
      pos, sent, recvs, sends := 0, [], Calls(0, false, false), Calls(0, false, false);
    }

    /** `recv`: a positive count, 0 for a closed connection or -1 for an error that may be temporary. */
    method Read(buf: array<byte>, lo: nat, hi: nat) returns (n: int, temporary: bool)
      requires Valid() && lo < hi <= buf.Length
      modifies this`pos, this`recvs, buf
      ensures Valid() && -1 <= n <= hi - lo && recvs == old(recvs).Next(n, temporary)
      ensures n <= 0 ==> pos == old(pos)
      ensures n > 0 ==> pos == old(pos) + n
      ensures forall j :: 0 <= j < buf.Length ==>
                buf[j] == if lo <= j < lo + n then inbound[old(pos) + j - lo] else old(buf[j])
    {
      n :| -1 <= n <= hi - lo && pos + n <= |inbound|;
      temporary :| temporary ==> n < 0;
      recvs := recvs.Next(n, temporary);
      if n > 0 {
        Overwrite(buf, lo, inbound[pos..pos + n]);
        pos := pos + n;
      }
    }

    /** `send`: takes a positive prefix of `data`, or reports 0 or -1. */
    method Write(data: seq<byte>) returns (n: int, temporary: bool)
      requires data != []
      modifies this`sent, this`sends
      ensures -1 <= n <= |data| && sends == old(sends).Next(n, temporary)
      ensures sent == old(sent) + if n > 0 then data[..n] else []
    {
      n :| -1 <= n <= |data|;
      temporary :| temporary ==> n < 0;
      sends := sends.Next(n, temporary);
      if n > 0 {
        sent := sent + data[..n];
      }
    }
  }

  /** What happens to a transport: `poll` reports events, or a record of another thread registers it for writing. */
  datatype Event = Poll(ready: Ready) | Wake

  class Transport<S(!new), V> {
    const layer: Layer<S>
    const socket: Socket
    const maxConsecutiveReads: nat
    /** What the layer is meant to compute from the received bytes, as far as `view` shows. */
    ghost const view: S -> V
    ghost const spec: seq<byte> -> Progress<V>
    /** What the layer has written according to its state, and what was written before its first step. */
    ghost const shipped: S -> seq<byte>
    ghost const opening: seq<byte>

    var minReadSize: nat
    var maxReadSize: nat
    var offset: nat
    var deltaOffset: nat
    var readBuf: array<byte>
    var writeBuf: seq<byte>
    var state: S
    /** The mask of the manager and what its entry in the pollset polls for. */
    var interest: Interest
    /** Set once reading or writing has failed, which tells the layer to abort; the other direction may go on. */
    var readAborted: bool
    var writeAborted: bool
    /** Set where the source would read beyond the end of its buffer. */
    var faulted: bool

    /** The bytes removed from the read buffer because the layer consumed them, and all bytes ever put into the
        output buffer. */
    ghost var eaten: seq<byte>
    ghost var appended: seq<byte>
    /** Set once the layer has returned a negative count. */
    ghost var rejected: bool
    /** Set once the branch for `offset_ >= max_read_size_` has been taken, and once it has made no progress. */
    ghost var overrun: bool
    ghost var stuck: bool
    /** Set once `prepare_send` has failed, and once `poll` has reported an error. */
    ghost var unprepared: bool
    ghost var errored: bool
    /** What has happened to the transport so far, and the callbacks that have been called. */
    ghost var history: seq<Event>
    ghost var callbacks: seq<Op>

    ghost predicate Valid()
      reads this, readBuf, socket
    {
      Sound() && Blamed()
    }

    /** Each direction has failed if and only if there is a reason: the socket has failed for good, the layer has
        given up, or `poll` has reported an error. Errors that are temporary are none. */
    ghost predicate Blamed()
      reads this, socket
    {
      && Reasons(readAborted, socket.recvs.failed, rejected || stuck, errored)
      && Reasons(writeAborted, socket.sends.failed, unprepared, errored)
    }

    ghost predicate Sound()
      reads this, readBuf, socket
    {
      && socket.Valid()
      && deltaOffset <= offset <= readBuf.Length
      && WellBehaved(layer)
      && (!overrun && !rejected ==> eaten + readBuf[..offset] == socket.Received())
      && (!overrun ==> !faulted)
      && (stuck ==> overrun)
      && socket.sent + writeBuf == appended
      && (Ships(layer, shipped) ==> appended == opening + shipped(state))
      && Polled()
    }

    /** What a read event leaves alone. */
    ghost function Aside(): (bool, bool, bool, seq<Event>)
      reads this
    {
      (writeAborted, unprepared, errored, history)
    }

    /** Whatever remains to be sent or read is in the mask. */
    ghost predicate Polled()
      reads this
    {
      && (!writeAborted && writeBuf != [] ==> interest.mask.write)
      && (!readAborted && !faulted && maxReadSize > 0 ==> interest.mask.read)
    }

    /** The manager has an entry, as it always does when its callbacks are called. */
    predicate HasEntry()
      reads this
    {
      !interest.polled.None() && !interest.mask.None()
    }

    /** The manager wants to write, but has lost its entry: no registration brings it back. */
    predicate Stranded()
      reads this
    {
      interest == Interest(Ops(false, true), NOTHING)
    }

    /** Between two events: what is polled for is what the mask says, unless the manager is stranded. */
    predicate Consistent()
      reads this
    {
      (interest.polled == interest.mask || Stranded()) && (readAborted ==> !interest.mask.read)
    }

    /** The layer stands exactly where `spec` says, and there is room to read on unless the layer gave up. */
    ghost predicate InSync()
      requires socket.Valid()
      reads this, socket
    {
      !overrun && StandsAt(spec, socket.Received(), view(state), |eaten|, Policy(minReadSize, maxReadSize), rejected)
    }

    /** Polling for output has not ended before everything was sent and the layer was done. */
    ghost predicate SendsOn()
      reads this
    {
      !writeAborted && !Stranded() && !interest.polled.write ==> writeBuf == [] && layer.doneSending(state)
    }

    /** After `init`, in which the layer has configured `policy` and written `output`. */
    constructor (layer: Layer<S>, ghost view: S -> V, ghost spec: seq<byte> -> Progress<V>,
                 ghost shipped: S -> seq<byte>, socket: Socket, state: S, policy: Policy, output: seq<byte>,
                 maxReads: nat)
      requires WellBehaved(layer) && socket.Valid() && socket.pos == 0 && socket.sent == [] && shipped(state) == []
      requires !socket.recvs.failed && !socket.sends.failed
      ensures Valid() && fresh(readBuf)
      ensures this.layer == layer && this.socket == socket && this.state == state
      ensures this.view == view && this.spec == spec && this.shipped == shipped && opening == output
      ensures !readAborted && !writeAborted && !rejected && !overrun && !faulted && Consistent() && !Stranded()
      ensures !errored && history == [] && callbacks == []
      ensures offset == 0 && eaten == [] && appended == output && interest.mask.write == (output != [])
      ensures Policy(minReadSize, maxReadSize) == policy
    {
      this.layer, this.view, this.spec, this.shipped, this.socket, this.state := layer, view, spec, shipped, socket,
          state;
      maxConsecutiveReads := maxReads;
      minReadSize, maxReadSize := policy.minSize, policy.maxSize;
      offset, deltaOffset, writeBuf := 0, 0, output;
      readBuf := new byte[0];
      interest := Interest(Ops(policy.maxSize > 0, output != []), Ops(policy.maxSize > 0, output != []));
      readAborted, writeAborted, faulted := false, false, false;
      eaten, appended, opening, overrun, rejected := [], output, output, false, false;
      stuck, unprepared, errored, history, callbacks := false, false, false, [], [];
    }

    method ConfigureRead(policy: Policy)
      modifies this`minReadSize, this`maxReadSize, this`interest
      ensures Policy(minReadSize, maxReadSize) == policy
      ensures interest ==
              if policy.maxSize > 0 && old(maxReadSize) == 0 then old(interest).Register(Read) else old(interest)
    {
      if policy.maxSize > 0 && maxReadSize == 0 {
        interest := interest.Register(Read);
      }
      minReadSize := policy.minSize;
      maxReadSize := policy.maxSize;
    }

    /** Registers for writing unless there is output already, which has been registered before. */
    method BeginOutput()
      modifies this`interest
      ensures interest == if writeBuf == [] then old(interest).Register(Write) else old(interest)
    {
      if writeBuf == [] {
        interest := interest.Register(Write);
      }
    }

    /** Output by the layer: `begin_output` and then appending to `output_buffer`; a layer may also begin without adding
        anything. */
    method Append(output: seq<byte>, bare: bool)
      modifies this`writeBuf, this`interest, this`appended
      ensures writeBuf == old(writeBuf) + output && appended == old(appended) + output
      ensures old(socket.sent + writeBuf == appended) ==> socket.sent + writeBuf == appended
      ensures interest ==
              if old(writeBuf) == [] && (bare || output != []) then old(interest).Register(Write) else old(interest)
    {
      if bare || output != [] {
        BeginOutput();
      }
      assert socket.sent + (writeBuf + output) == (socket.sent + writeBuf) + output;
      writeBuf := writeBuf + output;
      appended := appended + output;
    }

    method Resize(size: nat)
      requires offset <= size
      requires offset <= readBuf.Length
      modifies this`readBuf
      ensures fresh(readBuf) && readBuf.Length == size
      ensures readBuf[..offset] == old(readBuf[..offset])
    {
      var buf := new byte[size];
      Overwrite(buf, 0, readBuf[..offset]);
      readBuf := buf;
    }

    /** Moves the unconsumed bytes `readBuf[from..offset]` to the front. */
    method ShiftDown(from: nat)
      requires from <= offset <= readBuf.Length
      modifies readBuf
      ensures readBuf[..offset - from] == old(readBuf[from..offset])
    {
      for k := 0 to offset - from
        invariant forall j :: 0 <= j < k ==> readBuf[j] == old(readBuf[from + j])
        invariant forall j :: k <= j < readBuf.Length ==> readBuf[j] == old(readBuf[j])
      {
        readBuf[k] := readBuf[from + k];
      }
    }

    lemma SocketValid()
      requires Valid()
      ensures socket.Valid()
    {
      hide WellBehaved, Ships;
    }

    lemma NoReason()
      requires Valid() && !readAborted
      ensures !socket.recvs.failed && !rejected && !stuck && !errored
    {
      hide WellBehaved, Ships;
    }

    /** What remains to be shown after a call into the layer. */
    ghost predicate Parts()
      reads this, readBuf, socket
    {
      && socket.Valid() && deltaOffset <= offset <= readBuf.Length && WellBehaved(layer) && (!overrun ==> !faulted)
      && Polled() && socket.sent + writeBuf == appended
      && (Ships(layer, shipped) ==> appended == opening + shipped(state))
      && Reasons(writeAborted, socket.sends.failed, unprepared, errored)
    }

    lemma ValidParts()
      requires Valid()
      ensures Parts() && (!overrun && !rejected ==> eaten + readBuf[..offset] == socket.Received())
      ensures stuck ==> overrun
    {
      hide WellBehaved, Ships;
    }

    lemma PartsValid()
      requires Parts() && (stuck ==> overrun)
      requires Reasons(readAborted, socket.recvs.failed, rejected || stuck, errored)
      requires !overrun && !rejected ==> eaten + readBuf[..offset] == socket.Received()
      ensures Valid()
    {
      hide WellBehaved, Ships;
    }

    /** Calls `consume` on the first `size` bytes and carries out what the layer did in that call. */
    method CallConsume(size: nat, delta: seq<byte>) returns (consumed: int, ghost o: Outcome<S>)
      requires Valid() && HasEntry() && !readAborted && size <= offset
      modifies this`state, this`minReadSize, this`maxReadSize, this`interest, this`writeBuf,
               this`appended, readBuf
      ensures o == layer.consume(old(state), old(readBuf[..size]), delta)
      ensures consumed == o.consumed <= size && state == o.state
      ensures Passive(layer) ==> state == old(state)
      ensures Policy(minReadSize, maxReadSize) == PolicyAfter(o, old(Policy(minReadSize, maxReadSize)))
      ensures writeBuf == old(writeBuf) + o.output && appended == old(appended) + o.output
      ensures socket.sent + writeBuf == appended && Polled() && HasEntry() && Extends(old(interest), interest)
      ensures ForOutput(NeverBare(layer), |old(appended)|, old(interest), |appended|, interest)
      ensures Ships(layer, shipped) ==> appended == opening + shipped(state)
      ensures forall j :: 0 <= j < readBuf.Length && (j >= size || j >= consumed >= 0) ==> readBuf[j] == old(readBuf[j])
    {
      hide Valid, WellBehaved, Ships, Extends, Passive, NeverBare;
      ValidParts();
      var bytes := readBuf[..size];
      var res := layer.consume(state, bytes, delta);
      PassiveStays(layer, state, bytes, delta);
      NeverBareStays(layer, state, bytes, delta);
      Behaves(layer, state, bytes, delta);
      ConsumeAccounts(layer, shipped, state, bytes, delta, opening, appended);
      o, consumed, state := res, res.consumed, res.state;
      Overwrite(readBuf, 0, res.input);
      CarryOut(res.policy, res.output, res.bare);
    }

    /** The policy that the layer has configured and the output it has written in one call. */
    method CarryOut(policy: Option<Policy>, output: seq<byte>, bare: bool)
      requires HasEntry() && !readAborted && Polled() && socket.sent + writeBuf == appended
      modifies this`minReadSize, this`maxReadSize, this`interest, this`writeBuf, this`appended
      ensures Policy(minReadSize, maxReadSize) ==
              if policy.Some? then policy.value else old(Policy(minReadSize, maxReadSize))
      ensures writeBuf == old(writeBuf) + output && appended == old(appended) + output
      ensures socket.sent + writeBuf == appended && Polled() && HasEntry() && Extends(old(interest), interest)
      ensures !bare && output == [] ==> interest.mask.write == old(interest.mask.write)
    {
      hide Extends;
      ghost var was := interest;
      ExtendsItself(was);
      if policy.Some? {
        RegisterExtends(interest, Read);
        ConfigureRead(policy.value);
      }
      ghost var now := interest;
      RegisterExtends(now, Write);
      ExtendsItself(now);
      Append(output, bare);
      ExtendsTwice(was, now, interest);
    }

    /** The branch for `offset_ >= max_read_size_`: nothing is read and nothing is removed from the buffer. */
    method ConsumeOverrun() returns (ok: bool)
      requires Valid() && HasEntry() && !readAborted && maxReadSize <= offset
      modifies this`state, this`minReadSize, this`maxReadSize, this`interest, this`writeBuf,
               this`appended, this`overrun, this`stuck, this`readAborted, this`rejected, readBuf
      ensures Valid() && overrun && readAborted == !ok
      ensures var o := layer.consume(old(state), old(readBuf[..maxReadSize]), []);
              && state == o.state && ok == (o.consumed > 0 || (o.consumed == 0 && old(maxReadSize) < maxReadSize))
              && stuck == (old(stuck) || (o.consumed == 0 && !ok)) && rejected == (o.consumed < 0)
              && Policy(minReadSize, maxReadSize) == PolicyAfter(o, old(Policy(minReadSize, maxReadSize)))
      ensures Passive(layer) ==> state == old(state)
      ensures HasEntry() && Extends(old(interest), interest)
      ensures ForOutput(NeverBare(layer), |old(appended)|, old(interest), |appended|, interest)
    {
      hide Valid, Sound, WellBehaved, Ships, NeverBare, Passive, PolicyAfter, Extends, ForOutput;
      NoReason();
      var oldMax := maxReadSize;
      var consumed := CallFull();
      ok := consumed > 0 || (consumed == 0 && oldMax < maxReadSize);
      stuck := consumed == 0 && !ok;
      readAborted, rejected := !ok, consumed < 0;
      PartsValid();
    }

    /** The call in that branch. */
    method CallFull() returns (consumed: int)
      requires Valid() && HasEntry() && !readAborted && maxReadSize <= offset
      modifies this`state, this`minReadSize, this`maxReadSize, this`interest, this`writeBuf,
               this`appended, this`overrun, readBuf
      ensures Parts() && overrun
      ensures var o := layer.consume(old(state), old(readBuf[..maxReadSize]), []);
              && state == o.state && consumed == o.consumed
              && Policy(minReadSize, maxReadSize) == PolicyAfter(o, old(Policy(minReadSize, maxReadSize)))
      ensures Passive(layer) ==> state == old(state)
      ensures HasEntry() && Extends(old(interest), interest)
      ensures ForOutput(NeverBare(layer), |old(appended)|, old(interest), |appended|, interest)
    {
      hide Valid, Sound, WellBehaved, Ships, NeverBare, Passive, PolicyAfter, Extends, ForOutput, Reasons;
      ValidParts();
      ghost var o;
      consumed, o := CallConsume(maxReadSize, []);
      overrun := true;
    }

    /** Removes the first `consumed` bytes from the buffer; `bytes` is what the layer was given. */
    method Discard(consumed: nat, ghost bytes: seq<byte>)
      requires consumed <= offset == |bytes| && offset <= readBuf.Length && deltaOffset <= offset
      requires forall j :: consumed <= j < offset ==> readBuf[j] == bytes[j]
      modifies this`eaten, this`offset, this`deltaOffset, readBuf
      ensures offset == old(offset) - consumed && deltaOffset <= offset
      ensures deltaOffset == if consumed > 0 then offset else old(deltaOffset)
      ensures readBuf[..offset] == bytes[consumed..] && eaten == old(eaten) + bytes[..consumed]
    {
      eaten := eaten + bytes[..consumed];
      assert readBuf[consumed..offset] == bytes[consumed..];
      if consumed > 0 {
        if consumed < offset {
          ShiftDown(consumed);
        }
        offset := offset - consumed;
        deltaOffset := offset;
      }
    }

    /** Hands `readBuf[..offset]` to the layer and removes what it consumed. */
    method ConsumeAvailable() returns (ok: bool, ghost o: Outcome<S>)
      requires Valid() && HasEntry() && !readAborted
      modifies this`state, this`minReadSize, this`maxReadSize, this`interest, this`writeBuf,
               this`appended, this`eaten, this`offset, this`deltaOffset, this`readAborted, this`rejected, readBuf
      ensures Valid() && readAborted == !ok == rejected
      ensures HasEntry() && Extends(old(interest), interest)
      ensures ForOutput(NeverBare(layer), |old(appended)|, old(interest), |appended|, interest)
      ensures o == layer.consume(old(state), old(readBuf[..offset]), old(readBuf[deltaOffset..offset]))
      ensures state == o.state && ok == (0 <= o.consumed)
      ensures Passive(layer) ==> state == old(state)
      ensures Policy(minReadSize, maxReadSize) == PolicyAfter(o, old(Policy(minReadSize, maxReadSize)))
      ensures |eaten| == |old(eaten)| + if ok then o.consumed else 0
      ensures ok ==> offset == old(offset) - o.consumed
      ensures deltaOffset == if o.consumed > 0 then offset else old(deltaOffset)
    {
      hide Valid, Sound, WellBehaved, Ships, NeverBare, Passive, PolicyAfter, Extends, ForOutput;
      NoReason();
      ok, o := CallAll();
      if !ok {
        readAborted, rejected := true, true;
      }
      PartsValid();
    }

    method CallAll() returns (ok: bool, ghost o: Outcome<S>)
      requires Valid() && HasEntry() && !readAborted
      modifies this`state, this`minReadSize, this`maxReadSize, this`interest, this`writeBuf,
               this`appended, this`eaten, this`offset, this`deltaOffset, readBuf
      ensures Parts() && (!overrun && !rejected && ok ==> eaten + readBuf[..offset] == socket.Received())
      ensures stuck ==> overrun
      ensures HasEntry() && Extends(old(interest), interest)
      ensures ForOutput(NeverBare(layer), |old(appended)|, old(interest), |appended|, interest)
      ensures o == layer.consume(old(state), old(readBuf[..offset]), old(readBuf[deltaOffset..offset]))
      ensures state == o.state && ok == (0 <= o.consumed)
      ensures Passive(layer) ==> state == old(state)
      ensures Policy(minReadSize, maxReadSize) == PolicyAfter(o, old(Policy(minReadSize, maxReadSize)))
      ensures |eaten| == |old(eaten)| + if ok then o.consumed else 0
      ensures ok ==> offset == old(offset) - o.consumed
      ensures deltaOffset == if o.consumed > 0 then offset else old(deltaOffset)
    {
      hide Valid, Sound, WellBehaved, Ships, NeverBare, Passive, PolicyAfter, Extends, ForOutput, Reasons;
      ValidParts();
      ghost var bytes := readBuf[..offset];
      var consumed;
      consumed, o := CallConsume(offset, readBuf[deltaOffset..offset]);
      ok := 0 <= consumed;
      if ok {
        Discard(consumed, bytes);
        CutAt(old(eaten), bytes, consumed);
      }
    }

    static lemma CutAt(eaten: seq<byte>, bytes: seq<byte>, n: nat)
      requires n <= |bytes|
      ensures (eaten + bytes[..n]) + bytes[n..] == eaten + bytes
    {}


    /** Appends what the socket delivers to `readBuf[..offset]`. */
    method Fill() returns (n: int, temporary: bool, ghost b: seq<byte>)
      requires Valid() && offset < maxReadSize <= readBuf.Length
      modifies this`offset, readBuf, socket`pos, socket`recvs
      ensures Sound() && -1 <= n && socket.recvs == old(socket.recvs).Next(n, temporary)
      ensures n > 0 ==> readBuf[..offset] == old(readBuf[..offset]) + b
      ensures n > 0 ==> socket.Received() == old(socket.Received()) + b
      ensures n <= 0 ==> socket.Received() == old(socket.Received())
      ensures offset == old(offset) + (if n > 0 then n else 0) <= maxReadSize
    {
      hide WellBehaved, Ships, Reasons;
      ghost var r, unread := socket.Received(), readBuf[..offset];
      n, temporary := socket.Read(readBuf, offset, maxReadSize);
      b := [];
      if n > 0 {
        b := socket.inbound[old(socket.pos)..socket.pos];
        offset := offset + n;
        assert readBuf[..offset] == unread + b;
        assert socket.Received() == r + b;
        Associative(eaten, unread, b);
      } else {
        assert readBuf[..offset] == unread;
      }
    }

    /** Shrinks or grows the buffer after the layer may have changed the thresholds. */
    method Refit()
      requires Valid()
      modifies this`readBuf
      ensures Valid() && (readBuf == old(readBuf) || fresh(readBuf))
      ensures offset < maxReadSize ==> readBuf.Length == maxReadSize
    {
      if readBuf.Length != maxReadSize && offset < maxReadSize {
        Resize(maxReadSize);
      }
    }

    /** One iteration of the read loop that reads from the socket. */
    method ReadOnce() returns (ok: bool, again: bool)
      requires Valid() && HasEntry() && !readAborted && offset < maxReadSize <= readBuf.Length
      modifies this, readBuf, socket`pos, socket`recvs
      ensures Passive(layer) ==> state == old(state)
      ensures callbacks == old(callbacks)
      ensures Valid() && (readBuf == old(readBuf) || fresh(readBuf)) && readAborted == !ok && (again ==> ok)
      ensures HasEntry() && Extends(old(interest), interest) && Aside() == old(Aside())
      ensures ForOutput(NeverBare(layer), |old(appended)|, old(interest), |appended|, interest)
      ensures old(InSync()) && Refines(layer, view, spec) ==> InSync()
      ensures overrun == old(overrun) && stuck == old(stuck) && faulted == old(faulted)
      ensures socket.recvs.count == old(socket.recvs.count) + 1 && (ok && !again ==> socket.recvs.dry)
      ensures ok && offset < maxReadSize ==> maxReadSize <= readBuf.Length
      ensures ok && !again ==> maxReadSize == old(maxReadSize)
    {
      hide WellBehaved, Ships, NeverBare, Passive, Refines, PolicyAfter;
      ghost var r, policy := socket.Received(), Policy(minReadSize, maxReadSize);
      ghost var synced := InSync() && Refines(layer, view, spec);
      var n, temporary, b := Fill();
      if n <= 0 {
        ok := n < 0 && temporary;
        readAborted := !ok;
        return ok, false;
      }
      ok := Proceed(r, b, policy, synced);
      again := ok;
    }

    /** What follows a successful read: waiting for more, or a call and fitting the buffer to the new thresholds. */
    method Proceed(ghost r: seq<byte>, ghost b: seq<byte>, ghost policy: Policy, ghost synced: bool) returns (ok: bool)
      requires Valid() && HasEntry() && !readAborted && socket.Received() == r + b
      requires offset <= maxReadSize <= readBuf.Length
      requires policy == Policy(minReadSize, maxReadSize)
      requires synced ==>
                 && !overrun && Refines(layer, view, spec) && |r| + |b| - |eaten| <= maxReadSize
                 && StandsAt(spec, r, view(state), |eaten|, policy, false)
      modifies this, readBuf
      ensures Passive(layer) ==> state == old(state)
      ensures callbacks == old(callbacks)
      ensures Valid() && (readBuf == old(readBuf) || fresh(readBuf)) && readAborted == !ok
      ensures HasEntry() && Extends(old(interest), interest) && Aside() == old(Aside())
      ensures ForOutput(NeverBare(layer), |old(appended)|, old(interest), |appended|, interest)
      ensures synced ==> InSync()
      ensures overrun == old(overrun) && stuck == old(stuck) && faulted == old(faulted)
      ensures socket.recvs == old(socket.recvs)
      ensures ok && offset < maxReadSize ==> maxReadSize <= readBuf.Length
    {
      hide Valid, Sound, WellBehaved, Ships, NeverBare, Passive, Refines, PolicyAfter, Extends, ForOutput, Reasons;
      ValidParts();
      ExtendsItself(interest);
      ForOutputItself(NeverBare(layer), |appended|, interest);
      NoReason();
      hide StandsAt;
      if synced {
        NextStand(r, b);
      }
      if offset < minReadSize {
        return true;
      }
      ghost var o;
      ok, o := ConsumeAvailable();
      if ok {
        Refit();
      }
    }

    /** Where the layer stands after the bytes `b`, with the call that they lead to. */
    lemma NextStand(r: seq<byte>, b: seq<byte>)
      requires Valid() && !readAborted && !overrun && socket.Received() == r + b
      requires deltaOffset <= offset <= readBuf.Length
      requires Refines(layer, view, spec) && |r| + |b| - |eaten| <= maxReadSize
      requires StandsAt(spec, r, view(state), |eaten|, Policy(minReadSize, maxReadSize), false)
      ensures if offset < minReadSize then
                StandsAt(spec, r + b, view(state), |eaten|, Policy(minReadSize, maxReadSize), false)
              else
                var o := layer.consume(state, readBuf[..offset], readBuf[deltaOffset..offset]);
                StandsAt(spec, r + b, view(o.state), if o.consumed < 0 then |eaten| else |eaten| + o.consumed,
                         PolicyAfter(o, Policy(minReadSize, maxReadSize)), o.consumed < 0)
    {
      hide WellBehaved, Ships, Refines, StandsAt, PolicyAfter;
      Unconsumed(r + b);
      StandsNext(layer, view, spec, r, b, readBuf[deltaOffset..offset], state, |eaten|,
                 Policy(minReadSize, maxReadSize));
    }

    /** What the buffer holds of the bytes received. */
    lemma Unconsumed(all: seq<byte>)
      requires Valid() && !readAborted && !overrun && socket.Received() == all
      ensures |eaten| <= |all| && all[|eaten|..] == readBuf[..offset] && |all| - |eaten| == offset
    {
      hide WellBehaved, Ships;
      assert eaten + readBuf[..offset] == all;
    }

    /** `handle_read_event`: whether to go on polling for input. */
    method HandleReadEvent() returns (keep: bool)
      requires Valid() && HasEntry() && !readAborted && !faulted
      modifies this, readBuf, socket`pos, socket`recvs
      ensures Passive(layer) ==> state == old(state)
      ensures callbacks == old(callbacks)
      ensures Valid() && (readBuf == old(readBuf) || fresh(readBuf))
      ensures HasEntry() && Extends(old(interest), interest) && Aside() == old(Aside())
      ensures ForOutput(NeverBare(layer), |old(appended)|, old(interest), |appended|, interest)
      ensures old(InSync()) && Refines(layer, view, spec) ==> InSync() && !faulted && (!readAborted ==> keep)
      ensures !readAborted && !faulted ==> keep == (maxReadSize > 0)
      ensures readAborted || faulted ==> !keep
      ensures !writeAborted && writeBuf != [] ==> interest.mask.write
      ensures old(InSync()) && Refines(layer, view, spec) ==>
                && socket.recvs.count <= old(socket.recvs.count) + maxConsecutiveReads
                && (maxConsecutiveReads > 0 ==> socket.recvs.count > old(socket.recvs.count))
                && (!readAborted ==>
                      socket.recvs.dry || socket.recvs.count == old(socket.recvs.count) + maxConsecutiveReads)
    {
      hide WellBehaved, Ships, NeverBare, Passive, Refines, Extends, ForOutput, Reasons;
      NoReason();
      ghost var was, synced := interest, InSync() && Refines(layer, view, spec);
      ExtendsItself(was);
      ForOutputItself(NeverBare(layer), |appended|, was);
      if readBuf.Length < maxReadSize {
        Resize(maxReadSize);
      }
      hide StandsAt;
      var i := 0;
      while maxReadSize > 0 && i < maxConsecutiveReads
        invariant Valid() && HasEntry() && !readAborted && !faulted && (readBuf == old(readBuf) || fresh(readBuf))
        invariant Extends(was, interest) && Aside() == old(Aside()) && callbacks == old(callbacks)
        invariant i <= maxConsecutiveReads && (Passive(layer) ==> state == old(state))
        invariant ForOutput(NeverBare(layer), |old(appended)|, was, |appended|, interest)
        invariant synced ==> InSync() && maxReadSize > 0 && socket.recvs.count == old(socket.recvs.count) + i
        invariant offset < maxReadSize && !overrun ==> maxReadSize <= readBuf.Length
        decreases maxConsecutiveReads - i
      {
        i := i + 1;
        ghost var now, size := interest, |appended|;
        var ok, again := ReadRound();
        ExtendsTwice(was, now, interest);
        ForOutputTwice(NeverBare(layer), |old(appended)|, was, size, now, |appended|, interest);
        if !again {
          return ok;
        }
      }
      return maxReadSize > 0;
    }

    /** One iteration of the read loop; without `again` the loop ends and returns `ok`. */
    method ReadRound() returns (ok: bool, again: bool)
      requires Valid() && HasEntry() && !readAborted && !faulted && maxReadSize > 0
      requires offset < maxReadSize && !overrun ==> maxReadSize <= readBuf.Length
      modifies this, readBuf, socket`pos, socket`recvs
      ensures Passive(layer) ==> state == old(state)
      ensures callbacks == old(callbacks)
      ensures Valid() && (readBuf == old(readBuf) || fresh(readBuf))
      ensures HasEntry() && Extends(old(interest), interest) && Aside() == old(Aside())
      ensures ForOutput(NeverBare(layer), |old(appended)|, old(interest), |appended|, interest)
      ensures old(InSync()) && Refines(layer, view, spec) ==> InSync() && !faulted && (ok ==> maxReadSize > 0)
      ensures ok == (!readAborted && !faulted) && (again ==> ok)
      ensures ok && offset < maxReadSize && !overrun ==> maxReadSize <= readBuf.Length
      ensures ok && !again ==> maxReadSize > 0 && socket.recvs.dry
      ensures old(InSync()) && Refines(layer, view, spec) ==> socket.recvs.count == old(socket.recvs.count) + 1
    {
      hide WellBehaved, Ships, NeverBare, Passive, Refines;
      if maxReadSize <= offset {
        ok := ConsumeOverrun();
        again := ok;
      } else if readBuf.Length < maxReadSize {
        ExtendsItself(interest);
        faulted := true;
        ok, again := false, false;
      } else {
        ok, again := ReadOnce();
      }
    }

    /** Sends a prefix of the output buffer and erases it from the front; `fail` if that is not possible. */
    method Flush() returns (written: int, temporary: bool)
      requires Valid() && writeBuf != []
      modifies this`writeBuf, this`writeAborted, socket`sent, socket`sends
      ensures Valid() && (InSync() <==> old(InSync())) && socket.sends == old(socket.sends).Next(written, temporary)
      ensures writeAborted == (old(writeAborted) || written == 0 || (written < 0 && !temporary))
      ensures written <= 0 ==> writeBuf == old(writeBuf)
      ensures written > 0 ==> |writeBuf| == |old(writeBuf)| - written
    {
      hide WellBehaved, Ships, NeverBare, Passive, StandsAt;
      written, temporary := Send();
      writeAborted := writeAborted || written == 0 || (written < 0 && !temporary);
    }

    /** Hands the output buffer to the socket, which takes a part of it from the front. */
    method Send() returns (written: int, temporary: bool)
      requires Sound() && writeBuf != []
      modifies this`writeBuf, socket`sent, socket`sends
      ensures Sound() && (InSync() <==> old(InSync())) && socket.sends == old(socket.sends).Next(written, temporary)
      ensures written <= |old(writeBuf)|
      ensures writeBuf == if written > 0 then old(writeBuf)[written..] else old(writeBuf)
    {
      hide WellBehaved, Ships, NeverBare, Passive, StandsAt;
      written, temporary := socket.Write(writeBuf);
      if written > 0 {
        assert writeBuf[..written] + writeBuf[written..] == writeBuf;
        writeBuf := writeBuf[written..];
      }
    }

    /** `prepare_send` has failed. */
    method FailPrepare()
      requires Valid()
      modifies this`unprepared, this`writeAborted
      ensures Valid() && (InSync() <==> old(InSync())) && writeAborted && unprepared
    {
      hide WellBehaved, Ships, NeverBare, Passive, StandsAt;
      unprepared, writeAborted := true, true;
    }

    /** Lets the layer add to the output. */
    method PrepareSend() returns (ok: bool)
      requires Valid() && HasEntry()
      modifies this`state, this`writeBuf, this`interest, this`appended
      ensures HasEntry() && Extends(old(interest), interest)
      ensures interest == old(interest) || interest == old(interest).Register(Write)
      ensures Valid() && ok == layer.prepareSend(old(state)).ok && state == layer.prepareSend(old(state)).state
      ensures old(InSync()) && SendsAside(layer, view) ==> InSync()
      ensures appended == old(appended) + layer.prepareSend(old(state)).output
      ensures writeBuf == old(writeBuf) + layer.prepareSend(old(state)).output
    {
      hide WellBehaved, Ships, Reasons;
      assert SendsAside(layer, view) ==> view(layer.prepareSend(state).state) == view(state);
      hide SendsAside, StandsAt;
      var prepared := layer.prepareSend(state);
      SendAccounts(layer, shipped, state, opening, appended);
      state := prepared.state;
      Append(prepared.output, prepared.bare);
      ok := prepared.ok;
    }

    /** `handle_write_event`: whether to go on polling for output. */
    method HandleWriteEvent() returns (keep: bool)
      requires Valid() && HasEntry()
      modifies this`state, this`writeBuf, this`interest, this`appended, this`writeAborted, this`unprepared,
               socket`sent, socket`sends
      ensures unprepared == (old(unprepared) || !layer.prepareSend(old(state)).ok)
      ensures socket.sends.count == old(socket.sends.count) +
              if layer.prepareSend(old(state)).ok && old(writeBuf) + layer.prepareSend(old(state)).output != [] then 1
                  else 0
      ensures Valid() && HasEntry() && Extends(old(interest), interest)
      ensures interest == old(interest) || interest == old(interest).Register(Write)
      ensures old(writeAborted) ==> writeAborted
      ensures writeAborted && !old(writeAborted) ==> !keep
      ensures !writeAborted ==> keep == (writeBuf != [] || !layer.doneSending(state))
      ensures keep ==> writeBuf != [] || !layer.doneSending(state)
      ensures state == layer.prepareSend(old(state)).state
      ensures appended == old(appended) + layer.prepareSend(old(state)).output
      ensures |writeBuf| <= |old(writeBuf)| + |layer.prepareSend(old(state)).output|
      ensures writeAborted && !old(writeAborted) ==> writeBuf == old(writeBuf) + layer.prepareSend(old(state)).output
      ensures old(InSync()) && SendsAside(layer, view) ==> InSync()
    {
      hide Valid, InSync, SendsAside, Extends;
      var ok := PrepareSend();
      if !ok {
        FailPrepare();
        return false;
      }
      if writeBuf == [] {
        return !layer.doneSending(state);
      }
      var written, temporary := Flush();
      if written > 0 {
        return writeBuf != [] || !layer.doneSending(state);
      }
      keep := written < 0 && temporary;
    }

    /** `handle` for this manager, and storing the events it returns: each callback is called if its event is reported
        and has been polled for, and its polling ends if it returns false. */
    method HandleEvents(ready: Ready) returns (ghost onRead: Callback, ghost onWrite: Callback)
      requires Valid() && Consistent() && !faulted
      modifies this, readBuf, socket`pos, socket`recvs, socket`sent, socket`sends
      ensures Valid() && (readBuf == old(readBuf) || fresh(readBuf))
      ensures !faulted ==> Consistent()
      ensures history == old(history) + [Poll(ready)]
      ensures var revents := Visible(ready, old(interest.polled));
              && callbacks == old(callbacks) + (if revents.input then [Read] else [])
                              + (if revents.output && !faulted then [Write] else [])
              && errored == (old(errored) || (!old(interest.polled.None()) && OnlyError(revents)))
              && (revents.input && old(InSync()) && Refines(layer, view, spec) && maxConsecutiveReads > 0 ==>
                    socket.recvs.count > old(socket.recvs.count))
      ensures old(InSync()) && Refines(layer, view, spec) ==>
                (old(interest.polled.write) ==> SendsAside(layer, view)) ==>
                InSync() && !faulted && (old(!Stranded()) && Stranded() ==> readAborted)
      ensures old(interest.polled.None()) ==>
                interest == old(interest) && writeBuf == old(writeBuf) && appended == old(appended)
      ensures (old(readAborted) ==> readAborted) && (old(writeAborted) ==> writeAborted)
      ensures old(!interest.polled.read) ==> socket.pos == old(socket.pos) && rejected == old(rejected)
      ensures NeverBare(layer) && !old(interest.mask.write) && |appended| == |old(appended)| ==> !interest.mask.write
      ensures !old(interest.polled.write) ==> |old(appended)| <= |appended|
      ensures readAborted && !old(readAborted) && !writeAborted && writeBuf != [] ==>
                (Stranded() <==> !old(interest.polled.write))
      ensures old(interest.polled.write) && !writeAborted && !interest.polled.write ==>
                writeBuf == [] && layer.doneSending(state)
      ensures !old(interest.polled.write) && !old(writeAborted) && writeAborted ==>
                rejected == old(rejected) && interest.polled.None()
      ensures old(!interest.polled.write) ==> socket.sent == old(socket.sent)
      ensures !old(interest.polled.write) && readAborted ==> interest.polled.None()
      ensures !faulted && Passive(layer) && old(SendsOn()) ==> SendsOn()
      ensures !faulted && !old(interest.polled.None()) ==>
                interest == old(interest).Round(Visible(ready, old(interest.polled)), onRead, onWrite)
    {
      hide Valid, InSync, Refines, SendsAside, Passive, NeverBare, Interest.Round;
      onRead, onWrite := Callback([], true), Callback([], true);
      Note(Poll(ready));
      if !interest.polled.None() {
        onRead, onWrite := HandleEntry(Visible(ready, interest.polled));
      }
    }

    /** The same for a manager that has an entry, with the events that `poll` reports for it. */
    method HandleEntry(revents: Ready) returns (ghost onRead: Callback, ghost onWrite: Callback)
      requires Valid() && Consistent() && !faulted && !interest.polled.None()
      requires (revents.input ==> interest.polled.read) && (revents.output ==> interest.polled.write)
      modifies this, readBuf, socket`pos, socket`recvs, socket`sent, socket`sends
      ensures Valid() && (readBuf == old(readBuf) || fresh(readBuf))
      ensures !faulted ==> Consistent()
      ensures history == old(history)
      ensures callbacks == old(callbacks) + (if revents.input then [Read] else [])
                              + (if revents.output && !faulted then [Write] else [])
      ensures errored == (old(errored) || OnlyError(revents))
      ensures (revents.input && old(InSync()) && Refines(layer, view, spec) && maxConsecutiveReads > 0 ==>
                    socket.recvs.count > old(socket.recvs.count))
      ensures old(InSync()) && Refines(layer, view, spec) ==>
                (old(interest.polled.write) ==> SendsAside(layer, view)) ==>
                InSync() && !faulted && (old(!Stranded()) && Stranded() ==> readAborted)
      ensures (old(readAborted) ==> readAborted) && (old(writeAborted) ==> writeAborted)
      ensures old(!interest.polled.read) ==> socket.pos == old(socket.pos) && rejected == old(rejected)
      ensures NeverBare(layer) && !old(interest.mask.write) && |appended| == |old(appended)| ==> !interest.mask.write
      ensures !old(interest.polled.write) ==> |old(appended)| <= |appended|
      ensures readAborted && !old(readAborted) && !writeAborted && writeBuf != [] ==>
                (Stranded() <==> !old(interest.polled.write))
      ensures old(interest.polled.write) && !writeAborted && !interest.polled.write ==>
                writeBuf == [] && layer.doneSending(state)
      ensures !old(interest.polled.write) && !old(writeAborted) && writeAborted ==>
                rejected == old(rejected) && interest.polled.None()
      ensures old(!interest.polled.write) ==> socket.sent == old(socket.sent)
      ensures !old(interest.polled.write) && readAborted ==> interest.polled.None()
      ensures !faulted && Passive(layer) && old(SendsOn()) ==> SendsOn()
      ensures !faulted ==> interest == old(interest).Round(revents, onRead, onWrite)
    {
      hide Valid, InSync, Refines, SendsAside, Passive, NeverBare, Interest.Call, Interest.Round, Extends;
      onRead, onWrite := Callback([], true), Callback([], true);
      var before := interest.polled;
      ghost var t0 := interest;
      if OnlyError(revents) {
        RoundForm(t0, t0, t0, revents, onRead, onWrite);
        ErrorCallback();
        StoreEvents(before, NOTHING);
        return;
      }
      var events := before;
      if revents.input {
        var keep;
        keep, onRead := ReadCallback();
        events := if keep then events else events.Without(Read);
      }
      ghost var t1 := interest;
      if revents.output && !faulted {
        var keep;
        keep, onWrite := WriteCallback();
        events := if keep then events else events.Without(Write);
      }
      RoundForm(t0, t1, interest, revents, onRead, onWrite);
      StoreEvents(before, events);
    }

    ghost method Note(e: Event)
      requires Valid()
      modifies this`history
      ensures Valid() && (InSync() <==> old(InSync())) && history == old(history) + [e]
    {
      hide WellBehaved, Ships, StandsAt, Reasons;
      history := history + [e];
    }

    /** `handle_error` and `mask_del`. */
    method ErrorCallback()
      requires Valid()
      modifies this`readAborted, this`writeAborted, this`interest, this`errored
      ensures Valid() && readAborted && writeAborted && errored && interest == old(interest).(mask := NOTHING)
      ensures old(InSync()) ==> InSync()
    {
      hide WellBehaved, Ships, NeverBare, Passive, StandsAt;
      readAborted, writeAborted, errored := true, true, true;
      interest := interest.(mask := NOTHING);
    }

    /** What the scan does with the events that `handle` returns. */
    method StoreEvents(before: Ops, events: Ops)
      requires Valid()
      modifies this`interest
      ensures Valid() && interest == if events == before then old(interest) else old(interest).(polled := events)
      ensures old(InSync()) ==> InSync()
    {
      hide WellBehaved, Ships, NeverBare, Passive, StandsAt, Reasons;
      if events != before {
        interest := interest.(polled := events);
      }
    }

    /** The read callback and, if it returns false, `mask_del`. */
    method ReadCallback() returns (keep: bool, ghost r: Callback)
      requires Valid() && HasEntry() && interest.mask.read && !readAborted && !faulted
      modifies this, readBuf, socket`pos, socket`recvs
      ensures Passive(layer) ==> state == old(state)
      ensures Valid() && (readBuf == old(readBuf) || fresh(readBuf)) && Aside() == old(Aside())
      ensures callbacks == old(callbacks) + [Read]
      ensures old(InSync()) && Refines(layer, view, spec) && maxConsecutiveReads > 0 ==>
                socket.recvs.count > old(socket.recvs.count)
      ensures old(InSync()) && Refines(layer, view, spec) ==> InSync() && !faulted && (!readAborted ==> keep)
      ensures readAborted ==> !keep
      ensures !writeAborted && writeBuf != [] ==> interest.mask.write
      ensures interest == old(interest).Call(Read, r) && r.keep == keep == interest.mask.read
      ensures Extends(old(interest), interest.(mask := interest.mask.With(Read)))
      ensures old(interest.polled) == old(interest.mask) ==> interest.polled == interest.mask.With(Read)
      ensures old(interest.mask.write) ==> interest.mask.write
      ensures ForOutput(NeverBare(layer), |old(appended)|, old(interest), |appended|, interest)
    {
      hide Valid, InSync, NeverBare, Passive, Refines;
      NoteCall(Read);
      keep := HandleReadEvent();
      r := Callback(NewOps(old(interest).mask, interest.mask), keep);
      NewOpsAgain(old(interest), interest);
      hide Extends, NewOps;
      if !keep {
        CutRead();
      }
    }

    /** The write callback and, if it returns false, `mask_del`. */
    method WriteCallback() returns (keep: bool, ghost r: Callback)
      requires Valid() && HasEntry() && interest.mask.write
      modifies this`state, this`writeBuf, this`interest, this`appended, this`writeAborted, this`unprepared,
               this`callbacks, socket`sent, socket`sends
      ensures callbacks == old(callbacks) + [Write]
      ensures state == layer.prepareSend(old(state)).state
      ensures appended == old(appended) + layer.prepareSend(old(state)).output
      ensures Valid() && (old(InSync()) && SendsAside(layer, view) ==> InSync())
      ensures interest == old(interest).Call(Write, r) && r.keep == keep
      ensures !keep && !writeAborted ==> writeBuf == [] && layer.doneSending(state)
      ensures old(writeAborted) ==> writeAborted
      ensures interest == if keep then old(interest) else old(interest).(mask := old(interest).mask.Without(Write))
    {
      hide Valid, InSync, SendsAside;
      NoteCall(Write);
      keep := HandleWriteEvent();
      r := Callback([], keep);
      if !keep {
        CutWrite();
      }
    }

    ghost method NoteCall(op: Op)
      requires Valid()
      modifies this`callbacks
      ensures Valid() && (InSync() <==> old(InSync())) && callbacks == old(callbacks) + [op]
    {
      hide WellBehaved, Ships, StandsAt, Reasons;
      callbacks := callbacks + [op];
    }

    /** `mask_del` after a read callback that has returned false. */
    method CutRead()
      requires Valid() && (readAborted || faulted || maxReadSize == 0)
      modifies this`interest
      ensures Valid() && (InSync() <==> old(InSync()))
      ensures interest == old(interest).(mask := old(interest).mask.Without(Read))
    {
      hide WellBehaved, Ships, StandsAt, Reasons;
      interest := interest.(mask := interest.mask.Without(Read));
    }

    /** `mask_del` after a write callback that has returned false. */
    method CutWrite()
      requires Valid() && (writeAborted || writeBuf == [])
      modifies this`interest
      ensures Valid() && (InSync() <==> old(InSync()))
      ensures interest == old(interest).(mask := old(interest).mask.Without(Write))
    {
      hide WellBehaved, Ships, StandsAt, Reasons;
      interest := interest.(mask := interest.mask.Without(Write));
    }

    /** A record of another thread that registers the manager for writing. */
    method Wake()
      requires Valid() && Consistent()
      modifies this`interest, this`history
      ensures history == old(history) + [Event.Wake]
      ensures Valid() && Consistent() && (InSync() <==> old(InSync())) && (Stranded() <==> old(Stranded()))
      ensures interest == old(interest).Register(Write) && (!Stranded() ==> interest.polled.write)
      ensures interest.mask.read == old(interest.mask.read)
    {
      hide WellBehaved, Ships, StandsAt, Reasons;
      interest, history := interest.Register(Write), history + [Event.Wake];
    }

    /** Any sequence of polls and wake-ups, with any events reported and any behaviour of the socket. What is left to
        be sent or read is polled for until that direction fails; only if reading fails in the very event in which
        output is begun, the output is stranded. */
    method Run(events: seq<Event>)
      requires Valid() && Consistent() && !faulted && InSync() && Refines(layer, view, spec) && SendsAside(layer, view)
      requires Stranded() ==> readAborted
      modifies this, readBuf, socket`pos, socket`recvs, socket`sent, socket`sends
      ensures Valid() && Consistent() && InSync() && !faulted && (Stranded() ==> readAborted)
      ensures history == old(history) + events && (errored ==> old(errored) || Erring(events, |events|))
      ensures !readAborted ==> interest.polled.read && maxReadSize > 0
      ensures !socket.recvs.failed && !rejected && !errored ==> interest.polled.read
      ensures !writeAborted && writeBuf != [] && !Stranded() ==> interest.polled.write
      ensures Passive(layer) && old(SendsOn()) ==> SendsOn()
      ensures old(Stranded()) ==> Stranded() && socket.sent == old(socket.sent) && writeBuf == old(writeBuf)
      ensures old(readAborted) ==> readAborted && socket.pos == old(socket.pos)
      ensures NeverDone(layer) && (old(interest.polled.write) || (old(!Stranded()) && Woken(events, |events|))) ==>
                writeAborted || interest.polled.write
    {
      hide Valid, InSync, Refines, SendsAside, Passive, NeverDone;
      SocketValid();
      for i := 0 to |events|
        invariant Valid() && socket.Valid() && Consistent() && InSync() && !faulted
        invariant readBuf == old(readBuf) || fresh(readBuf)
        invariant Stranded() ==> readAborted
        invariant Passive(layer) && old(SendsOn()) ==> SendsOn()
        invariant old(Stranded()) ==> Stranded() && socket.sent == old(socket.sent) && writeBuf == old(writeBuf)
        invariant old(readAborted) ==> readAborted && socket.pos == old(socket.pos)
        invariant history == old(history) + events[..i] && (errored ==> old(errored) || Erring(events, i))
        invariant i == 0 ==> interest == old(interest)
        invariant NeverDone(layer) && (old(interest.polled.write) || (old(!Stranded()) && Woken(events, i))) ==>
                    writeAborted || interest.polled.write
      {
        match events[i]
        case Wake => Wake();
        case Poll(ready) => var _, _ := HandleEvents(ready);
        SocketValid();
        NeverDoneNow(layer, state);
      }
      KeepsPolling();
    }

    /** What is polled for between two events. */
    lemma KeepsPolling()
      requires Valid() && Consistent() && InSync() && !faulted && (Stranded() ==> readAborted)
      ensures !readAborted ==> interest.polled.read && maxReadSize > 0
      ensures !socket.recvs.failed && !rejected && !errored ==> interest.polled.read
      ensures !writeAborted && writeBuf != [] && !Stranded() ==> interest.polled.write
    {
      hide WellBehaved, Ships;
    }

    /** What a layer writes in the read event in which it rejects its input is never sent if nothing has been registered
        for writing before: the multiplexer removes the manager together with the registration just made. Here the
        stream is one on which the layer has written nothing as long as it has not rejected it, and no other thread
        registers the manager. */
    method RunUnsent(events: seq<Event>, ghost quiet: V -> bool)
      requires Valid() && Consistent() && !faulted && InSync() && Refines(layer, view, spec)
      requires !interest.mask.write && !rejected && opening == [] && socket.sent == [] && !writeAborted
      requires NeverBare(layer) && Ships(layer, shipped) && forall s :: quiet(view(s)) ==> shipped(s) == []
      requires forall k: nat :: k <= |socket.inbound| && !spec(socket.inbound[..k]).failed ==>
                 quiet(spec(socket.inbound[..k]).state)
      requires forall e :: e in events ==> e.Poll?
      modifies this, readBuf, socket`pos, socket`recvs, socket`sent, socket`sends
      ensures Valid() && Consistent() && InSync() && !faulted
      ensures socket.sent == [] && writeBuf == shipped(state) && !interest.polled.write
      ensures if writeBuf == [] then !interest.mask.write else rejected && Stranded()
    {
      hide WellBehaved, Ships, Refines, SendsAside, Passive, NeverBare;
      QuietSoFar(quiet);
      for i := 0 to |events|
        invariant Valid() && Consistent() && InSync() && !faulted && (readBuf == old(readBuf) || fresh(readBuf))
        invariant socket.sent == [] && (!rejected ==> appended == []) && Unsent()
      {
        assert events[i] in events;
        var _, _ := HandleEvents(events[i].ready);
        QuietSoFar(quiet);
      }
      assert [] + writeBuf == writeBuf;
    }

    lemma QuietSoFar(quiet: V -> bool)
      requires Valid() && InSync() && opening == [] && Ships(layer, shipped)
      requires forall s :: quiet(view(s)) ==> shipped(s) == []
      requires forall k: nat :: k <= |socket.inbound| && !spec(socket.inbound[..k]).failed ==>
                 quiet(spec(socket.inbound[..k]).state)
      ensures appended == shipped(state) && (!rejected ==> appended == [])
    {
      hide WellBehaved, Ships;
      assert [] + shipped(state) == shipped(state);
      assert socket.Received() == socket.inbound[..socket.pos];
    }

    ghost predicate Unsent()
      reads this
    {
      && !interest.polled.write
      && (if appended == [] then !interest.mask.write else rejected && Stranded())
      && ((rejected || writeAborted) ==> interest.polled.None())
    }
  }

  /** A layer that always has something left to send, and so never ends the polling for output. */
  ghost predicate NeverDone<S(!new)>(layer: Layer<S>) {
    forall s :: !layer.doneSending(s)
  }

  lemma NeverDoneNow<S(!new)>(layer: Layer<S>, s: S)
    ensures NeverDone(layer) ==> !layer.doneSending(s)
  {}

  /** The first of the events, which is among the first `n`, is a wake-up by another thread. */
  predicate Woken(events: seq<Event>, n: nat) {
    0 < n && events != [] && events[0].Wake?
  }

  /** Whether `poll` reports an error among the first `n` events. */
  predicate Erring(events: seq<Event>, n: nat) {
    exists k :: 0 <= k < n && k < |events| && events[k].Poll? && events[k].ready.error
  }

  /** A layer that ignores its input. */
  ghost predicate Passive<S(!new)>(layer: Layer<S>) {
    forall s, bytes, delta :: layer.consume(s, bytes, delta).state == s
  }

  lemma PassiveStays<S(!new)>(layer: Layer<S>, s: S, bytes: seq<byte>, delta: seq<byte>)
    ensures Passive(layer) ==> layer.consume(s, bytes, delta).state == s
  {}

  predicate Reasons(aborted: bool, socketFailed: bool, gaveUp: bool, errored: bool) {
    aborted <==> socketFailed || gaveUp || errored
  }

  /** A layer that begins output only to append something. */
  ghost predicate NeverBare<S(!new)>(layer: Layer<S>) {
    forall s, bytes, delta :: !layer.consume(s, bytes, delta).bare
  }

  lemma NeverBareStays<S(!new)>(layer: Layer<S>, s: S, bytes: seq<byte>, delta: seq<byte>)
    ensures NeverBare(layer) ==> !layer.consume(s, bytes, delta).bare
  {}

  /** From `before` to `after` bytes of output in all: without new output of a plain layer nothing is registered for
      writing. */
  predicate ForOutput(plain: bool, before: nat, was: Interest, after: nat, now: Interest) {
    before <= after && (plain && before == after ==> now.mask.write == was.mask.write)
  }

  lemma ForOutputItself(plain: bool, size: nat, a: Interest)
    ensures ForOutput(plain, size, a, size, a)
  {}

  lemma ForOutputTwice(plain: bool, first: nat, a: Interest, second: nat, b: Interest, third: nat, c: Interest)
    requires ForOutput(plain, first, a, second, b) && ForOutput(plain, second, b, third, c)
    ensures ForOutput(plain, first, a, third, c)
  {}

  /** Registrations of a manager that has an entry. */
  predicate Extends(a: Interest, b: Interest) {
    && a.mask.Within(b.mask)
    && b.polled.read == (a.polled.read || (b.mask.read && !a.mask.read))
    && b.polled.write == (a.polled.write || (b.mask.write && !a.mask.write))
  }

  function NewOps(a: Ops, b: Ops): seq<Op> {
    (if b.read && !a.read then [Read] else []) + (if b.write && !a.write then [Write] else [])
  }

  lemma NewOpsAgain(a: Interest, b: Interest)
    requires !a.mask.None() && !a.polled.None() && Extends(a, b)
    ensures a.RegisterAll(NewOps(a.mask, b.mask)) == b
  {
    assert [Read, Write][1..] == [Write] && [Write][1..] == [] && [Read][1..] == [];
  }

  lemma ExtendsItself(a: Interest)
    ensures Extends(a, a)
  {}

  lemma RegisterExtends(a: Interest, op: Op)
    requires !a.mask.None() && !a.polled.None()
    ensures Extends(a, a.Register(op)) && !a.Register(op).mask.None() && !a.Register(op).polled.None()
  {}

  lemma ExtendsTwice(a: Interest, b: Interest, c: Interest)
    requires Extends(a, b) && Extends(b, c)
    ensures Extends(a, c)
  {}

  /** What `Round` says, from what the callbacks have left. */
  lemma RoundForm(t0: Interest, t1: Interest, t2: Interest, revents: Ready, onRead: Callback, onWrite: Callback)
    ensures t1 == (if revents.input then t0.Call(Read, onRead) else t0)
            && t2 == (if revents.output then t1.Call(Write, onWrite) else t1) ==>
              var cut := if revents.input && !onRead.keep then t0.polled.Without(Read) else t0.polled;
              var more := if revents.output && !onWrite.keep then cut.Without(Write) else cut;
              var events := if OnlyError(revents) then NOTHING else more;
              var t3 := if OnlyError(revents) then t2.(mask := NOTHING) else t2;
              t0.Round(revents, onRead, onWrite) == if events == t0.polled then t3 else t3.(polled := events)
  {
    hide Interest.Call;
  }

  predicate OnlyError(revents: Ready) {
    revents.error && !revents.input && !revents.output
  }

  /** What `poll` reports of `ready` for an entry: only what it polls for, and errors. */
  function Visible(ready: Ready, polled: Ops): Ready {
    Ready(ready.input && polled.read, ready.output && polled.write, ready.error)
  }

  /** A transport for a new connection on which `inbound` arrives, after any run of events. */
  method RunConnection<S(!new), V>(layer: Layer<S>, ghost view: S -> V, ghost spec: seq<byte> -> Progress<V>,
                                   ghost shipped: S -> seq<byte>, state: S, policy: Policy, opening: seq<byte>,
                                   inbound: seq<byte>, maxReads: nat, events: seq<Event>)
    returns (t: Transport<S, V>)
    requires WellBehaved(layer) && Refines(layer, view, spec) && SendsAside(layer, view) && shipped(state) == []
    requires policy.maxSize > 0 && policy.minSize <= policy.maxSize
    requires spec([]) == Progress(view(state), 0, policy, false)
    ensures fresh(t) && t.Valid() && t.socket.inbound == inbound && !t.overrun && !t.faulted
    ensures StandsAt(spec, t.socket.Received(), view(t.state), |t.eaten|, Policy(t.minReadSize, t.maxReadSize),
                     t.rejected)
    ensures !t.rejected ==> t.eaten + t.readBuf[..t.offset] == t.socket.Received()
    ensures t.socket.sent + t.writeBuf == t.appended
    ensures Ships(layer, shipped) ==> t.appended == opening + shipped(t.state)
    ensures t.Consistent() && (t.Stranded() ==> t.readAborted) && (!t.readAborted ==> t.interest.polled.read)
    ensures t.history == events && (t.errored ==> Erring(events, |events|))
    ensures !t.socket.recvs.failed && !t.rejected && !t.errored ==> t.interest.polled.read
    ensures !t.writeAborted && t.writeBuf != [] && !t.Stranded() ==> t.interest.polled.write
    ensures NeverDone(layer) && (opening != [] || Woken(events, |events|)) ==> t.writeAborted || t.interest.polled.write
  {
    hide WellBehaved, Ships, NeverBare, Passive, Refines, SendsAside, NeverDone;
    var socket := new Socket(inbound);
    t := new Transport(layer, view, spec, shipped, socket, state, policy, opening, maxReads);
    assert socket.Received() == [];
    t.Run(events);
  }

  /** The same for a layer that has written nothing before. */
  method RunUnsentConnection<S(!new), V>(layer: Layer<S>, ghost view: S -> V, ghost spec: seq<byte> -> Progress<V>,
                                         ghost shipped: S -> seq<byte>, state: S, policy: Policy, inbound: seq<byte>,
                                         maxReads: nat, events: seq<Event>, ghost quiet: V -> bool)
    returns (t: Transport<S, V>)
    requires WellBehaved(layer) && Refines(layer, view, spec) && shipped(state) == []
    requires policy.maxSize > 0 && policy.minSize <= policy.maxSize
    requires spec([]) == Progress(view(state), 0, policy, false)
    requires NeverBare(layer) && Ships(layer, shipped) && forall s :: quiet(view(s)) ==> shipped(s) == []
    requires forall k: nat :: k <= |inbound| && !spec(inbound[..k]).failed ==> quiet(spec(inbound[..k]).state)
    requires forall e :: e in events ==> e.Poll?
    ensures fresh(t) && t.Valid() && t.Consistent() && t.socket.inbound == inbound
    ensures view(t.state) == spec(t.socket.Received()).state && t.rejected == spec(t.socket.Received()).failed
    ensures t.socket.sent == [] && t.writeBuf == shipped(t.state) && (t.writeBuf != [] ==> t.Stranded())
  {
    hide WellBehaved, Refines, SendsAside, NeverBare, Ships;
    var socket := new Socket(inbound);
    t := new Transport(layer, view, spec, shipped, socket, state, policy, [], maxReads);
    assert socket.Received() == [];
    t.RunUnsent(events, quiet);
  }
}
