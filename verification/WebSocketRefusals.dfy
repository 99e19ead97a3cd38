/** Handshakes that are not accepted: what each side refuses, exactly, and that nothing behind it is delivered. */
module WebSocketRefusals {
  import opened Bytes
  import opened StreamLayer
  import opened HttpText
  import opened WebSocketHandshake
  import opened WebSocketHandshakeTheorems
  import opened WebSocketStack
  import opened WebSocketSessions
  import F = WebSocketFraming
  import S = StreamTransport

  // -- the response ---------------------------------------------------------------------------------------------------

  /** The lines of a response that the client looks at. */
  datatype Kind = StatusLine | UpgradeField | ConnectionField | AcceptField | Other

  function FieldName(line: string): string {
    TrimText(Split(line, ":").0)
  }

  function FieldValue(line: string): string {
    TrimText(Split(line, ":").1)
  }

  function KindOf(line: string): Kind {
    if StartsWith(line, "HTTP/1") then StatusLine
    else if FieldName(line) == "Upgrade" then UpgradeField
    else if FieldName(line) == "Connection" then ConnectionField
    else if FieldName(line) == "Sec-WebSocket-Accept" then AcceptField
    else Other
  }

  predicate Good(line: string, accept: string) {
    match KindOf(line)
    case StatusLine => Split2(line, " ").1 == "101"
    case UpgradeField => LowercaseEqual(FieldValue(line), "websocket")
    case ConnectionField => LowercaseEqual(FieldValue(line), "upgrade")
    case AcceptField => FieldValue(line) == accept
    case Other => false
  }

  predicate Lacks(lines: seq<string>, kind: Kind) {
    forall j :: 0 <= j < |lines| ==> KindOf(lines[j]) != kind
  }

  /** There is a line of this kind, and the last one says what it should. */
  ghost predicate Says(lines: seq<string>, kind: Kind, accept: string) {
    exists i :: 0 <= i < |lines| && SaysLast(lines, i, kind, accept)
  }

  predicate SaysLast(lines: seq<string>, i: nat, kind: Kind, accept: string)
    requires i < |lines|
  {
    KindOf(lines[i]) == kind && Good(lines[i], accept) && Lacks(lines[i + 1..], kind)
  }

  function Flag(ck: Checks, kind: Kind): bool {
    match kind
    case StatusLine => ck.status
    case UpgradeField => ck.upgrade
    case ConnectionField => ck.connection
    case AcceptField => ck.accept
    case Other => false
  }

  lemma LineSets(ck: Checks, accept: string, line: string, kind: Kind)
    requires kind != Other
    ensures var ck' := if line == "" then ck else Check(ck, accept, line);
            Flag(ck', kind) == if KindOf(line) == kind then Good(line, accept) else Flag(ck, kind)
  {
    hide LowercaseEqual;
    if line == "" {
      NothingTrimmed();
    }
    hide TrimText, Split, Split2;
  }

  lemma NothingTrimmed()
    ensures KindOf("") == Other
  {}

  lemma FirstSays(lines: seq<string>, kind: Kind, accept: string)
    requires lines != []
    ensures Says(lines, kind, accept) <==>
            || Says(lines[1..], kind, accept)
            || (KindOf(lines[0]) == kind && Good(lines[0], accept) && Lacks(lines[1..], kind))
  {
    hide KindOf, Good, Lacks;
    var rest := lines[1..];
    forall i: nat | i < |rest| ensures SaysLast(rest, i, kind, accept) == SaysLast(lines, i + 1, kind, accept) {
      assert rest[i + 1..] == lines[i + 2..];
    }
    if Says(lines, kind, accept) {
      var i :| 0 <= i < |lines| && SaysLast(lines, i, kind, accept);
      if i > 0 {
        assert SaysLast(rest, i - 1, kind, accept);
      }
    } else {
      assert !SaysLast(lines, 0, kind, accept);
    }
  }

  lemma {:induction false} LinesSet(ck: Checks, accept: string, lines: seq<string>, kind: Kind)
    requires kind != Other
    ensures Flag(CheckAll(ck, accept, lines), kind) <==>
            Says(lines, kind, accept) || (Flag(ck, kind) && Lacks(lines, kind))
    decreases |lines|
  {
    hide Check, KindOf, Good;
    if lines != [] {
      LineSets(ck, accept, lines[0], kind);
      FirstSays(lines, kind, accept);
      hide Says, Flag;
      assert Lacks(lines, kind) <==> KindOf(lines[0]) != kind && Lacks(lines[1..], kind);
      LinesSet(if lines[0] == "" then ck else Check(ck, accept, lines[0]), accept, lines[1..], kind);
    }
  }

  /** A response is valid if and only if it has a status line, both upgrade fields and the accept field, and the last of
      each says 101, "websocket", "upgrade" and the accept value of the client's key. */
  lemma ValidExactly(c: Crypto, key: seq<byte>, http: string)
    ensures IsValidResponse(c, key, http) <==>
            && Says(Lines(http), StatusLine, ResponseKey(c, key))
            && Says(Lines(http), UpgradeField, ResponseKey(c, key))
            && Says(Lines(http), ConnectionField, ResponseKey(c, key))
            && Says(Lines(http), AcceptField, ResponseKey(c, key))
  {
    var accept, lines, none := ResponseKey(c, key), Lines(http), Checks(false, false, false, false);
    LinesSet(none, accept, lines, StatusLine);
    LinesSet(none, accept, lines, UpgradeField);
    LinesSet(none, accept, lines, ConnectionField);
    LinesSet(none, accept, lines, AcceptField);
    hide Says, CheckAll, ResponseKey, Lines, Lacks;
  }

  // -- a header that is refused ---------------------------------------------------------------------------------------

  /** What is written when the header `lines` are not accepted: longer headers than 2048 bytes are not even read. */
  function Refusal(e: Endpoint, lines: seq<string>): seq<byte> {
    if |Header(lines)| > MAX_HTTP_SIZE then ToBytes(HEADER_TOO_LARGE) else e.onHeader(Header(lines)).output
  }

  lemma LongHeader(lines: seq<string>, text: string)
    requires lines != [] && AreLines(lines) && |Header(lines)| > MAX_HTTP_SIZE
    requires text == Header(lines)[..MAX_HTTP_SIZE]
    ensures Find(text, END_OF_HEADER) == None
  {
    var h := Header(lines);
    HeaderEnds(lines, "");
    assert h + "" == h;
    assert text + h[MAX_HTTP_SIZE..] == h;
    if Find(text, END_OF_HEADER).Some? {
      FindStable(text, h[MAX_HTTP_SIZE..], END_OF_HEADER);
    }
  }

  lemma HeaderRefused(e: Endpoint, lines: seq<string>, rest: seq<byte>)
    requires lines != [] && AreLines(lines) && IsByteText(Header(lines))
    requires !e.onHeader(Header(lines)).accepted
    ensures Decide(e, Chars(First2048(ToBytes(Header(lines)) + rest))) == Reject(Refusal(e, lines))
  {
    var h := Header(lines);
    var text := Chars(First2048(ToBytes(h) + rest));
    hide Find;
    CharsOfBytes(h);
    if |h| > MAX_HTTP_SIZE {
      assert text == h[..MAX_HTTP_SIZE];
      LongHeader(lines, text);
    } else {
      assert text == h + text[|h|..];
      HeaderEnds(lines, text[|h|..]);
      assert text[..|h|] == h;
    }
  }

  lemma RefusedProgress(e: Endpoint, lines: seq<string>, rest: seq<byte>)
    requires lines != [] && AreLines(lines) && IsByteText(Header(lines))
    requires !e.onHeader(Header(lines)).accepted
    ensures Progressed(e, ToBytes(Header(lines)) + rest) ==
            Progress(Closed(Refusal(e, lines)), 0, UpTo(MAX_HTTP_SIZE), true)
  {
    HeaderRefused(e, lines, rest);
    hide Decide, Refusal, Header, ToBytes;
  }

  // -- the client -----------------------------------------------------------------------------------------------------

  /** A client ends the connection at any header that is not a valid answer to its key, whatever follows it; it writes
      nothing, unless the header is too large. */
  lemma ClientRefuses(c: Crypto, key: seq<byte>, env: F.Env, init: string -> bool, scribble: seq<byte> -> seq<byte>,
                      lines: seq<string>, rest: seq<byte>)
    requires lines != [] && AreLines(lines) && IsByteText(Header(lines))
    requires !IsValidResponse(c, key, Header(lines)) || !init(Header(lines))
    ensures var output := if |Header(lines)| > MAX_HTTP_SIZE then ToBytes(HEADER_TOO_LARGE) else [];
            Progressed(ClientEndpoint(c, key, env, init, scribble), ToBytes(Header(lines)) + rest) ==
            Progress(Closed(output), 0, UpTo(MAX_HTTP_SIZE), true)
  {
    var e := ClientEndpoint(c, key, env, init, scribble);
    hide Header, IsValidResponse, Progressed, ToBytes, AreLines;
    RefusedProgress(e, lines, rest);
  }

  /** In particular at the answer to another key, unless both have the same accept value. */
  lemma OtherKeyRefused(c: Crypto, key: seq<byte>, other: seq<byte>, env: F.Env, init: string -> bool,
                        scribble: seq<byte> -> seq<byte>, rest: seq<byte>)
    requires Base64Laws(c) && IsByteText(Response(c, other))
    requires ResponseKey(c, other) != ResponseKey(c, key)
    ensures var p := Progressed(ClientEndpoint(c, key, env, init, scribble), ToBytes(Response(c, other)) + rest);
            p.failed && !p.state.Open?
  {
    ResponseAccepted(c, key, other);
    ResponseIsHeader(c, other);
    hide Progressed, IsValidResponse, AllClean, FieldLines, ResponseFields, ToBytes;
    ClientRefuses(c, key, env, init, scribble, [STATUS_LINE] + FieldLines(ResponseFields(ResponseKey(c, other))), rest);
  }

  /** And at any header that lacks one of the four lines. */
  lemma IncompleteRefused(c: Crypto, key: seq<byte>, env: F.Env, init: string -> bool,
                          scribble: seq<byte> -> seq<byte>, lines: seq<string>, kind: Kind, rest: seq<byte>)
    requires lines != [] && AreLines(lines) && IsByteText(Header(lines)) && kind != Other
    requires forall line :: line in lines && KindOf(line) == kind ==> !Good(line, ResponseKey(c, key))
    ensures var p := Progressed(ClientEndpoint(c, key, env, init, scribble), ToBytes(Header(lines)) + rest);
            p.failed && !p.state.Open?
  {
    NoneSays(lines, kind, ResponseKey(c, key));
    LinesOfHeader(lines);
    ValidExactly(c, key, Header(lines));
    ClientRefuses(c, key, env, init, scribble, lines, rest);
    hide *;
  }

  lemma NoneSays(lines: seq<string>, kind: Kind, accept: string)
    requires kind != Other && forall line :: line in lines && KindOf(line) == kind ==> !Good(line, accept)
    ensures !Says(lines + [""], kind, accept)
  {
    NothingTrimmed();
    hide KindOf, Good, Lacks;
    forall i: nat | i < |lines + [""]| ensures !SaysLast(lines + [""], i, kind, accept) {
      if i < |lines| {
        assert (lines + [""])[i] == lines[i];
        assert lines[i] in lines;
      }
    }
  }

  // -- the server -----------------------------------------------------------------------------------------------------

  lemma PrefixOfSplit(s: string, sep: string)
    requires sep != ""
    ensures Split(s, sep).0 <= s
  {}

  /** Whatever else a request holds: it is refused unless it begins with "GET". */
  lemma OtherMethodRefused(c: Crypto, http: string)
    requires !StartsWith(http, "GET")
    ensures HandleRequest(c, http) == Refused
  {
    var first := Split(http, CRLF).0;
    PrefixOfSplit(http, CRLF);
    PrefixOfSplit(first, " ");
    hide Split, Collect, Lines, AssignKey;
  }

  /** A line of a request is stored as a field if and only if there is more than spaces in front of its first colon. */
  lemma FieldExactly(line: string)
    ensures var colon := Find(line, ":");
            ParseField(line).Some? <==> colon.Some? && !Spaces(line[..colon.value])
  {
    var colon := Find(line, ":");
    if colon.Some? {
      TrimEmpties(line[..colon.value]);
    }
    hide Find, Trim, Spaces;
  }

  /** The last field named Sec-WebSocket-Key holds a key: 24 characters that end in "==" and can be decoded. */
  predicate HoldsKey(c: Crypto, fields: seq<Field>, i: nat, key: seq<byte>)
    requires i < |fields|
  {
    && fields[i].name == "Sec-WebSocket-Key"
    && Unnamed(fields[i + 1..], "Sec-WebSocket-Key")
    && |fields[i].value| == 24 && fields[i].value[22..] == "==" && c.decode(fields[i].value) == Some(key)
  }

  function RequestText(verb: string, uri: string, version: string, fields: seq<Field>): seq<string> {
    [verb + " " + uri + " " + version] + FieldLines(fields)
  }

  /** A request is accepted if and only if its method is GET and it holds a key, and then with that key. */
  lemma AcceptedExactly(c: Crypto, verb: string, uri: string, version: string, fields: seq<Field>)
    requires Free(verb, ' ') && Free(verb, '\r') && Free(uri, ' ') && Free(uri, '\r') && Free(version, '\r')
    requires AllClean(fields)
    ensures var res := HandleRequest(c, Header(RequestText(verb, uri, version, fields)));
            && (res.Accepted? <==> verb == "GET" && exists i, key :: 0 <= i < |fields| && HoldsKey(c, fields, i, key))
            && forall i, key :: verb == "GET" && 0 <= i < |fields| && HoldsKey(c, fields, i, key) ==>
                 res == Accepted("GET", uri, version, Store(map[], fields), key)
  {
    RequestParts(c, verb, uri, version, fields);
    hide HandleRequest, Header;
    KeyExactly(c, fields);
    hide HoldsKey, AssignKey, Store, AllClean;
  }

  lemma RequestParts(c: Crypto, verb: string, uri: string, version: string, fields: seq<Field>)
    requires Free(verb, ' ') && Free(verb, '\r') && Free(uri, ' ') && Free(uri, '\r') && Free(version, '\r')
    requires AllClean(fields)
    ensures var m := Store(map[], fields);
            HandleRequest(c, Header(RequestText(verb, uri, version, fields))) ==
            if verb == "GET" && "Sec-WebSocket-Key" in m && AssignKey(c, m["Sec-WebSocket-Key"]).Some?
            then Accepted("GET", uri, version, m, AssignKey(c, m["Sec-WebSocket-Key"]).value) else Refused
  {
    var first, lines := verb + " " + uri + " " + version, FieldLines(fields);
    FieldLinesAreLines(fields);
    FirstLineSplits(verb, uri, version);
    assert RequestText(verb, uri, version, fields)[1..] == lines;
    SplitAfter(first, CRLF, Header(lines));
    LinesOfHeader(lines);
    CollectStores(map[], fields);
    hide Split, Collect, Lines, AssignKey, Store, FieldLines, AllClean, AreLines;
  }

  lemma FirstLineSplits(verb: string, uri: string, version: string)
    requires Free(verb, ' ') && Free(verb, '\r') && Free(uri, ' ') && Free(uri, '\r') && Free(version, '\r')
    ensures var first := verb + " " + uri + " " + version;
            Free(first, '\r') && Split2(first, " ") == (verb, uri, version)
  {
    var rest := uri + " " + version;
    assert verb + " " + uri + " " + version == verb + " " + rest;
    SplitAfter(verb, " ", rest);
    SplitAfter(uri, " ", version);
    hide Split;
  }

  lemma KeyExactly(c: Crypto, fields: seq<Field>)
    ensures var m := Store(map[], fields);
            && (("Sec-WebSocket-Key" in m && AssignKey(c, m["Sec-WebSocket-Key"]).Some?) <==>
                exists i, key :: 0 <= i < |fields| && HoldsKey(c, fields, i, key))
            && forall i, key :: 0 <= i < |fields| && HoldsKey(c, fields, i, key) ==>
                 "Sec-WebSocket-Key" in m && AssignKey(c, m["Sec-WebSocket-Key"]) == Some(key)
  {
    var name, m := "Sec-WebSocket-Key", Store(map[], fields);
    if name in m {
      var i := LastNamed(map[], fields, name);
      StoreHolds(map[], fields, i);
      if AssignKey(c, m[name]).Some? {
        assert HoldsKey(c, fields, i, AssignKey(c, m[name]).value);
      }
    }
    forall i, key | 0 <= i < |fields| && HoldsKey(c, fields, i, key)
      ensures name in m && AssignKey(c, m[name]) == Some(key)
    {
      assert forall j :: i < j < |fields| ==> fields[j] == fields[i + 1..][j - i - 1];
      StoreHolds(map[], fields, i);
    }
  }

  lemma LastNamed(m: map<string, string>, fields: seq<Field>, name: string) returns (i: nat)
    requires name !in m && name in Store(m, fields)
    ensures i < |fields| && fields[i].name == name && Unnamed(fields[i + 1..], name)
    ensures forall j :: i < j < |fields| ==> fields[j].name != name
  {
    var k := |fields|;
    while k > 0 && fields[k - 1].name != name
      invariant 0 <= k <= |fields|
      invariant forall j :: k <= j < |fields| ==> fields[j].name != name
    {
      k := k - 1;
    }
    if k == 0 {
      NeverStored(m, fields, name);
    }
    i := k - 1;
  }

  lemma {:induction false} NeverStored(m: map<string, string>, fields: seq<Field>, name: string)
    requires name !in m && forall j :: 0 <= j < |fields| ==> fields[j].name != name
    ensures name !in Store(m, fields)
    decreases |fields|
  {
    if fields != [] {
      NeverStored(Put(m, Some(fields[0])), fields[1..], name);
    }
  }

  /** A server ends the connection at a request it refuses, or that the upper layer is not initialized with. */
  lemma ServerRefuses(c: Crypto, env: F.Env, init: string -> bool, scribble: seq<byte> -> seq<byte>,
                      lines: seq<string>, rest: seq<byte>)
    requires lines != [] && AreLines(lines) && IsByteText(Header(lines))
    requires var res := HandleRequest(c, Header(lines)); res.Refused? || !init(Header(lines))
    ensures var res := HandleRequest(c, Header(lines));
            var output := if |Header(lines)| > MAX_HTTP_SIZE then ToBytes(HEADER_TOO_LARGE)
                          else if res.Refused? then [] else ToBytes(Response(c, res.key));
            Progressed(ServerEndpoint(c, env, init, scribble), ToBytes(Header(lines)) + rest) ==
            Progress(Closed(output), 0, UpTo(MAX_HTTP_SIZE), true)
  {
    var e := ServerEndpoint(c, env, init, scribble);
    hide Header, HandleRequest, Progressed, ToBytes, AreLines, Response;
    RefusedProgress(e, lines, rest);
  }

  // -- over every run -------------------------------------------------------------------------------------------------

  /** An endpoint whose stream begins with a header it refuses, or any part of that stream: in no run does it open, so
      it makes no call; it has rejected the header as soon as all of it has been read; and it writes nothing but the
      refusal. */
  method RunRefused(e: Endpoint, ghost lines: seq<string>, ghost rest: seq<byte>, opening: seq<byte>,
                    inbound: seq<byte>, prepareSend: Phase -> Sending<Phase>, doneSending: Phase -> bool, maxReads: nat,
                    events: seq<S.Event>)
    returns (t: S.Transport<Phase, Phase>)
    requires lines != [] && AreLines(lines) && IsByteText(Header(lines))
    requires !e.onHeader(Header(lines)).accepted
    requires IsPartOf(inbound, ToBytes(Header(lines)) + rest) && SendsFrames(e, prepareSend, doneSending)
    ensures t.Valid() && t.socket.inbound == inbound
    ensures !t.state.Open? && (t.socket.pos >= |Header(lines)| ==> t.rejected)
    ensures t.socket.sent + t.writeBuf == opening + if t.rejected then Refusal(e, lines) else []
  {
    hide Progressed, AsLayer, View, SendsFrames, Written, Decide, IsPartOf, Refusal, Header, ToBytes;
    t := RunEndpoint(e, prepareSend, doneSending, opening, inbound, maxReads, events);
    assert t.socket.Received() == inbound[..t.socket.pos];
    RefusedAt(e, lines, rest, inbound, t.socket.pos, t.state);
  }

  lemma RefusedAt(e: Endpoint, lines: seq<string>, rest: seq<byte>, inbound: seq<byte>, k: nat, st: Phase)
    requires lines != [] && AreLines(lines) && IsByteText(Header(lines))
    requires !e.onHeader(Header(lines)).accepted
    requires IsPartOf(inbound, ToBytes(Header(lines)) + rest) && k <= |inbound|
    requires Shown(true, st) == Shown(true, Progressed(e, inbound[..k]).state)
    ensures var p := Progressed(e, inbound[..k]);
            && !st.Open? && (k >= |Header(lines)| ==> p.failed)
            && Written(e, st) == if p.failed then Refusal(e, lines) else []
  {
    var wire := ToBytes(Header(lines)) + rest;
    assert inbound[..k] == wire[..k];
    HeaderRefused(e, lines, rest);
    NotOpenedAt(e, wire, k);
    if k >= |Header(lines)| {
      var more := rest[..k - |Header(lines)|];
      assert wire[..k] == ToBytes(Header(lines)) + more;
      RefusedProgress(e, lines, more);
    }
    hide Progressed, Decide, Header, ToBytes, Refusal;
  }

  /** A client that is sent anything but a valid answer to its own key: it never opens, delivers nothing of what
      follows, and sends nothing behind its request, unless the header is too large. */
  method RunMisledClient(c: Crypto, env: F.Env, init: string -> bool, scribble: seq<byte> -> seq<byte>, hs: Handshake,
                         ghost lines: seq<string>, ghost rest: seq<byte>, inbound: seq<byte>,
                         prepareSend: Phase -> Sending<Phase>, doneSending: Phase -> bool, maxReads: nat,
                         events: seq<S.Event>)
    returns (t: S.Transport<Phase, Phase>)
    requires lines != [] && AreLines(lines) && IsByteText(Header(lines))
    requires !IsValidResponse(c, hs.key, Header(lines))
    requires IsPartOf(inbound, ToBytes(Header(lines)) + rest)
    requires SendsFrames(ClientEndpoint(c, hs.key, env, init, scribble), prepareSend, doneSending)
    ensures t.Valid() && t.socket.inbound == inbound
    ensures !t.state.Open? && (t.socket.pos >= |Header(lines)| ==> t.rejected)
    ensures var refusal := if t.rejected && |Header(lines)| > MAX_HTTP_SIZE then ToBytes(HEADER_TOO_LARGE) else [];
            t.socket.sent + t.writeBuf == ToBytes(Request(c, hs)) + refusal
  {
    hide Progressed, Request, ToBytes, SendsFrames, IsPartOf, IsValidResponse, Header;
    var e := ClientEndpoint(c, hs.key, env, init, scribble);
    var request := WriteRequest(c, hs, "");
    assert "" + Request(c, hs) == Request(c, hs);
    t := RunRefused(e, lines, rest, ToBytes(request), inbound, prepareSend, doneSending, maxReads, events);
  }
}
