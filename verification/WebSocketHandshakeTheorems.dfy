/** Client and server agree on the handshake. */
module WebSocketHandshakeTheorems {
  import opened Bytes
  import opened StreamLayer
  import opened HttpText
  import opened WebSocketHandshake

  /** A field that survives the way over the wire: line breaks, outer spaces and colons in names are excluded. */
  predicate Clean(f: Field) {
    && f.name != "" && Trimmed(f.name) && Free(f.name, ':') && Free(f.name, '\r')
    && Trimmed(f.value) && Free(f.value, '\r')
  }

  predicate AllClean(fields: seq<Field>) {
    forall j :: 0 <= j < |fields| ==> Clean(fields[j])
  }

  lemma UpgradeIsClean()
    ensures Clean(Field("Upgrade", "websocket"))
  {}

  lemma ConnectionIsClean()
    ensures Clean(Field("Connection", "Upgrade"))
  {}

  lemma VersionIsClean()
    ensures Clean(Field("Sec-WebSocket-Version", "13"))
  {}

  /** Encoded values can stand in any field. */
  lemma EncodedIsClean(c: Crypto, b: seq<byte>)
    requires Base64Laws(c)
    ensures Trimmed(c.encode(b)) && Free(c.encode(b), '\r')
  {
    assert NoSpace(c.encode(b));
  }

  lemma HostIsClean(host: string)
    requires Trimmed(host) && Free(host, '\r')
    ensures Clean(Field("Host", host))
  {}

  lemma KeyFieldIsClean(c: Crypto, b: seq<byte>)
    requires Base64Laws(c)
    ensures Clean(Field("Sec-WebSocket-Key", c.encode(b)))
  {
    EncodedIsClean(c, b);
  }

  lemma FieldLineParses(f: Field)
    requires Clean(f)
    ensures IsLine(FieldLine(f)) && ParseField(FieldLine(f)) == Some(f)
  {
    var line := FieldLine(f);
    assert line == f.name + ":" + (" " + f.value);
    FindAfter(f.name, ":", " " + f.value);
    assert line[..|f.name|] == f.name && line[|f.name| + 1..] == " " + f.value;
    TrimmedStays(f.name);
    TrimmedStays(f.value);
  }

  lemma {:induction false} FieldLinesAreLines(fields: seq<Field>)
    requires AllClean(fields)
    ensures AreLines(FieldLines(fields))
  {
    if fields != [] {
      FieldLineParses(fields[0]);
      hide FieldLine, Clean, IsLine;
      FieldLinesAreLines(fields[1..]);
    }
  }

  /** The dictionary after storing fields in order; a later value replaces an earlier one. */
  function Store(m: map<string, string>, fields: seq<Field>): map<string, string>
    decreases |fields|
  {
    if fields == [] then m else Store(Put(m, Some(fields[0])), fields[1..])
  }

  lemma EmptyLineParses()
    ensures ParseField("") == None
  {}

  lemma {:induction false} CollectStores(m: map<string, string>, fields: seq<Field>)
    requires AllClean(fields)
    ensures Collect(m, FieldLines(fields) + [""]) == Store(m, fields)
    decreases |fields|
  {
    EmptyLineParses();
    if fields != [] {
      FieldLineParses(fields[0]);
    }
    hide FieldLine, ParseField, Clean, IsLine;
    if fields == [] {
      assert [] + [""] == [""] && [""][1..] == [];
    } else {
      assert (FieldLines(fields) + [""])[1..] == FieldLines(fields[1..]) + [""];
      CollectStores(Put(m, Some(fields[0])), fields[1..]);
    }
  }

  /** The last field of a name is what the dictionary holds under that name. */
  lemma {:induction false} StoreHolds(m: map<string, string>, fields: seq<Field>, i: nat)
    requires i < |fields| && forall j :: i < j < |fields| ==> fields[j].name != fields[i].name
    ensures fields[i].name in Store(m, fields) && Store(m, fields)[fields[i].name] == fields[i].value
    decreases |fields|
  {
    if i > 0 {
      StoreHolds(Put(m, Some(fields[0])), fields[1..], i - 1);
    } else {
      StoreKeeps(Put(m, Some(fields[0])), fields[1..], fields[0].name);
    }
  }

  lemma {:induction false} StoreKeeps(m: map<string, string>, fields: seq<Field>, name: string)
    requires name in m && forall j :: 0 <= j < |fields| ==> fields[j].name != name
    ensures name in Store(m, fields) && Store(m, fields)[name] == m[name]
    decreases |fields|
  {
    if fields != [] {
      StoreKeeps(Put(m, Some(fields[0])), fields[1..], name);
    }
  }

  // -- the request ------------------------------------------------------------

  predicate Unnamed(fields: seq<Field>, name: string) {
    forall j :: 0 <= j < |fields| ==> fields[j].name != name
  }

  /** A client handshake the protocol can carry. */
  predicate Sound(hs: Handshake) {
    && |hs.key| == 16
    && Free(Lookup(hs.fields, "_endpoint"), ' ') && Free(Lookup(hs.fields, "_endpoint"), '\r')
    && Trimmed(Lookup(hs.fields, "_host")) && Free(Lookup(hs.fields, "_host"), '\r')
    && AllClean(Public(hs.fields))
    && Unnamed(Public(hs.fields), "Sec-WebSocket-Key")
  }

  function AllFields(c: Crypto, hs: Handshake): seq<Field> {
    FixedFields(c, hs) + Public(hs.fields)
  }

  lemma FixedFieldsAreClean(c: Crypto, hs: Handshake)
    requires Base64Laws(c) && Sound(hs)
    ensures AllClean(FixedFields(c, hs))
  {
    hide Clean, Lookup, Base64Laws, AllClean;
    HostIsClean(Lookup(hs.fields, "_host"));
    KeyFieldIsClean(c, hs.key);
    UpgradeIsClean();
    ConnectionIsClean();
    VersionIsClean();
    hide Sound;
    FiveClean(FixedFields(c, hs));
  }

  lemma FiveClean(f: seq<Field>)
    requires |f| == 5 && Clean(f[0]) && Clean(f[1]) && Clean(f[2]) && Clean(f[3]) && Clean(f[4])
    ensures AllClean(f)
  {}

  lemma RequestLineSplits(endpoint: string)
    requires Free(endpoint, ' ') && Free(endpoint, '\r')
    ensures IsLine(RequestLine(endpoint))
    ensures Split2(RequestLine(endpoint), " ") == ("GET", endpoint, "HTTP/1.1")
  {
    var rest := endpoint + " " + "HTTP/1.1";
    assert RequestLine(endpoint) == "GET" + " " + rest;
    LineIsFree(endpoint);
    hide RequestLine, IsLine;
    SplitAfter("GET", " ", rest);
    SplitAfter(endpoint, " ", "HTTP/1.1");
  }

  lemma LineIsFree(endpoint: string)
    requires Free(endpoint, '\r')
    ensures IsLine(RequestLine(endpoint))
  {}

  lemma RequestIsHeader(c: Crypto, hs: Handshake)
    requires Base64Laws(c) && Sound(hs)
    ensures AllClean(AllFields(c, hs)) && AreLines(FieldLines(AllFields(c, hs))) && AreLines(RequestLines(c, hs))
  {
    FixedFieldsAreClean(c, hs);
    RequestLineSplits(Lookup(hs.fields, "_endpoint"));
    hide Clean, FixedFields, RequestLine, FieldLines, IsLine;
    assert AllClean(AllFields(c, hs));
    FieldLinesAreLines(AllFields(c, hs));
  }

  /** The server recovers method, URI, version, key and every field from the client's request. */
  lemma RequestRecovered(c: Crypto, hs: Handshake)
    requires Base64Laws(c) && Sound(hs)
    ensures HandleRequest(c, Request(c, hs)) ==
            Accepted("GET", Lookup(hs.fields, "_endpoint"), "HTTP/1.1", Store(map[], AllFields(c, hs)), hs.key)
  {
    var lines, fields := RequestLines(c, hs), AllFields(c, hs);
    var first := RequestLine(Lookup(hs.fields, "_endpoint"));
    RequestIsHeader(c, hs);
    RequestLineSplits(Lookup(hs.fields, "_endpoint"));
    assert lines[0] == first && lines[1..] == FieldLines(fields);
    SplitAfter(first, CRLF, Header(lines[1..]));
    assert Request(c, hs) == first + CRLF + Header(lines[1..]);
    LinesOfHeader(lines[1..]);
    CollectStores(map[], fields);
    KeyRecovered(c, hs);
  }

  lemma KeyRecovered(c: Crypto, hs: Handshake)
    requires Base64Laws(c) && Sound(hs)
    ensures var m := Store(map[], AllFields(c, hs));
            "Sec-WebSocket-Key" in m && AssignKey(c, m["Sec-WebSocket-Key"]) == Some(hs.key)
  {
    var fields := AllFields(c, hs);
    assert fields[4] == Field("Sec-WebSocket-Key", c.encode(hs.key));
    assert forall j :: 4 < j < |fields| ==> fields[j] == Public(hs.fields)[j - 5];
    StoreHolds(map[], fields, 4);
  }

  /** Every field the user configured under a name of its own is found by the server. */
  lemma FieldRecovered(c: Crypto, hs: Handshake, i: nat)
    requires Base64Laws(c) && Sound(hs) && i < |Public(hs.fields)|
    requires forall j :: i < j < |Public(hs.fields)| ==> Public(hs.fields)[j].name != Public(hs.fields)[i].name
    ensures var f := Public(hs.fields)[i];
            var res := HandleRequest(c, Request(c, hs));
            res.Accepted? && f.name in res.fields && res.fields[f.name] == f.value
  {
    RequestRecovered(c, hs);
    hide HandleRequest, Request, Sound, FixedFields, Public, Base64Laws;
    TailHolds(map[], FixedFields(c, hs), Public(hs.fields), i);
  }

  /** The server finds the fields that section 4.1 of RFC 6455 asks for, unless the user configured one of them anew. */
  lemma FixedFieldsRecovered(c: Crypto, hs: Handshake)
    requires Base64Laws(c) && Sound(hs)
    requires Unnamed(Public(hs.fields), "Host") && Unnamed(Public(hs.fields), "Upgrade")
    requires Unnamed(Public(hs.fields), "Connection") && Unnamed(Public(hs.fields), "Sec-WebSocket-Version")
    ensures var res := HandleRequest(c, Request(c, hs));
            && res.Accepted?
            && Holds(res.fields, "Host", Lookup(hs.fields, "_host"))
            && Holds(res.fields, "Upgrade", "websocket")
            && Holds(res.fields, "Connection", "Upgrade")
            && Holds(res.fields, "Sec-WebSocket-Version", "13")
  {
    RequestRecovered(c, hs);
    FixedFieldsStored(c, hs);
    hide *;
  }

  lemma FixedFieldsStored(c: Crypto, hs: Handshake)
    requires Unnamed(Public(hs.fields), "Host") && Unnamed(Public(hs.fields), "Upgrade")
    requires Unnamed(Public(hs.fields), "Connection") && Unnamed(Public(hs.fields), "Sec-WebSocket-Version")
    ensures var m := Store(map[], AllFields(c, hs));
            && Holds(m, "Host", Lookup(hs.fields, "_host"))
            && Holds(m, "Upgrade", "websocket")
            && Holds(m, "Connection", "Upgrade")
            && Holds(m, "Sec-WebSocket-Version", "13")
  {
    hide Unnamed, Holds, Lookup, Store, Public;
    var fixed, own := FixedFields(c, hs), Public(hs.fields);
    assert AllFields(c, hs) == fixed + own;
    FixedNames(c, hs);
    HeadHolds(fixed, own, 0);
    HeadHolds(fixed, own, 1);
    HeadHolds(fixed, own, 2);
    HeadHolds(fixed, own, 3);
  }

  lemma FixedNames(c: Crypto, hs: Handshake)
    ensures forall i, j :: 0 <= i < j < 5 ==> FixedFields(c, hs)[i].name != FixedFields(c, hs)[j].name
  {}

  lemma HeadHolds(a: seq<Field>, b: seq<Field>, i: nat)
    requires i < |a| && (forall j :: i < j < |a| ==> a[j].name != a[i].name) && Unnamed(b, a[i].name)
    ensures Holds(Store(map[], a + b), a[i].name, a[i].value)
  {
    StoreHolds(map[], a + b, i);
  }

  predicate Holds(m: map<string, string>, name: string, value: string) {
    name in m && m[name] == value
  }

  lemma TailHolds(m: map<string, string>, a: seq<Field>, b: seq<Field>, i: nat)
    requires i < |b| && forall j :: i < j < |b| ==> b[j].name != b[i].name
    ensures b[i].name in Store(m, a + b) && Store(m, a + b)[b[i].name] == b[i].value
  {
    assert forall j :: |a| <= j < |a + b| ==> (a + b)[j] == b[j - |a|];
    StoreHolds(m, a + b, |a| + i);
  }

  // -- the response -----------------------------------------------------------

  lemma ResponseIsHeader(c: Crypto, key: seq<byte>)
    requires Base64Laws(c)
    ensures AreLines([STATUS_LINE] + FieldLines(ResponseFields(ResponseKey(c, key))))
    ensures AllClean(ResponseFields(ResponseKey(c, key)))
  {
    KeyIsClean(c, key);
    UpgradeIsClean();
    ConnectionIsClean();
    StatusIsLine();
    hide Clean, IsLine, FieldLines;
    FieldLinesAreLines(ResponseFields(ResponseKey(c, key)));
  }

  lemma KeyIsClean(c: Crypto, key: seq<byte>)
    requires Base64Laws(c)
    ensures Clean(Field("Sec-WebSocket-Accept", ResponseKey(c, key)))
  {
    EncodedIsClean(c, c.sha1(c.encode(key) + GUID));
    hide Base64Laws;
  }

  lemma StatusIsLine()
    ensures IsLine(STATUS_LINE)
  {}

  lemma SplitCleanLine(f: Field)
    requires Clean(f)
    ensures Split(FieldLine(f), ":") == (f.name, " " + f.value)
  {
    assert FieldLine(f) == f.name + ":" + (" " + f.value);
    SplitAfter(f.name, ":", " " + f.value);
  }

  lemma StatusLineChecks(ck: Checks, wsKey: string)
    ensures Check(ck, wsKey, STATUS_LINE) == ck.(status := true)
  {
    assert STATUS_LINE == "HTTP/1.1" + " " + ("101" + " " + "Switching Protocols");
    SplitAfter("HTTP/1.1", " ", "101" + " " + "Switching Protocols");
    SplitAfter("101", " ", "Switching Protocols");
    assert "HTTP/1" <= "HTTP/1.1";
  }

  predicate Plain(s: string) {
    Trimmed(s) && (s == "" || !IsSpace(s[0]))
  }

  lemma PlainText(s: string)
    requires Plain(s)
    ensures TrimText(s) == s && TrimText(" " + s) == s
  {
    TrimmedStays(s);
    if s == "" {
      assert IsSpace(' ');
    } else {
      TrimTextIsTrim(s, 0);
      TrimTextIsTrim(" " + s, 1);
    }
  }

  lemma FieldChecks(ck: Checks, wsKey: string, f: Field)
    requires Clean(f) && Plain(f.name) && Plain(f.value) && f.name[0] != 'H'
    ensures Check(ck, wsKey, FieldLine(f)) ==
            if f.name == "Upgrade" then ck.(upgrade := LowercaseEqual(f.value, "websocket"))
            else if f.name == "Connection" then ck.(connection := LowercaseEqual(f.value, "upgrade"))
            else if f.name == "Sec-WebSocket-Accept" then ck.(accept := f.value == wsKey)
            else ck
  {
    SplitCleanLine(f);
    PlainText(f.name);
    PlainText(f.value);
    assert FieldLine(f)[0] == f.name[0];
    hide TrimText, Split, FieldLine;
  }

  lemma UpgradeIsPlain()
    ensures Plain("Upgrade") && Plain("websocket") && LowercaseEqual("websocket", "websocket")
  {}

  lemma ConnectionIsPlain()
    ensures Plain("Connection") && Plain("Upgrade") && LowercaseEqual("Upgrade", "upgrade")
  {}

  lemma UpgradeChecks(ck: Checks, wsKey: string)
    ensures Check(ck, wsKey, FieldLine(Field("Upgrade", "websocket"))) == ck.(upgrade := true)
  {
    hide Check, FieldLine, Clean, Plain, LowercaseEqual;
    UpgradeIsClean();
    UpgradeIsPlain();
    FieldChecks(ck, wsKey, Field("Upgrade", "websocket"));
  }

  lemma ConnectionChecks(ck: Checks, wsKey: string)
    ensures Check(ck, wsKey, FieldLine(Field("Connection", "Upgrade"))) == ck.(connection := true)
  {
    hide Check, FieldLine, Clean, Plain, LowercaseEqual;
    ConnectionIsClean();
    ConnectionIsPlain();
    FieldChecks(ck, wsKey, Field("Connection", "Upgrade"));
  }

  lemma AcceptChecks(c: Crypto, ck: Checks, wsKey: string, key: seq<byte>)
    requires Base64Laws(c)
    ensures Check(ck, wsKey, FieldLine(Field("Sec-WebSocket-Accept", ResponseKey(c, key)))) ==
            ck.(accept := ResponseKey(c, key) == wsKey)
  {
    KeyIsClean(c, key);
    assert NoSpace(ResponseKey(c, key));
    FieldChecks(ck, wsKey, Field("Sec-WebSocket-Accept", ResponseKey(c, key)));
    hide Check, FieldLine, Clean, Plain, ResponseKey;
  }

  lemma CheckStep(ck: Checks, wsKey: string, line: string, rest: seq<string>)
    requires line != ""
    ensures CheckAll(ck, wsKey, [line] + rest) == CheckAll(Check(ck, wsKey, line), wsKey, rest)
  {
    hide Check;
    assert ([line] + rest)[1..] == rest;
  }

  lemma FourChecks(wsKey: string, ck: Checks, a: string, b: string, d: string, e: string)
    requires a != "" && b != "" && d != "" && e != ""
    ensures CheckAll(ck, wsKey, [a, b, d, e] + [""]) ==
            Check(Check(Check(Check(ck, wsKey, a), wsKey, b), wsKey, d), wsKey, e)
  {
    hide Check;
    assert [a, b, d, e] + [""] == [a] + ([b] + ([d] + ([e] + [""])));
    var ck1 := Check(ck, wsKey, a);
    var ck2 := Check(ck1, wsKey, b);
    var ck3 := Check(ck2, wsKey, d);
    CheckStep(ck, wsKey, a, [b] + ([d] + ([e] + [""])));
    CheckStep(ck1, wsKey, b, [d] + ([e] + [""]));
    CheckStep(ck2, wsKey, d, [e] + [""]);
    CheckStep(ck3, wsKey, e, [""]);
    assert [""][1..] == [];
  }

  lemma ResponseLines(accept: string)
    ensures var f := ResponseFields(accept);
            [STATUS_LINE] + FieldLines(f) == [STATUS_LINE, FieldLine(f[0]), FieldLine(f[1]), FieldLine(f[2])]
  {
    hide FieldLine;
    var f := ResponseFields(accept);
    assert f == [f[0]] + ([f[1]] + ([f[2]] + []));
    FieldLinesConcat([f[2]], []);
    FieldLinesConcat([f[1]], [f[2]] + []);
    FieldLinesConcat([f[0]], [f[1]] + ([f[2]] + []));
    assert forall x: Field :: [x][1..] == [];
    assert FieldLines([f[0]]) == [FieldLine(f[0])] && FieldLines([f[1]]) == [FieldLine(f[1])]
           && FieldLines([f[2]]) == [FieldLine(f[2])];
  }

  /** The client accepts the server's response if and only if it was made for a key with the same accept value. */
  lemma ResponseAccepted(c: Crypto, key: seq<byte>, serverKey: seq<byte>)
    requires Base64Laws(c)
    ensures IsValidResponse(c, key, Response(c, serverKey)) <==> ResponseKey(c, serverKey) == ResponseKey(c, key)
  {
    var wsKey, accept := ResponseKey(c, key), ResponseKey(c, serverKey);
    var f := ResponseFields(accept);
    ResponseIsHeader(c, serverKey);
    LinesOfHeader([STATUS_LINE] + FieldLines(f));
    ResponseLines(accept);
    var none := Checks(false, false, false, false);
    StatusLineChecks(none, wsKey);
    UpgradeChecks(none.(status := true), wsKey);
    ConnectionChecks(Checks(true, true, false, false), wsKey);
    AcceptChecks(c, Checks(true, true, true, false), wsKey, serverKey);
    assert FieldLine(f[0]) != "" && FieldLine(f[1]) != "" && FieldLine(f[2]) != "" && STATUS_LINE != "";
    hide Check, FieldLine, FieldLines, Base64Laws, ResponseKey, AreLines, AllClean, Header, Lines;
    FourChecks(wsKey, none, STATUS_LINE, FieldLine(f[0]), FieldLine(f[1]), FieldLine(f[2]));
  }
}
