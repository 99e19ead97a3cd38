/** The HTTP upgrade of RFC 6455, section 4: the client's request, the server's answer and the checks on both. */
module WebSocketHandshake {
  import opened Bytes
  import opened StreamLayer
  import opened HttpText

  const MAX_HTTP_SIZE: nat := 2048
  const GUID := "258EAFA5-E914-47DA-95CA-C5AB0DC85B11"

  /** Base64 and SHA-1. */
  datatype Crypto = Crypto(encode: seq<byte> -> string, decode: string -> Option<seq<byte>>, sha1: string -> seq<byte>)

  /** What is assumed of them: decoding undoes encoding, 16 bytes make 24 characters that end in "==", and the
      alphabet holds no white space. */
  ghost predicate Base64Laws(c: Crypto) {
    && (forall k :: |k| == 16 ==> |c.encode(k)| == 24 && c.encode(k)[22..] == "==" && c.decode(c.encode(k)) == Some(k))
    && (forall b :: NoSpace(c.encode(b)))
  }

  predicate NoSpace(s: string) {
    forall i :: 0 <= i < |s| ==> !IsSpace(s[i])
  }

  datatype Field = Field(name: string, value: string)

  /** A handshake: the 16-byte key and the configured fields in the order of the dictionary. */
  datatype Handshake = Handshake(key: seq<byte>, fields: seq<Field>)

  function Lookup(fields: seq<Field>, name: string): string {
    if fields == [] then "" else if fields[0].name == name then fields[0].value else Lookup(fields[1..], name)
  }

  function ResponseKey(c: Crypto, key: seq<byte>): string {
    c.encode(c.sha1(c.encode(key) + GUID))
  }

  // -- the request ------------------------------------------------------------

  function FieldLine(f: Field): string {
    f.name + ": " + f.value
  }

  function FieldLines(fields: seq<Field>): seq<string> {
    if fields == [] then [] else [FieldLine(fields[0])] + FieldLines(fields[1..])
  }

  /** The fields that go on the wire: a leading underscore marks internal ones. */
  function Public(fields: seq<Field>): seq<Field> {
    if fields == [] then []
    else (if fields[0].name != "" && fields[0].name[0] == '_' then [] else [fields[0]]) + Public(fields[1..])
  }

  function FixedFields(c: Crypto, hs: Handshake): seq<Field> {
    [Field("Host", Lookup(hs.fields, "_host")),
     Field("Upgrade", "websocket"),
     Field("Connection", "Upgrade"),
     Field("Sec-WebSocket-Version", "13"),
     Field("Sec-WebSocket-Key", c.encode(hs.key))]
  }

  function RequestLine(endpoint: string): string {
    "GET" + " " + endpoint + " " + "HTTP/1.1"
  }

  function RequestLines(c: Crypto, hs: Handshake): seq<string> {
    [RequestLine(Lookup(hs.fields, "_endpoint"))] + FieldLines(FixedFields(c, hs) + Public(hs.fields))
  }

  function Request(c: Crypto, hs: Handshake): string {
    Header(RequestLines(c, hs))
  }

  lemma {:induction false} HeaderConcat(a: seq<string>, b: seq<string>)
    ensures Header(a + b) == Joined(a) + Header(b)
  {
    if a == [] {
      assert [] + b == b;
    } else {
      assert (a + b)[1..] == a[1..] + b;
      HeaderConcat(a[1..], b);
      Associative(a[0] + CRLF, Joined(a[1..]), Header(b));
    }
  }

  function Joined(lines: seq<string>): string {
    if lines == [] then "" else lines[0] + CRLF + Joined(lines[1..])
  }

  /** Writes the public fields one after the other. */
  method WritePublic(fields: seq<Field>, buf: string) returns (out: string)
    ensures out == buf + Joined(FieldLines(Public(fields)))
  {
    hide FieldLines, Joined, Public;
    out := buf;
    var rest := fields;
    while rest != []
      invariant buf + Joined(FieldLines(Public(fields))) == out + Joined(FieldLines(Public(rest)))
      decreases |rest|
    {
      PublicStep(rest);
      if rest[0].name == "" || rest[0].name[0] != '_' {
        JoinedField(rest[0], Public(rest[1..]));
        Associative(out, FieldLine(rest[0]) + CRLF, Joined(FieldLines(Public(rest[1..]))));
        out := out + (rest[0].name + ": " + rest[0].value + CRLF);
      }
      rest := rest[1..];
    }
    NothingJoined();
  }

  lemma NothingJoined()
    ensures Joined(FieldLines(Public([]))) == ""
  {}

  lemma JoinedField(f: Field, fields: seq<Field>)
    ensures Joined(FieldLines([f] + fields)) == FieldLine(f) + CRLF + Joined(FieldLines(fields))
  {
    assert ([f] + fields)[1..] == fields;
    assert FieldLines([f] + fields)[1..] == FieldLines(fields);
  }

  lemma PublicStep(fields: seq<Field>)
    requires fields != []
    ensures fields == [fields[0]] + fields[1..]
    ensures Public(fields) == if fields[0].name != "" && fields[0].name[0] == '_' then Public(fields[1..])
                              else [fields[0]] + Public(fields[1..])
  {}

  /** `write_http_1_request`. */
  method WriteRequest(c: Crypto, hs: Handshake, buf: string) returns (out: string)
    ensures out == buf + Request(c, hs)
  {
    hide FieldLines, Joined, Public, Request, RequestLine, FieldLine;
    var fixed := FixedFields(c, hs);
    var head := RequestLine(Lookup(hs.fields, "_endpoint")) + CRLF;
    var lines := FieldLine(fixed[0]) + CRLF + (FieldLine(fixed[1]) + CRLF + (FieldLine(fixed[2]) + CRLF
                 + (FieldLine(fixed[3]) + CRLF + (FieldLine(fixed[4]) + CRLF))));
    FiveLines(fixed);
    out := buf + head + lines;
    out := WritePublic(hs.fields, out);
    out := out + CRLF;
    RequestText(c, hs);
    Regroup(buf, head, lines, Joined(FieldLines(Public(hs.fields))), CRLF);
  }

  lemma FiveLines(f: seq<Field>)
    requires |f| == 5
    ensures Joined(FieldLines(f)) == FieldLine(f[0]) + CRLF + (FieldLine(f[1]) + CRLF + (FieldLine(f[2]) + CRLF
                                     + (FieldLine(f[3]) + CRLF + (FieldLine(f[4]) + CRLF))))
  {
    OneLine(f[4]);
    JoinedField(f[3], f[4..]);
    JoinedField(f[2], f[3..]);
    JoinedField(f[1], f[2..]);
    JoinedField(f[0], f[1..]);
    hide *;
    assert f[4..] == [f[4]];
    assert [f[3]] + f[4..] == f[3..];
    assert [f[2]] + f[3..] == f[2..];
    assert [f[1]] + f[2..] == f[1..];
    assert [f[0]] + f[1..] == f;
  }

  lemma OneLine(f: Field)
    ensures Joined(FieldLines([f])) == FieldLine(f) + CRLF
  {
    JoinedField(f, []);
    assert [f] + [] == [f];
    assert FieldLine(f) + CRLF + "" == FieldLine(f) + CRLF;
  }

  lemma Regroup(buf: string, head: string, fixed: string, own: string, nl: string)
    ensures buf + head + fixed + own + nl == buf + (head + (fixed + (own + nl)))
  {}

  lemma RequestText(c: Crypto, hs: Handshake)
    ensures Request(c, hs) == RequestLine(Lookup(hs.fields, "_endpoint")) + CRLF
                              + (Joined(FieldLines(FixedFields(c, hs)))
                                 + (Joined(FieldLines(Public(hs.fields))) + CRLF))
  {
    var first := RequestLine(Lookup(hs.fields, "_endpoint"));
    var fixed, own := FieldLines(FixedFields(c, hs)), FieldLines(Public(hs.fields));
    FieldLinesConcat(FixedFields(c, hs), Public(hs.fields));
    HeaderConcat(own, []);
    assert own + [] == own;
    HeaderConcat(fixed, own);
    assert ([first] + (fixed + own))[1..] == fixed + own;
  }

  lemma {:induction false} FieldLinesConcat(a: seq<Field>, b: seq<Field>)
    ensures FieldLines(a + b) == FieldLines(a) + FieldLines(b)
  {
    if a == [] {
      assert [] + b == b;
    } else {
      assert (a + b)[1..] == a[1..] + b;
      FieldLinesConcat(a[1..], b);
      Associative([FieldLine(a[0])], FieldLines(a[1..]), FieldLines(b));
    }
  }

  // -- the server -------------------------------------------------------------

  datatype Upgrade = Refused
                   | Accepted(method_: string, uri: string, version: string, fields: map<string, string>,
                                key: seq<byte>)

  function ParseField(line: string): Option<Field> {
    var r := Find(line, ":");
    if r.None? then None
    else
      var name, value := Trim(line[..r.value]), Trim(line[r.value + 1..]);
      if name == "" then None else Some(Field(name, value))
  }

  function Put(m: map<string, string>, f: Option<Field>): map<string, string> {
    if f.None? then m else m[f.value.name := f.value.value]
  }

  function Collect(m: map<string, string>, lines: seq<string>): map<string, string>
    decreases |lines|
  {
    if lines == [] then m else Collect(Put(m, ParseField(lines[0])), lines[1..])
  }

  function AssignKey(c: Crypto, text: string): Option<seq<byte>> {
    if |text| == 24 && text[22..] == "==" then c.decode(text) else None
  }

  /** `handle_header` of the server up to its answer. */
  function HandleRequest(c: Crypto, http: string): Upgrade {
    var (first, rest) := Split(http, CRLF);
    var (m, uri, version) := Split2(first, " ");
    var fields := Collect(map[], Lines(rest));
    if m != "GET" || "Sec-WebSocket-Key" !in fields then Refused
    else
      var key := AssignKey(c, fields["Sec-WebSocket-Key"]);
      if key.None? then Refused else Accepted(m, uri, version, fields, key.value)
  }

  /** `for_each_line` over the field lines. */
  method CollectFields(input: string) returns (fields: map<string, string>)
    ensures fields == Collect(map[], Lines(input))
  {
    hide Find, ParseField, Put;
    fields := map[];
    var pos := 0;
    assert input[0..] == input;
    while true
      invariant pos <= |input|
      invariant Collect(map[], Lines(input)) == Collect(fields, Lines(input[pos..]))
      decreases |input| - pos
    {
      var lineEnd := Find(input[pos..], CRLF);
      if lineEnd.None? {
        break;
      }
      fields := Put(fields, ParseField(input[pos..][..lineEnd.value]));
      assert input[pos..][lineEnd.value + 2..] == input[pos + lineEnd.value + 2..];
      pos := pos + lineEnd.value + 2;
    }
  }

  method HandleHeader(c: Crypto, http: string) returns (res: Upgrade)
    ensures res == HandleRequest(c, http)
  {
    var (first, rest) := Split(http, CRLF);
    var (m, uri, version) := Split2(first, " ");
    if m != "GET" {
      return Refused;
    }
    var fields := CollectFields(rest);
    if "Sec-WebSocket-Key" !in fields {
      return Refused;
    }
    var key := AssignKey(c, fields["Sec-WebSocket-Key"]);
    if key.None? {
      return Refused;
    }
    return Accepted(m, uri, version, fields, key.value);
  }

  // -- the response -----------------------------------------------------------

  const STATUS_LINE := "HTTP/1.1" + " " + "101" + " " + "Switching Protocols"

  function ResponseFields(accept: string): seq<Field> {
    [Field("Upgrade", "websocket"), Field("Connection", "Upgrade"), Field("Sec-WebSocket-Accept", accept)]
  }

  /** `write_http_1_response`. */
  function Response(c: Crypto, key: seq<byte>): string {
    Header([STATUS_LINE] + FieldLines(ResponseFields(ResponseKey(c, key))))
  }

  datatype Checks = Checks(status: bool, upgrade: bool, connection: bool, accept: bool)

  function Check(ck: Checks, wsKey: string, line: string): Checks {
    if StartsWith(line, "HTTP/1") then ck.(status := Split2(line, " ").1 == "101")
    else
      var (left, right) := Split(line, ":");
      var (name, value) := (TrimText(left), TrimText(right));
      if name == "Upgrade" then ck.(upgrade := LowercaseEqual(value, "websocket"))
      else if name == "Connection" then ck.(connection := LowercaseEqual(value, "upgrade"))
      else if name == "Sec-WebSocket-Accept" then ck.(accept := value == wsKey)
      else ck
  }

  function CheckAll(ck: Checks, wsKey: string, lines: seq<string>): Checks
    decreases |lines|
  {
    if lines == [] then ck else CheckAll(if lines[0] == "" then ck else Check(ck, wsKey, lines[0]), wsKey, lines[1..])
  }

  predicate IsValidResponse(c: Crypto, key: seq<byte>, http: string) {
    CheckAll(Checks(false, false, false, false), ResponseKey(c, key), Lines(http)) == Checks(true, true, true, true)
  }

  class ResponseChecker {
    const wsKey: string
    var hasStatus101: bool
    var hasUpgradeField: bool
    var hasConnectionField: bool
    var hasWsAcceptField: bool

    function Flags(): Checks
      reads this
    {
      Checks(hasStatus101, hasUpgradeField, hasConnectionField, hasWsAcceptField)
    }

    constructor (key: string)
      ensures wsKey == key && Flags() == Checks(false, false, false, false)
    {
      wsKey := key;
      hasStatus101, hasUpgradeField, hasConnectionField, hasWsAcceptField := false, false, false, false;
    }

    method CheckLine(line: string)
      modifies this
      ensures Flags() == Check(old(Flags()), wsKey, line)
    {
      if StartsWith(line, "HTTP/1") {
        hasStatus101 := Split2(line, " ").1 == "101";
      } else {
        var (left, right) := Split(line, ":");
        var name := TrimInPlace(left);
        var value := TrimInPlace(right);
        if name == "Upgrade" {
          hasUpgradeField := LowercaseEqual(value, "websocket");
        } else if name == "Connection" {
          hasConnectionField := LowercaseEqual(value, "upgrade");
        } else if name == "Sec-WebSocket-Accept" {
          hasWsAcceptField := value == wsKey;
        }
      }
    }
  }

  /** `is_valid_http_1_response`: `for_each_http_line` with a `response_checker`. */
  method ValidateResponse(c: Crypto, key: seq<byte>, http: string) returns (ok: bool)
    ensures ok == IsValidResponse(c, key, http)
  {
    hide Check, Find;
    var checker := new ResponseChecker(ResponseKey(c, key));
    var lines := http;
    while true
      invariant checker.wsKey == ResponseKey(c, key)
      invariant CheckAll(Checks(false, false, false, false), ResponseKey(c, key), Lines(http)) ==
                CheckAll(checker.Flags(), ResponseKey(c, key), Lines(lines))
      decreases |lines|
    {
      var pos := Find(lines, CRLF);
      if pos.None? {
        break;
      }
      var line := lines[..pos.value];
      if line != "" {
        checker.CheckLine(line);
      }
      lines := lines[pos.value + 2..];
    }
    ok := checker.Flags() == Checks(true, true, true, true);
  }
}
