/** The text functions the HTTP upgrade is built from: searching, splitting, trimming and lines. */
module HttpText {
  import opened Bytes
  import opened StreamLayer

  const CRLF := "\r\n"
  const END_OF_HEADER := "\r\n\r\n"

  predicate StartsWith(s: string, prefix: string) {
    prefix <= s
  }

  /** `std::search`: the position of the first occurrence of `sep`. */
  function Find(s: string, sep: string): (r: Option<nat>)
    requires sep != ""
    ensures r.Some? ==> r.value + |sep| <= |s|
  {
    if sep <= s then Some(0)
    else if s == "" then None
    else
      var r := Find(s[1..], sep);
      if r.None? then None else Some(r.value + 1)
  }

  function Split(s: string, sep: string): (string, string)
    requires sep != ""
  {
    var r := Find(s, sep);
    if r.None? then (s, "") else (s[..r.value], s[r.value + |sep|..])
  }

  function Split2(s: string, sep: string): (string, string, string)
    requires sep != ""
  {
    var (first, rest) := Split(s, sep);
    var (second, third) := Split(rest, sep);
    (first, second, third)
  }

  /** All complete lines of `s`. */
  function Lines(s: string): seq<string>
    decreases |s|
  {
    var r := Find(s, CRLF);
    if r.None? then [] else [s[..r.value]] + Lines(s[r.value + 2..])
  }

  function DropFront(s: string): string {
    if s != "" && s[0] == ' ' then DropFront(s[1..]) else s
  }

  function DropBack(s: string): string {
    if s != "" && s[|s| - 1] == ' ' then DropBack(s[..|s| - 1]) else s
  }

  function Trim(s: string): string {
    DropBack(DropFront(s))
  }

  predicate IsSpace(c: char) {
    c == ' ' || '\t' <= c <= '\r'
  }

  /** The `trim` of the client: text of white space only becomes empty. */
  function TrimText(s: string): string {
    if exists i :: 0 <= i < |s| && !IsSpace(s[i]) then Trim(s) else ""
  }

  function ToLower(c: char): char {
    if 'A' <= c <= 'Z' then c - 'A' + 'a' else c
  }

  predicate LowercaseEqual(x: string, y: string) {
    |x| == |y| && forall i :: 0 <= i < |x| ==> ToLower(x[i]) == ToLower(y[i])
  }

  /** `trim` as the source writes it: characters are removed one at a time at either end. */
  method TrimInPlace(text: string) returns (str: string)
    ensures str == TrimText(text)
  {
    str := text;
    if exists i :: 0 <= i < |str| && !IsSpace(str[i]) {
      while str != "" && str[0] == ' '
        invariant DropFront(text) == DropFront(str)
        decreases |str|
      {
        str := str[1..];
      }
      while str != "" && str[|str| - 1] == ' '
        invariant Trim(text) == DropBack(str)
        decreases |str|
      {
        str := str[..|str| - 1];
      }
    } else {
      str := "";
    }
  }

  // -- searching --------------------------------------------------------------

  predicate Free(s: string, c: char) {
    forall i :: 0 <= i < |s| ==> s[i] != c
  }

  /** What is found is the first occurrence, and nothing is found only where there is none. */
  lemma {:induction false} FindFirst(s: string, sep: string)
    requires sep != ""
    ensures var r := Find(s, sep);
            && (r.Some? ==> sep <= s[r.value..])
            && forall k :: 0 <= k < (if r.Some? then r.value else |s|) ==> !(sep <= s[k..])
  {
    if !(sep <= s) && s != "" {
      FindFirst(s[1..], sep);
      var r := Find(s, sep);
      forall k | 0 <= k < (if r.Some? then r.value else |s|) ensures !(sep <= s[k..]) {
        assert k > 0 ==> s[k..] == s[1..][k - 1..];
        assert s[0..] == s;
      }
    }
  }

  /** The first separator ends the first piece that does not contain its first character. */
  lemma {:induction false} FindAfter(x: string, sep: string, rest: string)
    requires sep != "" && Free(x, sep[0])
    ensures Find(x + sep + rest, sep) == Some(|x|)
  {
    if x == "" {
      assert x + sep + rest == sep + rest;
    } else {
      FindAfter(x[1..], sep, rest);
      assert (x + sep + rest)[1..] == x[1..] + sep + rest;
      assert (x + sep + rest)[0] == x[0];
    }
  }

  lemma {:induction false} FindNone(x: string, sep: string)
    requires sep != "" && Free(x, sep[0])
    ensures Find(x, sep) == None
  {
    if x != "" {
      FindNone(x[1..], sep);
    }
  }

  lemma {:induction false} FindShift(x: string, s: string, sep: string)
    requires sep != "" && forall k :: 0 <= k < |x| ==> !(sep <= (x + s)[k..])
    ensures Find(x + s, sep) == var r := Find(s, sep); if r.None? then None else Some(|x| + r.value)
  {
    if x == "" {
      assert x + s == s;
    } else {
      assert (x + s)[1..] == x[1..] + s;
      forall k | 0 <= k < |x[1..]| ensures !(sep <= (x[1..] + s)[k..]) {
        assert (x[1..] + s)[k..] == (x + s)[k + 1..];
      }
      assert !(sep <= (x + s)[0..]);
      FindShift(x[1..], s, sep);
    }
  }

  /** What has been found stays the first occurrence when more text follows. */
  lemma {:induction false} FindStable(a: string, b: string, sep: string)
    requires sep != "" && Find(a, sep).Some?
    ensures Find(a + b, sep) == Find(a, sep)
  {
    assert (a + b)[..|sep|] == a[..|sep|];
    if sep <= a {
      assert sep <= a + b;
    } else {
      assert !(sep <= a + b);
      assert (a + b)[1..] == a[1..] + b;
      FindStable(a[1..], b, sep);
    }
  }

  lemma SplitAfter(x: string, sep: string, rest: string)
    requires sep != "" && Free(x, sep[0])
    ensures Split(x + sep + rest, sep) == (x, rest)
  {
    FindAfter(x, sep, rest);
    var s := x + sep + rest;
    assert s[..|x|] == x && s[|x| + |sep|..] == rest;
  }

  // -- lines ------------------------------------------------------------------

  /** A header: every line and then an empty one. */
  function Header(lines: seq<string>): string {
    if lines == [] then CRLF else lines[0] + CRLF + Header(lines[1..])
  }

  predicate IsLine(s: string) {
    s != "" && Free(s, '\r')
  }

  predicate AreLines(lines: seq<string>) {
    forall i :: 0 <= i < |lines| ==> IsLine(lines[i])
  }

  lemma LinesOfOne(line: string, rest: string)
    requires IsLine(line)
    ensures Lines(line + CRLF + rest) == [line] + Lines(rest)
  {
    FindAfter(line, CRLF, rest);
    hide Find;
    var s := line + CRLF + rest;
    assert s[..|line|] == line && s[|line| + 2..] == rest;
  }

  lemma {:induction false} LinesOfHeader(lines: seq<string>)
    requires AreLines(lines)
    ensures Lines(Header(lines)) == lines + [""]
  {
    if lines == [] {
      FindAfter("", CRLF, "");
      assert "" + CRLF + "" == CRLF;
      FindNone("", CRLF);
    } else {
      hide Lines;
      LinesOfOne(lines[0], Header(lines[1..]));
      LinesOfHeader(lines[1..]);
      Associative([lines[0]], lines[1..], [""]);
      assert lines == [lines[0]] + lines[1..];
    }
  }

  /** The end of the header is found exactly where the header ends, whatever follows it. */
  lemma {:induction false} HeaderEnds(lines: seq<string>, rest: string)
    requires lines != [] && AreLines(lines)
    ensures |Header(lines)| >= 4
    ensures Find(Header(lines) + rest, END_OF_HEADER) == Some(|Header(lines)| - 4)
    decreases |lines|
  {
    var l := lines[0];
    if |lines| == 1 {
      assert lines[1..] == [];
      assert Header(lines) + rest == l + END_OF_HEADER + rest;
      FindAfter(l, END_OF_HEADER, rest);
    } else {
      var s := Header(lines[1..]) + rest;
      var x := l + CRLF;
      assert Header(lines) + rest == x + s;
      forall k | 0 <= k < |x| ensures !(END_OF_HEADER <= (x + s)[k..]) {
        if k == |l| {
          assert s[0] == lines[1][0];
          assert (x + s)[k..][2] == s[0];
        } else {
          assert (x + s)[k..][0] == x[k] != '\r';
        }
      }
      FindShift(x, s, END_OF_HEADER);
      HeaderEnds(lines[1..], rest);
    }
  }

  // -- trimming ---------------------------------------------------------------

  /** No space at either end. */
  predicate Trimmed(s: string) {
    s == "" || (s[0] != ' ' && s[|s| - 1] != ' ')
  }

  predicate Spaces(s: string) {
    forall i :: 0 <= i < |s| ==> s[i] == ' '
  }

  /** Trimming cuts off all spaces at either end, and nothing else. */
  lemma TrimCuts(s: string)
    ensures Trimmed(Trim(s))
    ensures exists a, b :: Spaces(a) && Spaces(b) && s == a + Trim(s) + b
  {
    var a := FrontCut(s);
    var b := BackCut(DropFront(s));
    assert s == a + (Trim(s) + b) == a + Trim(s) + b;
  }

  lemma TrimEmpties(s: string)
    ensures Trim(s) == "" <==> Spaces(s)
  {
    TrimCuts(s);
    var a, b :| Spaces(a) && Spaces(b) && s == a + Trim(s) + b;
    if Trim(s) != "" {
      assert s[|a|] == Trim(s)[0] != ' ';
    }
    hide Trim;
  }

  /** The `trim` of the client leaves nothing of a text exactly if that is white space only. */
  lemma TrimTextExactly(s: string)
    ensures TrimText(s) == "" <==> forall i :: 0 <= i < |s| ==> IsSpace(s[i])
  {
    TrimCuts(s);
    hide Trim;
  }

  lemma {:induction false} FrontCut(s: string) returns (a: string)
    ensures Spaces(a) && s == a + DropFront(s) && (DropFront(s) == "" || DropFront(s)[0] != ' ')
  {
    a := "";
    if s != "" && s[0] == ' ' {
      a := FrontCut(s[1..]);
      a := [' '] + a;
    }
  }

  lemma {:induction false} BackCut(s: string) returns (b: string)
    ensures Spaces(b) && s == DropBack(s) + b
    ensures DropBack(s) == "" || (DropBack(s)[|DropBack(s)| - 1] != ' ' && DropBack(s)[0] == s[0])
  {
    b := "";
    if s != "" && s[|s| - 1] == ' ' {
      b := BackCut(s[..|s| - 1]);
      b := b + [' '];
    }
  }

  lemma TrimmedStays(s: string)
    requires Trimmed(s)
    ensures Trim(s) == s && Trim(" " + s) == s
  {
    assert (" " + s)[1..] == s;
  }

  lemma TrimTextIsTrim(s: string, i: nat)
    requires i < |s| && !IsSpace(s[i])
    ensures TrimText(s) == Trim(s)
  {}
}
