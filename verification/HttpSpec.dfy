/** What HttpContext computes, as functions on byte strings: requests are parsed line by line,
    so it does not matter how the bytes were cut into messages. */
module HttpSpec {
  import opened Basics
  import opened Bytes
  import opened Buffers

  datatype Method = Invalid | Get | Post | Head | Put | Delete

  datatype Version = Unknown | Http10 | Http11

  datatype ParseState = ExpectRequestLine | ExpectHeaders | ExpectBody | GotAll

  /** HttpRequest without the receive time. */
  datatype Request = Request(verb: Method, version: Version, path: seq<byte>, query: seq<byte>,
                             headers: map<seq<byte>, seq<byte>>)

  datatype Parsed = Parsed(state: ParseState, request: Request, rest: seq<byte>, ok: bool)

  const SP: byte := 32
  const COLON: byte := 58
  const QUESTION: byte := 63
  const ZERO: byte := 48
  const ONE: byte := 49
  const CRLF: seq<byte> := [CR, LF]

  function Ascii(s: string): (b: seq<byte>)
    ensures |b| == |s|
  {
    seq(|s|, i requires 0 <= i < |s| => s[i] as int % 256)
  }

  /** isspace in the C locale. */
  predicate IsSpace(b: byte) {
    b == SP || 9 <= b <= 13
  }

  /** std::find: the first position of `b`, or the end. */
  function Find(s: seq<byte>, b: byte): (k: nat)
    ensures k <= |s| && forall i :: 0 <= i < k ==> s[i] != b
    ensures k < |s| ==> s[k] == b
  {
    if s == [] || s[0] == b then 0 else 1 + Find(s[1..], b)
  }

  function FindCrlf(s: seq<byte>): (k: int)
    ensures IsFirstCrlf(s, k)
  {
    if |s| < 2 then -1
    else if CrlfAt(s, 0) then 0
    else
      var k := FindCrlf(s[1..]);
      assert forall i :: 0 < i < |s| - 1 ==> (CrlfAt(s, i) <==> CrlfAt(s[1..], i - 1));
      if k < 0 then -1 else k + 1
  }

  lemma FirstCrlfUnique(s: seq<byte>, i: int, j: int)
    requires IsFirstCrlf(s, i) && IsFirstCrlf(s, j)
    ensures i == j
  {
  }

  function MethodOf(m: seq<byte>): Method {
    if m == Ascii("GET") then Get
    else if m == Ascii("POST") then Post
    else if m == Ascii("HEAD") then Head
    else if m == Ascii("PUT") then Put
    else if m == Ascii("DELETE") then Delete
    else Invalid
  }

  /** The request line; fields are set as far as parsing gets, also when it fails. */
  function RequestLine(r: Request, line: seq<byte>): (Request, bool) {
    var space := Find(line, SP);
    if space == |line| then (r, false)
    else
      var r1 := r.(verb := MethodOf(line[..space]));
      if r1.verb == Invalid then (r1, false)
      else
        var target := line[space + 1..];
        var end := Find(target, SP);
        if end == |target| then (r1, false)
        else
          Protocol(Target(r1, target[..end]), target[end + 1..])
  }

  function Target(r: Request, target: seq<byte>): Request {
    var question := Find(target, QUESTION);
    if question != |target| then r.(path := target[..question], query := target[question..])
    else r.(path := target)
  }

  function Protocol(r: Request, version: seq<byte>): (Request, bool) {
    if |version| == 8 && version[..7] == Ascii("HTTP/1.") then
      if version[7] == ONE then (r.(version := Http11), true)
      else if version[7] == ZERO then (r.(version := Http10), true)
      else (r, false)
    else (r, false)
  }

  // ---- Which request lines are accepted ----

  /** A request line as section 3.1.1 of RFC 7230 writes it. */
  function Line(verb: seq<byte>, target: seq<byte>, minor: byte): seq<byte> {
    verb + [SP] + (target + [SP] + (Ascii("HTTP/1.") + [minor]))
  }

  predicate MinorVersion(b: byte) {
    b == ZERO || b == ONE
  }

  lemma FindIn(a: seq<byte>, b: byte, rest: seq<byte>)
    requires b !in a
    ensures Find(a + [b] + rest, b) == |a|
    ensures (a + [b] + rest)[..|a|] == a && (a + [b] + rest)[|a| + 1..] == rest
  {
    var s := a + [b] + rest;
    assert forall i :: 0 <= i < |a| ==> s[i] == a[i] && a[i] in a;
    assert s[|a|] == b;
    assert s[|a| + 1..] == rest;
  }

  lemma VerbsHaveNoSpace(verb: seq<byte>)
    requires MethodOf(verb) != Invalid
    ensures SP !in verb
  {
    assert Ascii("GET") == [71, 69, 84] && Ascii("PUT") == [80, 85, 84];
    assert Ascii("POST") == [80, 79, 83, 84] && Ascii("HEAD") == [72, 69, 65, 68];
    assert Ascii("DELETE") == [68, 69, 76, 69, 84, 69];
  }

  /** The path ends where the query, question mark included, begins. */
  lemma TargetSplits(r: Request, target: seq<byte>)
    ensures var t := Target(r, target);
            t.verb == r.verb && t.headers == r.headers && t.version == r.version && 63 !in t.path &&
            (if 63 in target then t.path + t.query == target && t.query[..1] == [63]
             else t.path == target && t.query == r.query)
  {
    SplitAt(target, Find(target, QUESTION));
  }

  lemma SplitAt(s: seq<byte>, k: nat)
    requires k <= |s|
    ensures s[..k] + s[k..] == s
    ensures k < |s| ==> s[k..][..1] == [s[k]]
  {
  }

  /** Every well-formed line is accepted, and every field is what it says. */
  lemma LineAccepted(r: Request, verb: seq<byte>, target: seq<byte>, minor: byte)
    requires MethodOf(verb) != Invalid && SP !in target && MinorVersion(minor)
    ensures RequestLine(r, Line(verb, target, minor)) ==
            (Target(r.(verb := MethodOf(verb)), target).(version := if minor == ONE then Http11 else Http10), true)
  {
    var version := Ascii("HTTP/1.") + [minor];
    VerbsHaveNoSpace(verb);
    hide MethodOf, Target;
    FindIn(verb, SP, target + [SP] + version);
    FindIn(target, SP, version);
    assert version[..7] == Ascii("HTTP/1.");
  }

  lemma ProtocolAccepted(r: Request, version: seq<byte>)
    requires Protocol(r, version).1
    ensures |version| == 8 && MinorVersion(version[7]) && version == Ascii("HTTP/1.") + [version[7]]
  {
    assert version == version[..7] + [version[7]];
  }

  /** Nothing else is accepted. */
  lemma OnlyLinesAccepted(r: Request, line: seq<byte>) returns (verb: seq<byte>, target: seq<byte>, minor: byte)
    requires RequestLine(r, line).1
    ensures MethodOf(verb) != Invalid && SP !in target && MinorVersion(minor)
    ensures line == Line(verb, target, minor)
  {
    hide MethodOf, Target, Protocol, Ascii, MinorVersion;
    var space := Find(line, SP);
    var tail := line[space + 1..];
    var end := Find(tail, SP);
    verb, target := line[..space], tail[..end];
    var version := tail[end + 1..];
    ProtocolAccepted(Target(r.(verb := MethodOf(verb)), target), version);
    minor := version[7];
    Cut(tail, end);
    Cut(line, space);
  }

  lemma Cut(s: seq<byte>, k: nat)
    requires k < |s|
    ensures s == s[..k] + [s[k]] + s[k + 1..]
  {
  }

  // ---- Which method a name stands for ----

  /** methodString, byte by byte. */
  function MethodString(verb: Method): seq<byte> {
    match verb
    case Get => [71, 69, 84]
    case Post => [80, 79, 83, 84]
    case Head => [72, 69, 65, 68]
    case Put => [80, 85, 84]
    case Delete => [68, 69, 76, 69, 84, 69]
    case Invalid => [85, 78, 75, 78, 79, 87, 78]
  }

  lemma MethodNames(m: seq<byte>)
    ensures MethodOf(m) == Get <==> m == [71, 69, 84]
    ensures MethodOf(m) == Post <==> m == [80, 79, 83, 84]
    ensures MethodOf(m) == Head <==> m == [72, 69, 65, 68]
    ensures MethodOf(m) == Put <==> m == [80, 85, 84]
    ensures MethodOf(m) == Delete <==> m == [68, 69, 76, 69, 84, 69]
  {
    assert Ascii("GET") == [71, 69, 84] && Ascii("PUT") == [80, 85, 84];
    assert Ascii("POST") == [80, 79, 83, 84] && Ascii("HEAD") == [72, 69, 65, 68];
    assert Ascii("DELETE") == [68, 69, 76, 69, 84, 69];
    assert [71, 69, 84][0] == 71 && [80, 85, 84][0] == 80 && [80, 85, 84][1] == 85;
    assert [80, 79, 83, 84][0] == 80 && [80, 79, 83, 84][1] == 79 && [72, 69, 65, 68][0] == 72;
    assert [68, 69, 76, 69, 84, 69][0] == 68;
  }

  /** The bytes of a name, then those of ` target HTTP/1.x`. */
  function LineBytes(name: seq<byte>, target: seq<byte>, minor: byte): seq<byte> {
    name + [32] + target + [32, 72, 84, 84, 80, 47, 49, 46, minor]
  }

  lemma LineBytesAre(name: seq<byte>, target: seq<byte>, minor: byte)
    ensures LineBytes(name, target, minor) == Line(name, target, minor)
  {
    assert Ascii("HTTP/1.") == [72, 84, 84, 80, 47, 49, 46];
  }

  /** What the bytes of a request line mean: the line printed with a method's name is read as that method,
      and with minor version 0 or 1 as that version. */
  lemma PrintedLineReadBack(r: Request, verb: Method, target: seq<byte>, minor: byte)
    requires verb != Invalid && 32 !in target && (minor == 48 || minor == 49)
    ensures RequestLine(r, LineBytes(MethodString(verb), target, minor)).1
    ensures var t := RequestLine(r, LineBytes(MethodString(verb), target, minor)).0;
            && t.verb == verb && t.version == (if minor == 48 then Http10 else Http11) && t.headers == r.headers
            && (if 63 in target then t.path + t.query == target && 63 !in t.path && t.query[..1] == [63]
                else t.path == target && t.query == r.query)
  {
    hide RequestLine, MethodOf, Line, LineBytes, Target;
    MethodNames(MethodString(verb));
    LineBytesAre(MethodString(verb), target, minor);
    LineAccepted(r, MethodString(verb), target, minor);
    TargetSplits(r.(verb := verb), target);
  }

  /** The five names, spelled out. */
  lemma NamesReadBack(r: Request, target: seq<byte>, minor: byte)
    requires 32 !in target && (minor == 48 || minor == 49)
    ensures RequestLine(r, LineBytes([71, 69, 84], target, minor)).0.verb == Get
    ensures RequestLine(r, LineBytes([80, 79, 83, 84], target, minor)).0.verb == Post
    ensures RequestLine(r, LineBytes([72, 69, 65, 68], target, minor)).0.verb == Head
    ensures RequestLine(r, LineBytes([80, 85, 84], target, minor)).0.verb == Put
    ensures RequestLine(r, LineBytes([68, 69, 76, 69, 84, 69], target, minor)).0.verb == Delete
  {
    hide RequestLine, LineBytes;
    PrintedLineReadBack(r, Get, target, minor);
    PrintedLineReadBack(r, Post, target, minor);
    PrintedLineReadBack(r, Head, target, minor);
    PrintedLineReadBack(r, Put, target, minor);
    PrintedLineReadBack(r, Delete, target, minor);
  }

  /** And only such lines are accepted: the first word is the name of the method that is set. */
  lemma AcceptedLineIsPrinted(r: Request, line: seq<byte>) returns (target: seq<byte>, minor: byte)
    requires RequestLine(r, line).1
    ensures 32 !in target && (minor == 48 || minor == 49)
    ensures RequestLine(r, line).0.verb != Invalid
    ensures line == LineBytes(MethodString(RequestLine(r, line).0.verb), target, minor)
  {
    hide RequestLine, MethodOf, Line, LineBytes, Target;
    var verb;
    verb, target, minor := OnlyLinesAccepted(r, line);
    MethodNames(verb);
    LineBytesAre(verb, target, minor);
    LineAccepted(r, verb, target, minor);
    TargetSplits(r.(verb := MethodOf(verb)), target);
  }

  function TrimLeft(s: seq<byte>): seq<byte> {
    if s != [] && IsSpace(s[0]) then TrimLeft(s[1..]) else s
  }

  function TrimRight(s: seq<byte>): seq<byte> {
    if s != [] && IsSpace(s[|s| - 1]) then TrimRight(s[..|s| - 1]) else s
  }

  function Header(r: Request, line: seq<byte>, colon: nat): Request
    requires colon < |line|
  {
    r.(headers := r.headers[line[..colon] := TrimRight(TrimLeft(line[colon + 1..]))])
  }

  predicate Working(state: ParseState) {
    state == ExpectRequestLine || state == ExpectHeaders
  }

  /** parseRequest from a working state on everything in the buffer. */
  function Parse(state: ParseState, r: Request, s: seq<byte>): Parsed
    requires Working(state)
    decreases |s|
  {
    var k := FindCrlf(s);
    if k < 0 then Parsed(state, r, s, true)
    else
      var line, rest := s[..k], s[k + 2..];
      if state == ExpectRequestLine then
        var (r1, ok) := RequestLine(r, line);
        if ok then Parse(ExpectHeaders, r1, rest) else Parsed(state, r1, s, false)
      else
        var colon := Find(line, COLON);
        if colon < k then Parse(ExpectHeaders, Header(r, line, colon), rest)
        else Parsed(GotAll, r, rest, true)
  }

  predicate Stopped(p: Parsed) {
    !p.ok || p.state == GotAll
  }

  lemma CrlfStays(a: seq<byte>, b: seq<byte>)
    requires FindCrlf(a) >= 0
    ensures FindCrlf(a + b) == FindCrlf(a)
  {
    var k := FindCrlf(a);
    assert forall i :: 0 <= i <= k ==> (CrlfAt(a + b, i) <==> CrlfAt(a, i));
    FirstCrlfUnique(a + b, FindCrlf(a + b), k);
  }

  lemma CrlfFits(s: seq<byte>)
    ensures FindCrlf(s) >= 0 ==> FindCrlf(s) + 2 <= |s|
  {
  }

  /** One turn of the loop. */
  lemma ParseTurn(state: ParseState, r: Request, s: seq<byte>)
    requires Working(state)
    ensures var k := FindCrlf(s);
            && (k < 0 ==> Parse(state, r, s) == Parsed(state, r, s, true))
            && (k >= 0 ==> k + 2 <= |s|)
            && (k >= 0 && state == ExpectRequestLine ==>
                  Parse(state, r, s) ==
                    if RequestLine(r, s[..k]).1 then Parse(ExpectHeaders, RequestLine(r, s[..k]).0, s[k + 2..])
                    else Parsed(state, RequestLine(r, s[..k]).0, s, false))
            && (k >= 0 && state == ExpectHeaders ==>
                  Parse(state, r, s) ==
                    if Find(s[..k], COLON) < k then
                      Parse(ExpectHeaders, Header(r, s[..k], Find(s[..k], COLON)), s[k + 2..])
                    else Parsed(GotAll, r, s[k + 2..], true))
  {
    hide RequestLine, Header, Find, FindCrlf, IsFirstCrlf, CrlfAt;
    CrlfFits(s);
  }

  /** Parsing what has arrived and then the rest is parsing everything at once. */
  lemma {:induction false} ParseInTwo(state: ParseState, r: Request, a: seq<byte>, b: seq<byte>)
    requires Working(state)
    ensures var p := Parse(state, r, a);
            (!Stopped(p) ==> Working(p.state) && FindCrlf(p.rest) < 0) &&
            Parse(state, r, a + b) ==
              if Stopped(p) then p.(rest := p.rest + b) else Parse(p.state, p.request, p.rest + b)
    decreases |a|
  {
    hide RequestLine, Header, Find, FindCrlf, IsFirstCrlf, CrlfAt;
    var k := FindCrlf(a);
    CrlfFits(a);
    CrlfFits(a + b);
    if k >= 0 {
      CrlfStays(a, b);
      var line, rest := a[..k], a[k + 2..];
      assert (a + b)[..k] == line && (a + b)[k + 2..] == rest + b;
      if state == ExpectRequestLine {
        var (r1, ok) := RequestLine(r, line);
        if ok { ParseInTwo(ExpectHeaders, r1, rest, b); }
      } else {
        var colon := Find(line, COLON);
        if colon < k { ParseInTwo(ExpectHeaders, Header(r, line, colon), rest, b); }
      }
    }
  }

  lemma ParseIdle(state: ParseState, r: Request, s: seq<byte>)
    requires Working(state) && FindCrlf(s) < 0
    ensures Parse(state, r, s) == Parsed(state, r, s, true)
  {
  }

  function Concat(chunks: seq<seq<byte>>): seq<byte> {
    if chunks == [] then [] else chunks[0] + Concat(chunks[1..])
  }

  /** One call per chunk, each chunk appended to what the calls before left in the buffer, up to
      the first GotAll or rejection.  Chunks not fed by then are counted as left over. */
  function Feed(state: ParseState, r: Request, left: seq<byte>, chunks: seq<seq<byte>>): Parsed
    requires Working(state)
    decreases |chunks|
  {
    if chunks == [] then Parsed(state, r, left, true)
    else
      var p := Parse(state, r, left + chunks[0]);
      if Stopped(p) then p.(rest := p.rest + Concat(chunks[1..]))
      else
        ParseInTwo(state, r, left + chunks[0], []);
        Feed(p.state, p.request, p.rest, chunks[1..])
  }

  /** Chunking independence: for every split of every byte string into messages, the state, the
      request, the answer and the left-over bytes are those of one call on the whole. */
  lemma {:induction false} ChunkingIndependence(state: ParseState, r: Request, left: seq<byte>, chunks: seq<seq<byte>>)
    requires Working(state) && (chunks == [] ==> FindCrlf(left) < 0)
    ensures Feed(state, r, left, chunks) == Parse(state, r, left + Concat(chunks))
    decreases |chunks|
  {
    hide RequestLine, Header, Find, Parse, FindCrlf;
    if chunks == [] {
      ParseIdle(state, r, left);
      assert left + Concat(chunks) == left;
    } else {
      var a, b := left + chunks[0], Concat(chunks[1..]);
      var p := Parse(state, r, a);
      ParseInTwo(state, r, a, b);
      assert left + Concat(chunks) == a + b;
      if !Stopped(p) { ChunkingIndependence(p.state, p.request, p.rest, chunks[1..]); }
    }
  }

  // ---- The header printer and the parser ----

  /** What appendToBuffer writes for the headers, in the order it iterates over them. */
  function Block(order: seq<seq<byte>>, headers: map<seq<byte>, seq<byte>>): seq<byte>
    requires forall name :: name in order ==> name in headers
  {
    if order == [] then []
    else
      Block(order[..|order| - 1], headers) + HeaderLine(order[|order| - 1], headers[order[|order| - 1]]) + CRLF
  }

  lemma BlockAppend(order: seq<seq<byte>>, name: seq<byte>, headers: map<seq<byte>, seq<byte>>)
    requires name in headers && forall n :: n in order ==> n in headers
    ensures Block(order + [name], headers) == Block(order, headers) + (HeaderLine(name, headers[name]) + CRLF)
  {
    assert (order + [name])[..|order|] == order;
    Regroup(Block(order, headers), HeaderLine(name, headers[name]), CRLF);
  }

  function HeaderLine(name: seq<byte>, value: seq<byte>): seq<byte> {
    name + [COLON, SP] + value
  }

  ghost predicate CleanName(name: seq<byte>) {
    COLON !in name && CR !in name && LF !in name
  }

  ghost predicate CleanValue(value: seq<byte>) {
    && CR !in value && LF !in value
    && (value != [] ==> !IsSpace(value[0]) && !IsSpace(value[|value| - 1]))
  }

  ghost predicate Clean(headers: map<seq<byte>, seq<byte>>) {
    forall name :: name in headers ==> CleanName(name) && CleanValue(headers[name])
  }

  lemma LineEnds(line: seq<byte>, rest: seq<byte>)
    requires CR !in line
    ensures var s := line + CRLF + rest;
            FindCrlf(s) == |line| && s[..|line|] == line && s[|line| + 2..] == rest
  {
    var s := line + CRLF + rest;
    assert forall i :: 0 <= i < |line| ==> s[i] == line[i] && s[i] != CR;
    FirstCrlfUnique(s, FindCrlf(s), |line|);
  }

  lemma HeaderLineParses(r: Request, name: seq<byte>, value: seq<byte>)
    requires CleanName(name) && CleanValue(value)
    ensures var line := HeaderLine(name, value);
            CR !in line && Find(line, COLON) == |name| &&
            Header(r, line, |name|) == r.(headers := r.headers[name := value])
  {
    var line := HeaderLine(name, value);
    assert line[|name|] == COLON && line[..|name|] == name;
    assert forall i :: 0 <= i < |name| ==> line[i] == name[i] && line[i] != COLON;
    assert line[|name| + 1..] == [SP] + value;
    assert TrimLeft([SP] + value) == TrimLeft(value) by { assert ([SP] + value)[1..] == value; }
    assert TrimLeft(value) == value && TrimRight(value) == value;
  }

  lemma OneHeader(r: Request, name: seq<byte>, value: seq<byte>, rest: seq<byte>)
    requires CleanName(name) && CleanValue(value)
    ensures Parse(ExpectHeaders, r, HeaderLine(name, value) + CRLF + rest) ==
            Parse(ExpectHeaders, r.(headers := r.headers[name := value]), rest)
  {
    hide FindCrlf, Find, TrimLeft, TrimRight, RequestLine, Header;
    LineEnds(HeaderLine(name, value), rest);
    HeaderLineParses(r, name, value);
  }

  /** What the printer writes for any header map is read back as that map. */
  lemma {:induction false} HeadersRoundTrip(r: Request, order: seq<seq<byte>>, headers: map<seq<byte>, seq<byte>>,
                                            rest: seq<byte>)
    requires Clean(headers) && forall name :: name in order ==> name in headers
    ensures Parse(ExpectHeaders, r, Block(order, headers) + rest) ==
            Parse(ExpectHeaders, r.(headers := r.headers + Restrict(headers, order)), rest)
    decreases |order|
  {
    hide Parse;
    if order == [] {
      assert Block(order, headers) + rest == rest;
      assert r.headers + Restrict(headers, order) == r.headers;
    } else {
      var init, name := order[..|order| - 1], order[|order| - 1];
      var line := HeaderLine(name, headers[name]) + CRLF;
      HeadersRoundTrip(r, init, headers, line + rest);
      assert Block(order, headers) + rest == Block(init, headers) + (line + rest);
      var r1 := r.(headers := r.headers + Restrict(headers, init));
      OneHeader(r1, name, headers[name], rest);
      assert forall n :: n in order <==> n in init || n == name;
      assert r1.headers[name := headers[name]] == r.headers + Restrict(headers, order);
    }
  }

  ghost predicate Blanks(s: seq<byte>) {
    forall b :: b in s ==> b in {9, 11, 12, 32}
  }

  lemma BlanksPart(s: seq<byte>, i: nat, j: nat)
    requires Blanks(s) && i <= j <= |s|
    ensures Blanks(s[i..j])
  {
    forall k | 0 <= k < j - i ensures s[i..j][k] in s {
      assert s[i..j][k] == s[i + k];
    }
  }

  lemma {:induction false} LeftBlanksGo(left: seq<byte>, s: seq<byte>)
    requires Blanks(left) && (s != [] ==> s[0] !in {9, 10, 11, 12, 13, 32})
    ensures TrimLeft(left + s) == s
  {
    if left == [] {
      assert left + s == s;
    } else {
      assert left[0] in left && (left + s)[1..] == left[1..] + s;
      BlanksPart(left, 1, |left|);
      assert left[1..|left|] == left[1..];
      LeftBlanksGo(left[1..], s);
    }
  }

  lemma {:induction false} RightBlanksGo(s: seq<byte>, right: seq<byte>)
    requires Blanks(right) && (s != [] ==> s[|s| - 1] !in {9, 10, 11, 12, 13, 32})
    ensures TrimRight(s + right) == s
  {
    if right == [] {
      assert s + right == s;
    } else {
      assert right[|right| - 1] in right && (s + right)[..|s + right| - 1] == s + right[..|right| - 1];
      BlanksPart(right, 0, |right| - 1);
      assert right[0..|right| - 1] == right[..|right| - 1];
      RightBlanksGo(s, right[..|right| - 1]);
    }
  }

  lemma BlanksGo(left: seq<byte>, value: seq<byte>, right: seq<byte>)
    requires Blanks(left) && Blanks(right)
    requires value != [] ==> value[0] !in {9, 10, 11, 12, 13, 32} && value[|value| - 1] !in {9, 10, 11, 12, 13, 32}
    ensures TrimRight(TrimLeft(left + value + right)) == value
  {
    if value == [] {
      assert left + value + right == (left + right) + [];
      LeftBlanksGo(left + right, []);
    } else {
      assert left + value + right == left + (value + right);
      LeftBlanksGo(left, value + right);
      RightBlanksGo(value, right);
    }
  }

  /** Any number of blanks around the value of a header is dropped, and none inside it. */
  lemma BlanksAroundValue(r: Request, name: seq<byte>, left: seq<byte>, value: seq<byte>, right: seq<byte>,
                          rest: seq<byte>)
    requires 58 !in name && 13 !in name && 13 !in value && Blanks(left) && Blanks(right)
    requires value != [] ==> value[0] !in {9, 10, 11, 12, 13, 32} && value[|value| - 1] !in {9, 10, 11, 12, 13, 32}
    ensures Parse(ExpectHeaders, r, name + [58] + (left + value + right) + [13, 10] + rest) ==
            Parse(ExpectHeaders, r.(headers := r.headers[name := value]), rest)
  {
    hide FindCrlf, TrimLeft, TrimRight, RequestLine, Find;
    var line := name + [58] + (left + value + right);
    assert CRLF == [13, 10];
    LineEnds(line, rest);
    FindIn(name, COLON, left + value + right);
    BlanksGo(left, value, right);
  }

  lemma EmptyLine(r: Request, body: seq<byte>)
    ensures Parse(ExpectHeaders, r, CRLF + body) == Parsed(GotAll, r, body, true)
  {
    assert CrlfAt(CRLF + body, 0);
    assert (CRLF + body)[2..] == body;
  }

  /** Header block, empty line and body are read back as the headers, leaving the body. */
  lemma MessageRoundTrip(r: Request, order: seq<seq<byte>>, headers: map<seq<byte>, seq<byte>>, body: seq<byte>)
    requires Clean(headers) && Enumerates(order, headers)
    ensures Parse(ExpectHeaders, r, Block(order, headers) + CRLF + body) ==
            Parsed(GotAll, r.(headers := r.headers + headers), body, true)
  {
    hide Parse, Block, Clean, Restrict;
    HeadersRoundTrip(r, order, headers, CRLF + body);
    EmptyLine(r.(headers := r.headers + headers), body);
    Regroup(Block(order, headers), CRLF, body);
    RestrictAll(headers, order);
  }

  lemma RestrictAll(headers: map<seq<byte>, seq<byte>>, order: seq<seq<byte>>)
    requires Enumerates(order, headers)
    ensures Restrict(headers, order) == headers
  {
  }
}
