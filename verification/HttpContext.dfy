/** HttpRequest, HttpContext and HttpResponse over Buffer, proved against HttpSpec. */
module Http {
  import opened Basics
  import opened Bytes
  import opened Buffers
  import opened HttpSpec

  class HttpRequest {
    var verb: Method
    var version: Version
    var path: seq<byte>
    var query: seq<byte>
    var headers: map<seq<byte>, seq<byte>>
    var receiveTime: int

    ghost function Value(): Request
      reads this
    {
      Request(verb, version, path, query, headers)
    }

    constructor ()
      ensures Value() == Request(Invalid, Unknown, [], [], map[])
    {
      verb, version, path, query, headers := Invalid, Unknown, [], [], map[];
    }

    method SetMethod(m: seq<byte>) returns (valid: bool)
      requires verb == Invalid
      modifies this`verb
      ensures verb == MethodOf(m) && (valid <==> verb != Invalid) && (valid ==> m == MethodString(verb))
    {
      MethodNames(m);
      if m == Ascii("GET") {
        verb := Get;
      } else if m == Ascii("POST") {
        verb := Post;
      } else if m == Ascii("HEAD") {
        verb := Head;
      } else if m == Ascii("PUT") {
        verb := Put;
      } else if m == Ascii("DELETE") {
        verb := Delete;
      } else {
        verb := Invalid;
      }
      return verb != Invalid;
    }

    method AddHeader(line: seq<byte>, colon: nat)
      requires colon < |line|
      modifies this`headers
      ensures Value() == Header(old(Value()), line, colon)
    {
      var field, start := line[..colon], colon + 1;
      while start < |line| && IsSpace(line[start])
        invariant start <= |line| && TrimLeft(line[start..]) == TrimLeft(line[colon + 1..])
      {
        start := start + 1;
      }
      var value := line[start..];
      while value != [] && IsSpace(value[|value| - 1])
        invariant TrimRight(value) == TrimRight(line[start..])
        decreases |value|
      {
        value := value[..|value| - 1];
      }
      headers := headers[field := value];
    }
  }

  class HttpContext {
    var state: ParseState
    const request: HttpRequest

    constructor ()
      ensures state == ExpectRequestLine && fresh(request)
      ensures request.Value() == Request(Invalid, Unknown, [], [], map[])
    {
      state := ExpectRequestLine;
      request := new HttpRequest();
    }

    method ProcessRequestLine(line: seq<byte>) returns (succeed: bool)
      requires request.verb == Invalid
      modifies request
      ensures (request.Value(), succeed) == RequestLine(old(request.Value()), line)
      ensures succeed ==> MethodString(request.verb) + [32] <= line
      ensures request.receiveTime == old(request.receiveTime)
    {
      hide Find, MethodOf, MethodString;
      succeed := false;
      var start := 0;
      var space := Find(line, SP);
      if space != |line| {
        var valid := request.SetMethod(line[..space]);
        if valid {
          var target := line[space + 1..];
          var end := Find(target, SP);
          if end != |target| {
            var t := target[..end];
            var question := Find(t, QUESTION);
            if question != end {
              request.path, request.query := t[..question], t[question..];
            } else {
              request.path := t;
            }
            var version := target[end + 1..];
            succeed := |version| == 8 && version[..7] == Ascii("HTTP/1.");
            if succeed {
              if version[7] == ONE {
                request.version := Http11;
              } else if version[7] == ZERO {
                request.version := Http10;
              } else {
                succeed := false;
              }
            }
          }
        }
      }
    }

    /** One turn of parseRequest's loop: stops it, or takes a line out of the buffer. */
    method ParseLine(buf: Buffer, receiveTime: int) returns (ok: bool, hasMore: bool)
      requires buf.Valid() && Working(state)
      requires state == ExpectRequestLine ==> request.verb == Invalid
      modifies this, request, buf
      ensures buf.Valid() && buf.buffer == old(buf.buffer)
      ensures hasMore ==> ok && state == ExpectHeaders
      ensures state == ExpectRequestLine ==> old(state) == ExpectRequestLine
      ensures hasMore ==> |buf.Contents()| < old(|buf.Contents()|)
      ensures hasMore ==> Parse(state, request.Value(), buf.Contents()) ==
                          Parse(old(state), old(request.Value()), old(buf.Contents()))
      ensures !hasMore ==> Parsed(state, request.Value(), buf.Contents(), ok) ==
                           Parse(old(state), old(request.Value()), old(buf.Contents()))
      ensures ok && state == ExpectRequestLine ==> request.verb == Invalid
      ensures request.receiveTime ==
                if old(state) == ExpectRequestLine && state != ExpectRequestLine then receiveTime
                else old(request.receiveTime)
    {
      hide RequestLine, Header, Find, FindCrlf, IsFirstCrlf, CrlfAt, Parse;
      ok, hasMore := true, true;
      var crlf := buf.FindCRLF();
      FirstCrlfUnique(buf.Contents(), crlf, FindCrlf(buf.Contents()));
      ParseTurn(state, request.Value(), buf.Contents());
      if crlf < 0 {
        hasMore := false;
      } else if state == ExpectRequestLine {
        ok := TakeRequestLine(buf, crlf, receiveTime);
        hasMore := ok;
      } else {
        hasMore := TakeHeader(buf, crlf);
      }
    }

    method TakeRequestLine(buf: Buffer, crlf: nat, receiveTime: int) returns (ok: bool)
      requires buf.Valid() && crlf + 2 <= |buf.Contents()|
      requires state == ExpectRequestLine && request.verb == Invalid
      modifies this, request, buf
      ensures buf.Valid() && buf.buffer == old(buf.buffer)
      ensures (request.Value(), ok) == RequestLine(old(request.Value()), old(buf.Contents())[..crlf])
      ensures state == if ok then ExpectHeaders else ExpectRequestLine
      ensures buf.Contents() == if ok then old(buf.Contents())[crlf + 2..] else old(buf.Contents())
      ensures request.receiveTime == if ok then receiveTime else old(request.receiveTime)
    {
      hide RequestLine;
      ok := ProcessRequestLine(buf.Peek(crlf));
      if ok {
        request.receiveTime := receiveTime;
        buf.Retrieve(crlf + 2);
        state := ExpectHeaders;
      }
    }

    method TakeHeader(buf: Buffer, crlf: nat) returns (hasMore: bool)
      requires buf.Valid() && crlf + 2 <= |buf.Contents()| && state == ExpectHeaders
      modifies this, request, buf
      ensures buf.Valid() && buf.buffer == old(buf.buffer)
      ensures var line := old(buf.Contents())[..crlf];
              && (hasMore <==> Find(line, COLON) < crlf)
              && request.Value() == if hasMore then Header(old(request.Value()), line, Find(line, COLON))
                                    else old(request.Value())
      ensures state == if hasMore then ExpectHeaders else GotAll
      ensures buf.Contents() == old(buf.Contents())[crlf + 2..] && request.receiveTime == old(request.receiveTime)
    {
      hide Header, Find;
      hasMore := true;
      var line := buf.Peek(crlf);
      var colon := Find(line, COLON);
      if colon != crlf {
        request.AddHeader(line, colon);
      } else {
        state := GotAll;
        hasMore := false;
      }
      buf.Retrieve(crlf + 2);
    }

    method ParseRequest(buf: Buffer, receiveTime: int) returns (ok: bool)
      requires buf.Valid() && Working(state)
      requires state == ExpectRequestLine ==> request.verb == Invalid
      modifies this, request, buf
      ensures buf.Valid() && buf.buffer == old(buf.buffer)
      ensures Parsed(state, request.Value(), buf.Contents(), ok) ==
                Parse(old(state), old(request.Value()), old(buf.Contents()))
      ensures ok && state == ExpectRequestLine ==> request.verb == Invalid
      ensures request.receiveTime ==
                if old(state) == ExpectRequestLine && state != ExpectRequestLine then receiveTime
                else old(request.receiveTime)
    {
      hide Parse;
      ok := true;
      var hasMore := true;
      while hasMore
        invariant buf.Valid() && buf.buffer == old(buf.buffer)
        invariant hasMore ==> ok && Working(state)
        invariant hasMore ==> Parse(state, request.Value(), buf.Contents()) ==
                              Parse(old(state), old(request.Value()), old(buf.Contents()))
        invariant !hasMore ==> Parsed(state, request.Value(), buf.Contents(), ok) ==
                               Parse(old(state), old(request.Value()), old(buf.Contents()))
        invariant ok && state == ExpectRequestLine ==> request.verb == Invalid
        invariant state == ExpectRequestLine ==> old(state) == ExpectRequestLine
        invariant request.receiveTime ==
                    if old(state) == ExpectRequestLine && state != ExpectRequestLine then receiveTime
                    else old(request.receiveTime)
        decreases hasMore, |buf.Contents()|
      {
        ok, hasMore := ParseLine(buf, receiveTime);
      }
    }

    /** What a server does with the messages of one connection: append each to the input buffer
        and parse, until the request is complete or refused.  The outcome is that of parsing
        all the bytes at once, however they were cut. */
    method ParseMessages(buf: Buffer, chunks: seq<seq<byte>>, receiveTime: int)
      returns (ok: bool, ghost unread: seq<byte>)
      requires buf.Valid() && buf.Contents() == [] && Working(state)
      requires state == ExpectRequestLine ==> request.verb == Invalid
      modifies this, request, buf, buf.buffer
      ensures buf.Valid()
      ensures Parsed(state, request.Value(), buf.Contents() + unread, ok) ==
                Parse(old(state), old(request.Value()), Concat(chunks))
    {
      hide Parse;
      ok, unread := true, Concat(chunks);
      ghost var done := [];
      ParseIdle(state, request.Value(), []);
      for i := 0 to |chunks|
        invariant buf.Valid() && (buf.buffer == old(buf.buffer) || fresh(buf.buffer))
        invariant ok && Working(state) && (state == ExpectRequestLine ==> request.verb == Invalid)
        invariant unread == Concat(chunks[i..]) && done + unread == Concat(chunks)
        invariant Parsed(state, request.Value(), buf.Contents(), true) == Parse(old(state), old(request.Value()), done)
      {
        ghost var left := buf.Contents();
        buf.Append(chunks[i]);
        ParseInTwo(old(state), old(request.Value()), done, chunks[i]);
        assert chunks[i..][1..] == chunks[i + 1..];
        Regroup(done, chunks[i], Concat(chunks[i + 1..]));
        done, unread := done + chunks[i], Concat(chunks[i + 1..]);
        assert done + unread == Concat(chunks);
        ok := ParseRequest(buf, receiveTime);
        if !ok || state == GotAll {
          ParseInTwo(old(state), old(request.Value()), done, unread);
          return;
        }
        ParseInTwo(old(state), old(request.Value()), done, []);
      }
      assert done == Concat(chunks);
    }
  }

  class HttpResponse {
    var headers: map<seq<byte>, seq<byte>>
    var statusCode: nat
    var statusMessage: seq<byte>
    var closeConnection: bool
    var body: seq<byte>
    var externalHeader: seq<byte>

    constructor (close: bool)
      ensures headers == map[] && body == [] && externalHeader == [] && closeConnection == close
    {
      headers, statusCode, statusMessage, closeConnection := map[], 0, [], close;
      body, externalHeader := [], [];
    }

    method AddHeader(key: seq<byte>, value: seq<byte>)
      modifies this`headers
      ensures headers == old(headers)[key := value]
    {
      headers := headers[key := value];
    }

    /** HTTP/1.1, a space, the code, a space and the message. */
    ghost function StatusLine(): seq<byte>
      reads this
    {
      [72, 84, 84, 80, 47, 49, 46, 49, 32] + Decimal(statusCode) + [32] + statusMessage + [13, 10]
    }

    /** The loop over headers_: each header once, in the order the map is iterated over. */
    method AppendHeaders(output: Buffer) returns (order: seq<seq<byte>>)
      requires output.Valid()
      modifies output, output.buffer
      ensures output.Valid() && (output.buffer == old(output.buffer) || fresh(output.buffer))
      ensures Enumerates(order, headers)
      ensures output.Contents() == old(output.Contents()) + Block(order, headers)
    {
      hide Block;
      ghost var start := output.Contents();
      BlockOfNothing(headers);
      order := [];
      var left := headers.Keys;
      while left != {}
        invariant output.Valid() && (output.buffer == old(output.buffer) || fresh(output.buffer))
        invariant forall name :: name in headers <==> name in order || name in left
        invariant forall name :: name in order ==> name !in left
        invariant forall i, j :: 0 <= i < j < |order| ==> order[i] != order[j]
        invariant output.Contents() == start + Block(order, headers)
        decreases left
      {
        var name :| name in left;
        AppendHeader(output, name, headers[name]);
        BlockAppend(order, name, headers);
        Regroup(start, Block(order, headers), HeaderLine(name, headers[name]) + CRLF);
        order, left := order + [name], left - {name};
      }
    }

    method AppendHeader(output: Buffer, name: seq<byte>, value: seq<byte>)
      requires output.Valid()
      modifies output, output.buffer
      ensures output.Valid() && (output.buffer == old(output.buffer) || fresh(output.buffer))
      ensures output.Contents() == old(output.Contents()) + (HeaderLine(name, value) + CRLF)
    {
      ghost var start := output.Contents();
      output.Append(name);
      output.Append([COLON, SP]);
      output.Append(value);
      output.Append(CRLF);
      assert output.Contents() == start + name + [COLON, SP] + value + CRLF;
      Regroup(start, name, [COLON, SP]);
      Regroup(start, name + [COLON, SP], value);
      Regroup(start, HeaderLine(name, value), CRLF);
    }

    method AppendStatusLine(output: Buffer)
      requires output.Valid()
      modifies output, output.buffer
      ensures output.Valid() && (output.buffer == old(output.buffer) || fresh(output.buffer))
      ensures output.Contents() == old(output.Contents()) + StatusLine()
    {
      hide Ascii, Decimal;
      StatusWords();
      ghost var start := output.Contents();
      var buf := Ascii("HTTP/1.1 ") + Decimal(statusCode) + Ascii(" ");
      output.Append(buf);
      output.Append(statusMessage);
      output.Append(CRLF);
      assert output.Contents() == start + buf + statusMessage + CRLF;
      Regroup(start, buf, statusMessage);
      Regroup(start, buf + statusMessage, CRLF);
    }

    /** Writes the response, with the Connection header set from closeConnection. */
    method AppendToBuffer(output: Buffer) returns (order: seq<seq<byte>>)
      requires output.Valid()
      modifies this`headers, output, output.buffer
      ensures output.Valid()
      ensures headers == WithConnection(old(headers), closeConnection)
      ensures Enumerates(order, headers)
      ensures output.Contents() ==
                old(output.Contents()) + StatusLine() + Block(order, headers) + externalHeader + CRLF + body
    {
      hide Ascii, Decimal, Block, Enumerates, WithConnection;
      AppendStatusLine(output);
      SetConnection();
      order := AppendHeaders(output);
      AppendTail(output);
    }

    method SetConnection()
      modifies this`headers
      ensures headers == WithConnection(old(headers), closeConnection)
    {
      hide Ascii;
      if closeConnection {
        AddHeader(Ascii("Connection"), Ascii("close"));
      } else {
        AddHeader(Ascii("Connection"), Ascii("Keep-Alive"));
      }
    }

    method AppendTail(output: Buffer)
      requires output.Valid()
      modifies output, output.buffer
      ensures output.Valid()
      ensures output.Contents() == old(output.Contents()) + externalHeader + CRLF + body
    {
      output.Append(externalHeader);
      output.Append(CRLF);
      output.Append(body);
    }
  }

  lemma StatusWords()
    ensures Ascii("HTTP/1.1 ") == [72, 84, 84, 80, 47, 49, 46, 49, 32] && Ascii(" ") == [32] && CRLF == [13, 10]
  {
  }

  lemma BlockOfNothing(headers: map<seq<byte>, seq<byte>>)
    ensures Block([], headers) == []
  {
  }

  function WithConnection(headers: map<seq<byte>, seq<byte>>, close: bool): map<seq<byte>, seq<byte>> {
    headers[Ascii("Connection") := if close then Ascii("close") else Ascii("Keep-Alive")]
  }

  /** "%d" of a non-negative number. */
  function Decimal(n: nat): (s: seq<byte>)
  {
    (if n < 10 then [] else Decimal(n / 10)) + [ZERO + n % 10]
  }

  /** The Connection header, byte by byte. */
  function ConnectionLine(close: bool): seq<byte> {
    [67, 111, 110, 110, 101, 99, 116, 105, 111, 110, 58, 32] +
    (if close then [99, 108, 111, 115, 101] else [75, 101, 101, 112, 45, 65, 108, 105, 118, 101]) + [13, 10]
  }

  lemma ConnectionIs(close: bool)
    ensures HeaderLine(Ascii("Connection"), if close then Ascii("close") else Ascii("Keep-Alive")) + CRLF ==
            ConnectionLine(close)
  {
    var name, colon := [67, 111, 110, 110, 101, 99, 116, 105, 111, 110], [58, 32];
    assert Ascii("Connection") == name;
    assert name + colon == [67, 111, 110, 110, 101, 99, 116, 105, 111, 110, 58, 32];
    if close {
      assert Ascii("close") == [99, 108, 111, 115, 101];
    } else {
      assert Ascii("Keep-Alive") == [75, 101, 101, 112, 45, 65, 108, 105, 118, 101];
    }
  }

  /** The headers that are printed say how the connection goes on. */
  lemma ConnectionPrinted(headers: map<seq<byte>, seq<byte>>, order: seq<seq<byte>>, close: bool)
    returns (before: seq<byte>, after: seq<byte>)
    requires Enumerates(order, WithConnection(headers, close))
    ensures Block(order, WithConnection(headers, close)) == before + ConnectionLine(close) + after
  {
    hide Block, Ascii, HeaderLine, ConnectionLine;
    var h := WithConnection(headers, close);
    ConnectionIs(close);
    assert Ascii("Connection") in order;
    before, after := LineOf(order, h, Ascii("Connection"));
  }

  /** Each header has its line in the block. */
  lemma {:induction false} LineOf(order: seq<seq<byte>>, headers: map<seq<byte>, seq<byte>>, name: seq<byte>)
    returns (before: seq<byte>, after: seq<byte>)
    requires name in order && forall n :: n in order ==> n in headers
    ensures Block(order, headers) == before + (HeaderLine(name, headers[name]) + CRLF) + after
  {
    var init, last := order[..|order| - 1], order[|order| - 1];
    assert order == init + [last];
    BlockAppend(init, last, headers);
    var line := HeaderLine(last, headers[last]) + CRLF;
    if name in init {
      before, after := LineOf(init, headers, name);
      after := after + line;
      Regroup(before + (HeaderLine(name, headers[name]) + CRLF), after[..|after| - |line|], line);
    } else {
      before, after := Block(init, headers), [];
      assert before + line + [] == before + line;
    }
  }

  /** The number decimal digits denote. */
  function Number(s: seq<byte>): int {
    if s == [] then 0 else 10 * Number(s[..|s| - 1]) + (s[|s| - 1] as int - 48)
  }

  /** The status is printed in decimal digits that denote it, without a leading zero. */
  lemma {:induction false} DecimalDenotes(n: nat)
    ensures Number(Decimal(n)) == n && (forall b :: b in Decimal(n) ==> 48 <= b <= 57)
    ensures n > 0 ==> Decimal(n)[0] != 48
  {
    if n >= 10 {
      DecimalDenotes(n / 10);
      assert Decimal(n)[..|Decimal(n)| - 1] == Decimal(n / 10);
    } else {
      assert Decimal(n) == [48 + n] && [48 + n][..0] == [];
    }
  }

  lemma ConnectionIsClean(headers: map<seq<byte>, seq<byte>>, close: bool)
    requires Clean(headers)
    ensures Clean(WithConnection(headers, close))
  {
    hide Ascii, IsSpace;
    LiteralsAreClean();
  }

  lemma LiteralsAreClean()
    ensures CleanName(Ascii("Connection")) && CleanValue(Ascii("close")) && CleanValue(Ascii("Keep-Alive"))
  {
    assert Ascii("Connection") == [67, 111, 110, 110, 101, 99, 116, 105, 111, 110];
    assert Ascii("close") == [99, 108, 111, 115, 101];
    assert Ascii("Keep-Alive") == [75, 101, 101, 112, 45, 65, 108, 105, 118, 101];
  }

  /** Everything appendToBuffer writes after the status line is read back by the ExpectHeaders
      state as the same headers, Connection included, and leaves exactly the body. */
  lemma ResponseReadBack(headers: map<seq<byte>, seq<byte>>, close: bool, order: seq<seq<byte>>, body: seq<byte>,
                         r: Request)
    requires Clean(headers) && Enumerates(order, WithConnection(headers, close))
    ensures Parse(ExpectHeaders, r, Block(order, WithConnection(headers, close)) + [] + CRLF + body) ==
            Parsed(GotAll, r.(headers := r.headers + WithConnection(headers, close)), body, true)
  {
    hide Parse, WithConnection;
    ConnectionIsClean(headers, close);
    var h := WithConnection(headers, close);
    MessageRoundTrip(r, order, h, body);
    assert Block(order, h) + [] + CRLF + body == Block(order, h) + CRLF + body;
  }
}
