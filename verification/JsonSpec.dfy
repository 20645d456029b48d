/** What SimpleJsonParser and its extractors compute.  The text is a C string: no NUL inside, and
    a NUL where it ends, so a cursor is a position up to and including the length. */
module JsonSpec {
  import opened Bytes

  const SP: byte := 32
  const QUOTE: byte := 34
  const COMMA: byte := 44
  const MINUS: byte := 45
  const COLON: byte := 58
  const LBRACK: byte := 91
  const BACKSLASH: byte := 92
  const RBRACK: byte := 93
  const LBRACE: byte := 123
  const RBRACE: byte := 125

  datatype Result = Fail | Ok(next: nat, str: seq<byte>)

  datatype Escape = Char(c: byte) | Unicode | Bad

  /** *ptr, with the terminating NUL. */
  function At(t: seq<byte>, p: nat): byte
    requires p <= |t|
  {
    if p < |t| then t[p] else 0
  }

  ghost predicate IsCString(t: seq<byte>) {
    0 !in t
  }

  function SkipSpaces(t: seq<byte>, p: nat): (q: nat)
    requires p <= |t|
    ensures p <= q <= |t|
    decreases |t| - p
  {
    if At(t, p) == SP then SkipSpaces(t, p + 1) else p
  }

  function EscapeOf(c: byte): Escape {
    if c == QUOTE || c == BACKSLASH || c == 47 then Char(c)
    else if c == 98 then Char(8)      // \b
    else if c == 102 then Char(12)    // \f
    else if c == 110 then Char(10)    // \n
    else if c == 114 then Char(13)    // \r
    else if c == 116 then Char(9)     // \t
    else if c == 117 then Unicode     // \u: four characters are skipped
    else Bad
  }

  /** The rest of a string, `s` being what has been read of it. */
  function Body(t: seq<byte>, p: nat, s: seq<byte>): (r: Result)
    requires p <= |t|
    ensures r.Ok? ==> p < r.next <= |t|
    decreases |t| - p
  {
    if p == |t| then Fail
    else if t[p] == QUOTE then Ok(SkipSpaces(t, p + 1), s)
    else if t[p] != BACKSLASH then Body(t, p + 1, s + [t[p]])
    else if p + 1 == |t| then Fail
    else
      match EscapeOf(t[p + 1])
      case Char(c) => Body(t, p + 2, s + [c])
      case Unicode => if p + 6 <= |t| then Body(t, p + 6, s) else Fail
      case Bad => Fail
  }

  function Str(t: seq<byte>, p: nat): (r: Result)
    requires p <= |t|
    ensures r.Ok? ==> p < r.next <= |t|
  {
    var q := SkipSpaces(t, p);
    if At(t, q) == QUOTE && q < |t| then Body(t, q + 1, []) else Fail
  }

  predicate StartsLiteral(c: byte) {
    c == 116 || c == 102 || c == 110 || c == MINUS || 48 <= c <= 57
  }

  predicate EndsLiteral(c: byte) {
    c == 0 || c == SP || c == COMMA || c == RBRACE || c == RBRACK
  }

  function LiteralEnd(t: seq<byte>, p: nat): (q: nat)
    requires p <= |t|
    ensures p <= q <= |t|
    ensures p < |t| && !EndsLiteral(t[p]) ==> p < q
    decreases |t| - p
  {
    if p < |t| && !EndsLiteral(t[p]) then LiteralEnd(t, p + 1) else p
  }

  /** Only the first letter decides what is checked; numbers are not checked at all. */
  predicate GoodLiteral(s: seq<byte>)
    requires s != []
  {
    && (s[0] == 116 ==> s == [116, 114, 117, 101])
    && (s[0] == 102 ==> s == [102, 97, 108, 115, 101])
    && (s[0] == 110 ==> s == [110, 117, 108, 108])
  }

  function Quoted(s: seq<byte>): seq<byte> {
    [QUOTE] + s + [QUOTE]
  }

  function Value(t: seq<byte>, p: nat, addQuotes: bool): (r: Result)
    requires p <= |t|
    ensures r.Ok? ==> p < r.next <= |t|
    decreases |t| - p, 2
  {
    var q := SkipSpaces(t, p);
    if q == |t| then Fail
    else if t[q] == QUOTE then
      match Str(t, q)
      case Fail => Fail
      case Ok(next, s) => Ok(next, if addQuotes then Quoted(s) else s)
    else if t[q] == LBRACE then Object(t, q)
    else if t[q] == LBRACK then Array(t, q)
    else if StartsLiteral(t[q]) then
      var e := LiteralEnd(t, q);
      if GoodLiteral(t[q..e]) then Ok(SkipSpaces(t, e), t[q..e]) else Fail
    else Fail
  }

  function Joined(s: seq<byte>, more: seq<byte>): seq<byte> {
    (if s != [] then s + [COMMA] else s) + more
  }

  function Close(t: seq<byte>, p: nat, open: byte, s: seq<byte>, close: byte): (r: Result)
    requires p <= |t|
    ensures r.Ok? ==> p < r.next <= |t|
  {
    if p < |t| && t[p] == close then Ok(SkipSpaces(t, p + 1), [open] + s + [close]) else Fail
  }

  function Array(t: seq<byte>, p: nat): (r: Result)
    requires p <= |t|
    ensures r.Ok? ==> p < r.next <= |t|
    decreases |t| - p, 1
  {
    var q := SkipSpaces(t, p);
    if q < |t| && t[q] == LBRACK then Items(t, q, []) else Fail
  }

  /** The loop of ExtractArrayAsString, at '[' or at a comma. */
  function Items(t: seq<byte>, p: nat, s: seq<byte>): (r: Result)
    requires p < |t|
    ensures r.Ok? ==> p < r.next <= |t|
    decreases |t| - p, 0
  {
    match Value(t, p + 1, true)
    case Fail => Close(t, p + 1, LBRACK, s, RBRACK)
    case Ok(next, v) =>
      if next < |t| && t[next] == COMMA then Items(t, next, Joined(s, v))
      else Close(t, next, LBRACK, Joined(s, v), RBRACK)
  }

  function Object(t: seq<byte>, p: nat): (r: Result)
    requires p <= |t|
    ensures r.Ok? ==> p < r.next <= |t|
    decreases |t| - p, 1
  {
    var q := SkipSpaces(t, p);
    if q < |t| && t[q] == LBRACE then Members(t, q, []) else Fail
  }

  /** The loop of ExtractObjectAsString, at '{' or at a comma. */
  function Members(t: seq<byte>, p: nat, s: seq<byte>): (r: Result)
    requires p < |t|
    ensures r.Ok? ==> p < r.next <= |t|
    decreases |t| - p, 0
  {
    match Str(t, p + 1)
    case Fail => Close(t, p + 1, LBRACE, s, RBRACE)
    case Ok(colon, name) =>
      if colon < |t| && t[colon] == COLON then
        match Value(t, colon + 1, true)
        case Fail => Fail
        case Ok(next, v) =>
          if next < |t| && t[next] == COMMA then Members(t, next, Joined(s, name + [COLON] + v))
          else Close(t, next, LBRACE, Joined(s, name + [COLON] + v), RBRACE)
      else Fail
  }

  /** std::map::insert keeps the first value of a name. */
  function Inserted(m: map<seq<byte>, seq<byte>>, name: seq<byte>, v: seq<byte>): map<seq<byte>, seq<byte>> {
    if name in m then m else m[name := v]
  }

  /** The loop of SimpleJsonParser, at '{' or at a comma. */
  function Fields(t: seq<byte>, p: nat, m: map<seq<byte>, seq<byte>>): (bool, map<seq<byte>, seq<byte>>)
    requires p < |t|
    decreases |t| - p
  {
    match Str(t, p + 1)
    case Fail => (At(t, p + 1) == RBRACE, m)
    case Ok(colon, name) =>
      if colon < |t| && t[colon] == COLON then
        match Value(t, colon + 1, false)
        case Fail => (false, m)
        case Ok(next, v) =>
          if next < |t| && t[next] == COMMA then Fields(t, next, Inserted(m, name, v))
          else (At(t, next) == RBRACE, Inserted(m, name, v))
      else (false, m)
  }

  function Parse(t: seq<byte>): (bool, map<seq<byte>, seq<byte>>) {
    var p := SkipSpaces(t, 0);
    if p < |t| && t[p] == LBRACE then Fields(t, p, map[]) else (false, map[])
  }

  // ---- The printer ----

  /** StringReplace: every occurrence from left to right, not looking at what was put in. */
  function Replaced(s: seq<byte>, lookFor: seq<byte>, with: seq<byte>): seq<byte>
    requires lookFor != []
    decreases |s|
  {
    if |s| < |lookFor| then s
    else if s[..|lookFor|] == lookFor then with + Replaced(s[|lookFor|..], lookFor, with)
    else [s[0]] + Replaced(s[1..], lookFor, with)
  }

  function Escaped(v: seq<byte>): seq<byte> {
    Replaced(v, [QUOTE], [BACKSLASH, QUOTE])
  }

  /** A string as it is printed. */
  function Printed(v: seq<byte>): seq<byte> {
    [QUOTE] + Escaped(v) + [QUOTE]
  }

  /** A value that is itself an object is printed as it is. */
  predicate IsRaw(v: seq<byte>) {
    |v| >= 2 && v[0] == LBRACE && v[|v| - 1] == RBRACE && Parse(v).0
  }

  /** A value as the printer shows it. */
  function Shown(v: seq<byte>): seq<byte> {
    if IsRaw(v) then v else Printed(v)
  }

  function Entry(name: seq<byte>, v: seq<byte>): seq<byte> {
    [QUOTE] + name + [QUOTE, COLON] + Shown(v)
  }

  function Entries(order: seq<seq<byte>>, m: map<seq<byte>, seq<byte>>): seq<byte>
    requires forall name :: name in order ==> name in m
    decreases |order|, 1
  {
    if order == [] then []
    else Entry(order[0], m[order[0]]) + Tail(order, m)
  }

  function Tail(order: seq<seq<byte>>, m: map<seq<byte>, seq<byte>>): seq<byte>
    requires order != [] && forall name :: name in order ==> name in m
    decreases |order|, 0
  {
    if |order| == 1 then [] else [COMMA] + Entries(order[1..], m)
  }

  function ObjectText(order: seq<seq<byte>>, m: map<seq<byte>, seq<byte>>): seq<byte>
    requires forall name :: name in order ==> name in m
  {
    [LBRACE] + Entries(order, m) + [RBRACE]
  }
}
