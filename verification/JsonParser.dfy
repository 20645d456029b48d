/** SimpleJsonParser, its extractors and the JSON printer of the configuration handler, as the
    source has them: cursors into a C string moved by loops, and mutual recursion.  Each extractor
    either succeeds and moves the caller's cursor forward, never past the terminating NUL, or
    fails and leaves cursor and string as they were. */
module JsonParser {
  import opened Basics
  import opened Bytes
  import opened JsonRoundTrip
  import opened JsonSpec
  import opened JsonStrings
  import JsonTrees

  /** The caller's cursor and string after a call. */
  ghost predicate Outcome(r: Result, ok: bool, ptr0: nat, str0: seq<byte>, ptr: nat, str: seq<byte>) {
    match r
    case Fail => !ok && ptr == ptr0 && str == str0
    case Ok(next, s) => ok && ptr == next && str == s
  }

  method Skip(t: seq<byte>, p0: nat) returns (p: nat)
    requires IsCString(t) && p0 <= |t|
    ensures p == SkipSpaces(t, p0)
  {
    p := p0;
    while At(t, p) != 0 && At(t, p) == SP
      invariant p <= |t| && SkipSpaces(t, p) == SkipSpaces(t, p0)
      decreases |t| - p
    {
      p := p + 1;
    }
  }

  lemma StringsRead(t: seq<byte>, p: nat)
    requires p <= |t|
    ensures forall xs, rest :: GoodPieces(xs) && TextAt(t, p, StringText(xs) + rest) ==>
              Str(t, p).Ok? && Str(t, p).str == Meaning(xs)
    ensures forall v, rest :: TextAt(t, p, [34] + Rfc(v) + [34] + rest) ==> Str(t, p).Ok? && Str(t, p).str == v
  {
    hide Str, StringText, Rfc, GoodPieces, TextAt;
    forall xs, rest | GoodPieces(xs) && TextAt(t, p, StringText(xs) + rest)
      ensures Str(t, p).Ok? && Str(t, p).str == Meaning(xs)
    {
      StringMeans(t, p, xs, rest);
    }
    forall v, rest | TextAt(t, p, [34] + Rfc(v) + [34] + rest) ensures Str(t, p).Ok? && Str(t, p).str == v {
      EscapedReadBack(t, p, v, rest);
    }
  }

  method ExtractString(t: seq<byte>, ptr0: nat, str0: seq<byte>) returns (ok: bool, ptr: nat, str: seq<byte>)
    requires IsCString(t) && ptr0 <= |t|
    ensures Outcome(Str(t, ptr0), ok, ptr0, str0, ptr, str)
    ensures forall xs, rest :: GoodPieces(xs) && TextAt(t, ptr0, StringText(xs) + rest) ==> ok && str == Meaning(xs)
    ensures forall v, rest :: TextAt(t, ptr0, [34] + Rfc(v) + [34] + rest) ==> ok && str == v
  {
    hide Rfc, Spelling, Meaning, GoodPieces, StringText;
    StringsRead(t, ptr0);
    ok, ptr, str := false, ptr0, str0;
    var p := Skip(t, ptr0);
    if At(t, p) != QUOTE {
      return;
    }
    var s: seq<byte> := [];
    p := p + 1;
    ghost var start := p;
    while At(t, p) != 0 && At(t, p) != QUOTE
      invariant start <= p <= |t| && Body(t, p, s) == Body(t, start, [])
      decreases |t| - p
    {
      if At(t, p) != BACKSLASH {
        s := s + [t[p]];
        p := p + 1;
      } else {
        ghost var at := p;
        p := p + 1;
        if At(t, p) == 0 {
          return;
        }
        var esc := t[p];
        p := p + 1;
        match EscapeOf(esc) {
          case Char(c) => s := s + [c];
          case Unicode =>
            for i := 0 to 4
              invariant p == at + 2 + i <= |t|
            {
              if At(t, p) == 0 {
                return;
              }
              p := p + 1;
            }
          case Bad => return;
        }
      }
    }
    if At(t, p) != QUOTE {
      return;
    }
    p := Skip(t, p + 1);
    ok, ptr, str := true, p, s;
  }

  method ExtractValue(t: seq<byte>, ptr0: nat, str0: seq<byte>, addQuotesToStrings: bool)
    returns (ok: bool, ptr: nat, str: seq<byte>)
    requires IsCString(t) && ptr0 <= |t|
    ensures Outcome(Value(t, ptr0, addQuotesToStrings), ok, ptr0, str0, ptr, str)
    decreases |t| - ptr0, 2
  {
    ok, ptr, str := false, ptr0, str0;
    var p := Skip(t, ptr0);
    var s: seq<byte> := [];
    var c := At(t, p);
    var good: bool;
    if c == QUOTE {
      good, p, s := ExtractString(t, p, s);
      if !good { return; }
      if addQuotesToStrings {
        s := [QUOTE] + s;
        s := s + [QUOTE];
      }
    } else if c == LBRACE {
      good, p, s := ExtractObjectAsString(t, p, s);
      if !good { return; }
    } else if c == LBRACK {
      good, p, s := ExtractArrayAsString(t, p, s);
      if !good { return; }
    } else if StartsLiteral(c) {
      ghost var start := p;
      while At(t, p) != 0
        invariant start <= p <= |t| && s == t[start..p] && LiteralEnd(t, p) == LiteralEnd(t, start)
        decreases |t| - p
      {
        var d := t[p];
        if d == SP || d == COMMA || d == RBRACE || d == RBRACK {
          break;
        }
        s := s + [d];
        p := p + 1;
      }
      assert p == LiteralEnd(t, start);
      if (s[0] == 116 && s != [116, 114, 117, 101]) || (s[0] == 102 && s != [102, 97, 108, 115, 101]) ||
         (s[0] == 110 && s != [110, 117, 108, 108]) {
        return;
      }
      p := Skip(t, p);
    } else {
      return;
    }
    ok, ptr, str := true, p, s;
  }

  method ExtractArrayAsString(t: seq<byte>, ptr0: nat, str0: seq<byte>) returns (ok: bool, ptr: nat, str: seq<byte>)
    requires IsCString(t) && ptr0 <= |t|
    ensures Outcome(Array(t, ptr0), ok, ptr0, str0, ptr, str)
    decreases |t| - ptr0, 1
  {
    hide Str, Value, IsCString, SkipSpaces;
    ok, ptr, str := false, ptr0, str0;
    var p := Skip(t, ptr0);
    if At(t, p) != LBRACK {
      return;
    }
    var s: seq<byte>, strValue: seq<byte> := [], [];
    ghost var start := p;
    while true
      invariant start <= p < |t| && Items(t, p, s) == Items(t, start, [])
      decreases |t| - p
    {
      p := p + 1;
      var good: bool;
      good, p, strValue := ExtractValue(t, p, strValue, true);
      if !good { break; }
      if s != [] {
        s := s + [COMMA];
      }
      s := s + strValue;
      if At(t, p) == RBRACK { break; }
      if At(t, p) != COMMA { return; }
    }
    assert Array(t, ptr0) == Close(t, p, LBRACK, s, RBRACK);
    if At(t, p) != RBRACK {
      return;
    }
    s := [LBRACK] + s + [RBRACK];
    p := Skip(t, p + 1);
    ok, ptr, str := true, p, s;
  }

  lemma JoinMember(s: seq<byte>, name: seq<byte>, v: seq<byte>)
    ensures (if s != [] then s + [COMMA] else s) + name + [COLON] + v == Joined(s, name + [COLON] + v)
  {
    var head := if s != [] then s + [COMMA] else s;
    Regroup(head, name, [COLON]);
    Regroup(head, name + [COLON], v);
  }

  method ExtractObjectAsString(t: seq<byte>, ptr0: nat, str0: seq<byte>) returns (ok: bool, ptr: nat, str: seq<byte>)
    requires IsCString(t) && ptr0 <= |t|
    ensures Outcome(Object(t, ptr0), ok, ptr0, str0, ptr, str)
    decreases |t| - ptr0, 1
  {
    hide Str, Value, Joined, IsCString, SkipSpaces;
    ok, ptr, str := false, ptr0, str0;
    var p := Skip(t, ptr0);
    if At(t, p) != LBRACE {
      return;
    }
    var s: seq<byte>, strName: seq<byte>, strValue: seq<byte> := [], [], [];
    ghost var start := p;
    while true
      invariant start <= p < |t| && Members(t, p, s) == Members(t, start, [])
      decreases |t| - p
    {
      p := p + 1;
      var good: bool;
      good, p, strName := ExtractString(t, p, strName);
      if !good { break; }
      if At(t, p) != COLON { return; }
      p := p + 1;
      good, p, strValue := ExtractValue(t, p, strValue, true);
      if !good { return; }
      JoinMember(s, strName, strValue);
      if s != [] {
        s := s + [COMMA];
      }
      s := s + strName;
      s := s + [COLON];
      s := s + strValue;
      if At(t, p) == RBRACE { break; }
      if At(t, p) != COMMA { return; }
    }
    assert Object(t, ptr0) == Close(t, p, LBRACE, s, RBRACE);
    if At(t, p) != RBRACE {
      return;
    }
    s := [LBRACE] + s + [RBRACE];
    p := Skip(t, p + 1);
    ok, ptr, str := true, p, s;
  }

  method SimpleJsonParser(t: seq<byte>) returns (ok: bool, values: map<seq<byte>, seq<byte>>)
    requires IsCString(t)
    ensures (ok, values) == Parse(t)
    ensures JsonTrees.ReadsDocuments(t, ok, values)
  {
    hide Str, Value, IsCString, SkipSpaces, JsonTrees.ReadsDocuments, TextAt, GoodPieces, Rfc;
    JsonTrees.DocumentsRead(t);
    ok, values := false, map[];
    var strName: seq<byte>, strValue: seq<byte> := [], [];
    var ptr := Skip(t, 0);
    if At(t, ptr) != LBRACE {
      return;
    }
    ghost var start := ptr;
    while true
      invariant start <= ptr < |t| && !ok && Fields(t, ptr, values) == Fields(t, start, map[])
      decreases |t| - ptr
    {
      ptr := ptr + 1;
      var good: bool;
      good, ptr, strName := ExtractString(t, ptr, strName);
      if !good { break; }
      if At(t, ptr) != COLON { return; }
      ptr := ptr + 1;
      good, ptr, strValue := ExtractValue(t, ptr, strValue, false);
      if !good { return; }
      if strName !in values {
        values := values[strName := strValue];
      }
      if At(t, ptr) == RBRACE { break; }
      if At(t, ptr) != COMMA { return; }
    }
    ok := At(t, ptr) == RBRACE;
  }

  // ---- The printer ----

  ghost predicate Occurs(s: seq<byte>, lookFor: seq<byte>, at: nat) {
    at + |lookFor| <= |s| && s[at..at + |lookFor|] == lookFor
  }

  /** std::string::find. */
  method Find(s: seq<byte>, lookFor: seq<byte>, index: nat) returns (found: bool, at: nat)
    requires index <= |s|
    ensures index <= at && (found ==> Occurs(s, lookFor, at))
    ensures forall j :: index <= j < at ==> !Occurs(s, lookFor, j)
    ensures !found ==> |s| < at + |lookFor|
  {
    at := index;
    while at + |lookFor| <= |s|
      invariant index <= at && forall j :: index <= j < at ==> !Occurs(s, lookFor, j)
      decreases |s| - at
    {
      if s[at..at + |lookFor|] == lookFor {
        return true, at;
      }
      at := at + 1;
    }
    found := false;
  }

  /** What stands before the first occurrence is kept. */
  lemma {:induction false} ReplacedFrom(s: seq<byte>, lookFor: seq<byte>, with: seq<byte>, index: nat, at: nat)
    requires lookFor != [] && index <= at <= |s|
    requires forall j :: index <= j < at ==> !Occurs(s, lookFor, j)
    ensures Replaced(s[index..], lookFor, with) == s[index..at] + Replaced(s[at..], lookFor, with)
    decreases at - index
  {
    if index < at {
      assert !Occurs(s, lookFor, index);
      if |lookFor| <= |s[index..]| {
        assert s[index..][..|lookFor|] == s[index..index + |lookFor|];
        assert s[index..][1..] == s[index + 1..];
        ReplacedFrom(s, lookFor, with, index + 1, at);
        assert s[index..at] == [s[index]] + s[index + 1..at];
      } else {
        assert s[index..] == s[index..at] + s[at..];
      }
    }
  }

  lemma ReplacedAt(s: seq<byte>, lookFor: seq<byte>, with: seq<byte>, at: nat)
    requires lookFor != [] && Occurs(s, lookFor, at)
    ensures Replaced(s[at..], lookFor, with) == with + Replaced(s[at + |lookFor|..], lookFor, with)
  {
    assert s[at..][..|lookFor|] == s[at..at + |lookFor|];
    assert s[at..][|lookFor|..] == s[at + |lookFor|..];
  }

  /** Replacing the first occurrence and going on behind it. */
  lemma ReplaceOne(s: seq<byte>, lookFor: seq<byte>, with: seq<byte>, index: nat, at: nat)
    requires lookFor != [] && index <= at && Occurs(s, lookFor, at)
    requires forall j :: index <= j < at ==> !Occurs(s, lookFor, j)
    ensures at + |lookFor| <= |s|
    ensures s[..index] + Replaced(s[index..], lookFor, with)
         == s[..at] + with + Replaced(s[at + |lookFor|..], lookFor, with)
  {
    hide Replaced;
    ReplacedFrom(s, lookFor, with, index, at);
    ReplacedAt(s, lookFor, with, at);
    var rest := Replaced(s[at + |lookFor|..], lookFor, with);
    Regroup(s[..index], s[index..at], with + rest);
    assert s[..index] + s[index..at] == s[..at];
    Regroup(s[..at], with, rest);
  }

  lemma ReplaceNone(s: seq<byte>, lookFor: seq<byte>, with: seq<byte>, index: nat, at: nat)
    requires lookFor != [] && index <= |s| && index <= at && |s| < at + |lookFor|
    requires forall j :: index <= j < at ==> !Occurs(s, lookFor, j)
    ensures s[..index] + Replaced(s[index..], lookFor, with) == s
  {
    var end := if at <= |s| then at else |s|;
    ReplacedFrom(s, lookFor, with, index, end);
    assert s[index..] == s[index..end] + s[end..];
    assert s == s[..index] + s[index..];
  }

  method StringReplace(s0: seq<byte>, lookFor: seq<byte>, with: seq<byte>) returns (s: seq<byte>)
    ensures s == if lookFor == [] then s0 else Replaced(s0, lookFor, with)
  {
    hide Occurs, Replaced;
    s := s0;
    if lookFor != [] {
      var index, more := 0, true;
      while more
        invariant more ==> index <= |s|
        invariant more ==> s[..index] + Replaced(s[index..], lookFor, with) == Replaced(s0, lookFor, with)
        invariant !more ==> s == Replaced(s0, lookFor, with)
        decreases more, |s| - index
      {
        var at;
        more, at := Find(s, lookFor, index);
        if more {
          ReplaceOne(s, lookFor, with, index, at);
          ghost var behind := s[at + |lookFor|..];
          s := s[..at] + with + s[at + |lookFor|..];
          index := at + |with|;
          assert s[index..] == behind;
        } else {
          ReplaceNone(s, lookFor, with, index, at);
        }
      }
    }
  }

  /** {"status":"OK","config": */
  const STATUS_OK: seq<byte> := [123, 34, 115, 116, 97, 116, 117, 115, 34, 58, 34, 79, 75, 34, 44,
                                 34, 99, 111, 110, 102, 105, 103, 34, 58]

  /** What the printer still has to write. */
  ghost function Pending(order: seq<seq<byte>>, m: map<seq<byte>, seq<byte>>, first: bool): seq<byte>
    requires forall name :: name in order ==> name in m
  {
    if first || order == [] then Entries(order, m) else [COMMA] + Entries(order, m)
  }

  lemma PendingNext(order: seq<seq<byte>>, m: map<seq<byte>, seq<byte>>, first: bool)
    requires order != [] && forall name :: name in order ==> name in m
    ensures Pending(order, m, first)
         == (if first then [] else [COMMA]) + Entry(order[0], m[order[0]]) + Pending(order[1..], m, false)
  {
    hide Entry;
    var entry, rest := Entry(order[0], m[order[0]]), Pending(order[1..], m, false);
    assert |order| == 1 ==> order[1..] == [];
    assert Entries(order, m) == entry + rest;
    if first {
      assert [] + entry == entry;
    } else {
      Regroup([COMMA], entry, rest);
    }
  }

  lemma EntryIs(reply: seq<byte>, name: seq<byte>, v: seq<byte>)
    ensures reply + [QUOTE] + name + [QUOTE, COLON] + Shown(v) == reply + Entry(name, v)
  {
    hide Printed, IsRaw;
    Regroup(reply, [QUOTE], name);
    Regroup(reply, [QUOTE] + name, [QUOTE, COLON]);
    Regroup(reply, [QUOTE] + name + [QUOTE, COLON], Shown(v));
  }

  lemma PrintedIs(reply: seq<byte>, v: seq<byte>)
    ensures reply + [QUOTE] + Escaped(v) + [QUOTE] == reply + Printed(v)
  {
    hide Escaped;
    Regroup(reply, [QUOTE], Escaped(v));
    Regroup(reply, [QUOTE] + Escaped(v), [QUOTE]);
  }

  method AppendValue(reply0: seq<byte>, v: seq<byte>) returns (reply: seq<byte>)
    requires IsCString(v)
    ensures reply == reply0 + Shown(v)
  {
    hide Parse, Replaced, Printed;
    reply := reply0;
    var raw := false;
    if |v| >= 2 && v[0] == LBRACE && v[|v| - 1] == RBRACE {
      var inner;
      raw, inner := SimpleJsonParser(v);
    }
    if raw {
      reply := reply + v;
    } else {
      reply := reply + [QUOTE];
      var escaped := StringReplace(v, [QUOTE], [BACKSLASH, QUOTE]);
      reply := reply + escaped;
      reply := reply + [QUOTE];
      PrintedIs(reply0, v);
    }
  }

  method AppendEntry(reply0: seq<byte>, first: bool, name: seq<byte>, v: seq<byte>) returns (reply: seq<byte>)
    requires IsCString(v)
    ensures reply == reply0 + ((if first then [] else [COMMA]) + Entry(name, v))
  {
    hide Shown, Entry, IsCString;
    reply := reply0;
    if !first {
      reply := reply + [COMMA];
    }
    EntryIs(reply, name, v);
    Regroup(reply0, if first then [] else [COMMA], Entry(name, v));
    assert reply0 + [] == reply0;
    reply := reply + [QUOTE];
    reply := reply + name;
    reply := reply + [QUOTE, COLON];
    reply := AppendValue(reply, v);
  }

  /** The reply to a request for the configuration: `order` is the order std::map is gone through.
      What stands in the place of the object is read back by SimpleJsonParser as the same map,
      exactly when no value has a backslash or, where none has one, when the only object among
      the values is the empty one. */
  method PrintConfig(values: map<seq<byte>, seq<byte>>, order: seq<seq<byte>>) returns (reply: seq<byte>)
    requires Enumerates(order, values) && forall name :: name in values ==> IsCString(values[name])
    ensures reply == STATUS_OK + ObjectText(order, values) + [RBRACE]
    ensures Printable(values) ==>
              (Parse(reply[|STATUS_OK|..|reply| - 1]) == (true, values) <==>
               forall name :: name in values ==> BACKSLASH !in values[name])
    ensures Readable(values) ==>
              (Parse(reply[|STATUS_OK|..|reply| - 1]) == (true, values) <==>
               forall name :: name in values && IsRaw(values[name]) ==> values[name] == [LBRACE, RBRACE])
  {
    hide Entries, Parse, Printable, Readable, IsRaw, Entry, Pending, IsCString;
    reply := STATUS_OK + [LBRACE];
    var first := true;
    var i := 0;
    assert order[0..] == order;
    AllPending(order, values);
    while i < |order|
      invariant i <= |order| && first == (i == 0)
      invariant reply + Pending(order[i..], values, first) == STATUS_OK + [LBRACE] + Entries(order, values)
    {
      PendingNext(order[i..], values, first);
      ghost var before, entry := reply, (if first then [] else [COMMA]) + Entry(order[i], values[order[i]]);
      reply := AppendEntry(reply, first, order[i], values[order[i]]);
      assert order[i..][1..] == order[i + 1..];
      Regroup(before, entry, Pending(order[i + 1..], values, false));
      first := false;
      i := i + 1;
    }
    NothingPending(values, first);
    assert order[i..] == [];
    assert reply + [] == reply;
    reply := reply + [RBRACE, RBRACE];
    Framed(reply, Entries(order, values));
    if Printable(values) {
      ObjectRoundTripExactly(order, values);
    }
    if Readable(values) {
      RawRoundTripExactly(order, values);
    }
  }

  lemma Framed(reply: seq<byte>, entries: seq<byte>)
    requires reply == STATUS_OK + [LBRACE] + entries + [RBRACE, RBRACE]
    ensures reply == STATUS_OK + ([LBRACE] + entries + [RBRACE]) + [RBRACE]
    ensures reply[|STATUS_OK|..|reply| - 1] == [LBRACE] + entries + [RBRACE]
  {
  }

  lemma AllPending(order: seq<seq<byte>>, m: map<seq<byte>, seq<byte>>)
    requires forall name :: name in order ==> name in m
    ensures Pending(order, m, true) == Entries(order, m)
  {
  }

  lemma NothingPending(m: map<seq<byte>, seq<byte>>, first: bool)
    ensures Pending([], m, first) == []
  {
  }
}
