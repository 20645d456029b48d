/** Printing a map and parsing what was printed: when the map comes back. */
module JsonRoundTrip {
  import opened Basics
  import opened Bytes
  import opened JsonLocal
  import opened JsonSpec
  import opened JsonStrings

  ghost predicate PlainName(name: seq<byte>) {
    QUOTE !in name && BACKSLASH !in name && 0 !in name
  }

  /** What the parser makes of a value that it gets to read. */
  function Kept(v: seq<byte>): seq<byte> {
    if IsRaw(v) then Rebuilt(v) else v
  }

  /** The values that come back as they are: printed as strings, those without a backslash;
      printed raw, those the parser rebuilds to themselves. */
  ghost predicate Survives(v: seq<byte>) {
    if IsRaw(v) then Rebuilt(v) == v else BACKSLASH !in v
  }

  ghost predicate Faithful(m: map<seq<byte>, seq<byte>>) {
    forall name :: name in m ==> PlainName(name) && 0 !in m[name] && Survives(m[name])
  }

  lemma EscapedNext(v: seq<byte>)
    requires v != []
    ensures Escaped(v) == (if v[0] == QUOTE then [BACKSLASH, QUOTE] else [v[0]]) + Escaped(v[1..])
  {
    assert v[..1] == [v[0]];
  }

  lemma {:induction false} PlainIsNotEscaped(v: seq<byte>)
    requires QUOTE !in v
    ensures Escaped(v) == v
  {
    if v != [] {
      EscapedNext(v);
      PlainIsNotEscaped(v[1..]);
      assert v == [v[0]] + v[1..];
    }
  }

  /** Reading an escaped value up to its closing quote gives the value. */
  lemma {:induction false} BodyReadsEscaped(t: seq<byte>, p: nat, v: seq<byte>, rest: seq<byte>, s: seq<byte>)
    requires p <= |t| && t[p..] == Escaped(v) + [QUOTE] + rest
    requires BACKSLASH !in v && (rest != [] ==> rest[0] != SP)
    ensures Body(t, p, s) == Ok(p + |Escaped(v)| + 1, s + v)
    decreases |v|
  {
    if v == [] {
      assert t[p] == t[p..][0] == QUOTE;
      assert p + 1 < |t| ==> t[p + 1] == t[p..][1] == rest[0];
      assert s + v == s;
    } else {
      EscapedNext(v);
      var u := if v[0] == QUOTE then [BACKSLASH, QUOTE] else [v[0]];
      var q := p + |u|;
      assert t[p..] == u + (Escaped(v[1..]) + [QUOTE] + rest);
      assert t[q..] == Escaped(v[1..]) + [QUOTE] + rest;
      assert t[p] == u[0] && (|u| == 2 ==> t[p + 1] == u[1]);
      BodyReadsEscaped(t, q, v[1..], rest, s + [v[0]]);
      assert (s + [v[0]]) + v[1..] == s + v;
    }
  }

  ghost predicate NoSpaceFirst(x: seq<byte>) {
    x != [] ==> x[0] != SP
  }

  lemma FirstChar(t: seq<byte>, p: nat, x: seq<byte>)
    requires TextAt(t, p, x) && x != []
    ensures p < |t| && t[p] == x[0]
  {
    assert t[p] == t[p..][0];
  }

  lemma StrReads(t: seq<byte>, p: nat, v: seq<byte>, rest: seq<byte>)
    requires TextAt(t, p, Printed(v) + rest) && BACKSLASH !in v && NoSpaceFirst(rest)
    ensures p < |t| && t[p] == QUOTE && Str(t, p) == Ok(p + |Printed(v)|, v)
  {
    hide Escaped;
    assert t[p] == t[p..][0] == QUOTE;
    assert t[p + 1..] == t[p..][1..] == Escaped(v) + [QUOTE] + rest;
    BodyReadsEscaped(t, p + 1, v, rest, []);
    assert [] + v == v;
  }

  /** What stands behind a printed value. */
  ghost predicate Follows(rest: seq<byte>) {
    rest != [] && (rest[0] == COMMA || rest[0] == RBRACE)
  }

  lemma ValueReads(t: seq<byte>, p: nat, v: seq<byte>, rest: seq<byte>)
    requires TextAt(t, p, Shown(v) + rest) && (IsRaw(v) || BACKSLASH !in v) && Follows(rest)
    ensures p < |t|
    ensures var r := Value(t, p, false); r.Ok? && r.str == Kept(v) && (Kept(v) == v ==> r.next == p + |Shown(v)|)
  {
    hide Str, Printed, Object, Array, LiteralEnd, TextAt, NoSpaceFirst, IsRaw;
    if IsRaw(v) {
      EmbeddedAt(t, p, v, rest);
      RawReads(t, p, v);
    } else {
      CommaIsNoSpace(rest);
      StrReads(t, p, v, rest);
    }
  }

  lemma CommaIsNoSpace(rest: seq<byte>)
    requires Follows(rest)
    ensures NoSpaceFirst(rest)
  {
  }

  lemma EmbeddedAt(t: seq<byte>, p: nat, v: seq<byte>, rest: seq<byte>)
    requires TextAt(t, p, v + rest) && Follows(rest)
    ensures Embeds(v, t, p)
  {
    assert forall i :: p <= i < |t| ==> t[i] == t[p..][i - p];
  }

  /** One printed entry, up to the character behind it. */
  lemma FieldReads(t: seq<byte>, p: nat, name: seq<byte>, v: seq<byte>, rest: seq<byte>)
    requires TextAt(t, p, Entry(name, v) + rest)
    requires PlainName(name) && (IsRaw(v) || BACKSLASH !in v) && Follows(rest)
    ensures var colon := p + |name| + 2;
            && colon + 1 < |t| && Str(t, p) == Ok(colon, name) && t[colon] == COLON
            && (var r := Value(t, colon + 1, false);
                r.Ok? && r.str == Kept(v) && (Kept(v) == v ==> r.next == p + |Entry(name, v)|))
            && TextAt(t, p + |Entry(name, v)|, rest)
  {
    hide Str, Value, Shown, IsRaw, Entry, PlainName, Kept, TextAt, NoSpaceFirst, Follows;
    NameReads(t, p, name, v, rest);
    var colon := p + |name| + 2;
    ValueReads(t, colon + 1, v, rest);
    EntryLength(name, v);
    Suffix(t, colon + 1, Shown(v), rest);
  }

  lemma EntryLength(name: seq<byte>, v: seq<byte>)
    ensures |Entry(name, v)| == |name| + 3 + |Shown(v)|
  {
  }

  lemma ColonFirst(x: seq<byte>)
    ensures NoSpaceFirst([COLON] + x)
  {
  }

  lemma RestrictNext(got: map<seq<byte>, seq<byte>>, m: map<seq<byte>, seq<byte>>, order: seq<seq<byte>>)
    requires order != [] && order[0] in m && order[0] !in got
    ensures Inserted(got, order[0], m[order[0]]) + Restrict(m, order[1..]) == got + Restrict(m, order)
  {
    assert forall n :: n in order <==> n == order[0] || n in order[1..];
  }

  lemma {:induction false} FieldsReadEntries(t: seq<byte>, p: nat, order: seq<seq<byte>>, m: map<seq<byte>, seq<byte>>,
                                             got: map<seq<byte>, seq<byte>>)
    requires Faithful(m) && (forall name :: name in order ==> name in m)
    requires forall i, j :: 0 <= i < j < |order| ==> order[i] != order[j]
    requires forall name :: name in order ==> name !in got
    requires p < |t| && TextAt(t, p + 1, Entries(order, m) + [RBRACE])
    ensures Fields(t, p, got) == (true, got + Restrict(m, order))
    decreases |order|
  {
    hide Fields, Entry, PlainName, Survives, Restrict, TextAt;
    if order == [] {
      NoField(t, p, got);
      RestrictNothing(got, m);
    } else {
      var name, rest := order[0], order[1..];
      var more := Tail(order, m);
      var next := p + 1 + |Entry(name, m[name])|;
      EntryTaken(t, p, name, m[name], more, got);
      RestrictNext(got, m, order);
      if |order| > 1 {
        Regroup([COMMA], Entries(rest, m), [RBRACE]);
        Suffix(t, next, [COMMA], Entries(rest, m) + [RBRACE]);
        FieldsReadEntries(t, next, rest, m, Inserted(got, name, m[name]));
      } else {
        assert rest == [];
        RestrictNothing(Inserted(got, name, m[name]), m);
      }
    }
  }

  /** One turn of the parser's loop over what the printer wrote. */
  lemma EntryTaken(t: seq<byte>, p: nat, name: seq<byte>, v: seq<byte>, more: seq<byte>, got: map<seq<byte>, seq<byte>>)
    requires PlainName(name) && Survives(v) && (more != [] ==> more[0] == COMMA)
    requires p < |t| && TextAt(t, p + 1, Entry(name, v) + more + [RBRACE])
    ensures var next := p + 1 + |Entry(name, v)|;
            && next < |t| && TextAt(t, next, more + [RBRACE])
            && Fields(t, p, got) == if more != [] then Fields(t, next, Inserted(got, name, v))
                                    else (true, Inserted(got, name, v))
  {
    hide Str, Value, Entry, PlainName, IsRaw, Inserted, TextAt;
    Regroup(Entry(name, v), more, [RBRACE]);
    FieldReads(t, p + 1, name, v, more + [RBRACE]);
    FirstChar(t, p + 1 + |Entry(name, v)|, more + [RBRACE]);
  }

  lemma RestrictNothing(got: map<seq<byte>, seq<byte>>, m: map<seq<byte>, seq<byte>>)
    ensures got + Restrict(m, []) == got
  {
  }

  lemma NoField(t: seq<byte>, p: nat, got: map<seq<byte>, seq<byte>>)
    requires p < |t| && TextAt(t, p + 1, [] + [RBRACE])
    ensures Fields(t, p, got) == (true, got)
  {
    FirstChar(t, p + 1, [] + [RBRACE]);
  }

  /** When every value survives, parsing what the printer wrote gives back exactly the map, whatever
      order the printer went through it. */
  lemma ObjectRoundTrip(order: seq<seq<byte>>, m: map<seq<byte>, seq<byte>>)
    requires Faithful(m) && Enumerates(order, m)
    ensures Parse(ObjectText(order, m)) == (true, m)
  {
    hide Fields, Entries;
    var t := ObjectText(order, m);
    assert t[1..] == Entries(order, m) + [RBRACE];
    FieldsReadEntries(t, 0, order, m, map[]);
    assert map[] + Restrict(m, order) == m;
  }

  // ---- The condition on backslashes is exact ----

  function Count(s: seq<byte>, b: byte): nat {
    multiset(s)[b]
  }

  /** The backslashes of text it takes at least to read a string. */
  function Weight(s: seq<byte>): nat {
    2 * Count(s, BACKSLASH) + Count(s, QUOTE)
  }

  lemma WeightAppend(s: seq<byte>, c: byte)
    ensures Weight(s + [c]) == Weight(s) + (if c == BACKSLASH then 2 else if c == QUOTE then 1 else 0)
  {
  }

  /** The backslashes in the text from p up to f. */
  function Slashes(t: seq<byte>, p: nat, f: nat): nat
    requires f <= |t|
    decreases f - p
  {
    if p >= f then 0 else (if t[p] == BACKSLASH then 1 else 0) + Slashes(t, p + 1, f)
  }

  /** A string begun before f ends at f at the latest: f is the end of the text, or a quote with
      no backslash in the five characters and more before it. */
  ghost predicate Stops(t: seq<byte>, c: nat, f: nat) {
    && c <= f <= |t|
    && (f < |t| ==> t[f] == QUOTE && c + 5 <= f)
    && forall i :: c <= i < f ==> t[i] != BACKSLASH
  }

  /** Reading a string takes a backslash of text for each quote read, and two for each backslash. */
  lemma {:induction false} BodyCost(t: seq<byte>, p: nat, s: seq<byte>, c: nat, f: nat)
    requires p <= f && Stops(t, c, f)
    ensures var r := Body(t, p, s); r.Ok? ==> Weight(r.str) <= Weight(s) + Slashes(t, p, f)
    decreases |t| - p
  {
    hide Weight;
    if p < |t| && t[p] != QUOTE {
      assert p < f;
      if t[p] != BACKSLASH {
        WeightAppend(s, t[p]);
        BodyCost(t, p + 1, s + [t[p]], c, f);
      } else if p + 1 < |t| {
        match EscapeOf(t[p + 1]) {
          case Char(d) =>
            WeightAppend(s, d);
            BodyCost(t, p + 2, s + [d], c, f);
          case Unicode =>
            if p + 6 <= |t| {
              BodyCost(t, p + 6, s, c, f);
              SlashesLess(t, p, p + 6, f);
            }
          case Bad =>
        }
      }
    }
  }

  lemma {:induction false} SlashesLess(t: seq<byte>, p: nat, q: nat, f: nat)
    requires p <= q && f <= |t|
    ensures Slashes(t, q, f) <= Slashes(t, p, f)
    decreases q - p
  {
    if p < q { SlashesLess(t, p + 1, q, f); }
  }

  lemma {:induction false} NoSlashes(t: seq<byte>, p: nat, f: nat)
    requires f <= |t| && forall i :: p <= i < f ==> t[i] != BACKSLASH
    ensures Slashes(t, p, f) == 0
    decreases f - p
  {
    if p < f { NoSlashes(t, p + 1, f); }
  }

  /** The printer writes one backslash for each backslash and for each quote. */
  lemma {:induction false} SlashesPrinted(t: seq<byte>, p: nat, v: seq<byte>, rest: seq<byte>, f: nat)
    requires TextAt(t, p, Escaped(v) + rest) && Stops(t, p + |Escaped(v)|, f)
    ensures Slashes(t, p, f) == Count(v, BACKSLASH) + Count(v, QUOTE)
    decreases |v|
  {
    hide Stops, Escaped, TextAt, Count;
    var c := p + |Escaped(v)|;
    StopsAt(t, c, f);
    if v == [] {
      NothingEscaped();
      NoSlashes(t, p, f);
    } else {
      var u := if v[0] == QUOTE then [BACKSLASH, QUOTE] else [v[0]];
      EscapedNext(v);
      Regroup(u, Escaped(v[1..]), rest);
      Suffix(t, p, u, Escaped(v[1..]) + rest);
      FirstChar(t, p, Escaped(v) + rest);
      if v[0] == QUOTE {
        Regroup([BACKSLASH], [QUOTE], Escaped(v[1..]) + rest);
        assert u == [BACKSLASH] + [QUOTE];
        Suffix(t, p, [BACKSLASH], [QUOTE] + (Escaped(v[1..]) + rest));
        FirstChar(t, p + 1, [QUOTE] + (Escaped(v[1..]) + rest));
      }
      SlashesPrinted(t, p + |u|, v[1..], rest, f);
      CountNext(v);
    }
  }

  lemma StopsAt(t: seq<byte>, c: nat, f: nat)
    requires Stops(t, c, f)
    ensures c <= f <= |t| && forall i :: c <= i < f ==> t[i] != BACKSLASH
  {
  }

  lemma NothingEscaped()
    ensures Escaped([]) == [] && Count([], BACKSLASH) == Count([], QUOTE) == 0
  {
  }

  lemma CountNext(v: seq<byte>)
    requires v != []
    ensures Count(v, BACKSLASH) == Count(v[1..], BACKSLASH) + (if v[0] == BACKSLASH then 1 else 0)
    ensures Count(v, QUOTE) == Count(v[1..], QUOTE) + (if v[0] == QUOTE then 1 else 0)
  {
    assert v == [v[0]] + v[1..];
  }

  /** A printed value with a backslash is not read back as itself. */
  lemma ValueDiffers(t: seq<byte>, p: nat, v: seq<byte>, rest: seq<byte>, f: nat)
    requires TextAt(t, p, Printed(v) + rest) && BACKSLASH in v && Stops(t, p + |Printed(v)| - 1, f)
    ensures p < |t| && (Value(t, p, false).Ok? ==> Value(t, p, false).str != v)
  {
    hide Stops, Escaped, Body, Slashes;
    PrintedNotEmpty(v, rest);
    FirstChar(t, p, Printed(v) + rest);
    StopsAt(t, p + |Printed(v)| - 1, f);
    assert Value(t, p, false) == Body(t, p + 1, []);
    assert TextAt(t, p + 1, Escaped(v) + ([QUOTE] + rest)) by {
      Regroup([QUOTE] + Escaped(v), [QUOTE], rest);
      Regroup([QUOTE], Escaped(v), [QUOTE] + rest);
      Suffix(t, p, [QUOTE], Escaped(v) + ([QUOTE] + rest));
    }
    var c := p + 1 + |Escaped(v)|;
    BodyCost(t, p + 1, [], c, f);
    SlashesPrinted(t, p + 1, v, [QUOTE] + rest, f);
    assert Count(v, BACKSLASH) > 0;
  }

  /** Behind the closing quote of a value that is not the last: comma, quote, name, quote, colon,
      and the quote of the next value, before which any string has ended. */
  lemma StopsBehind(t: seq<byte>, c: nat, name: seq<byte>, v: seq<byte>, rest: seq<byte>)
    requires PlainName(name) && !IsRaw(v)
    requires TextAt(t, c, [QUOTE, COMMA] + (Entry(name, v) + rest))
    ensures Stops(t, c, c + 5 + |name|)
  {
    hide IsRaw, Escaped, TextAt, Entry;
    var front := [QUOTE, COMMA, QUOTE] + name + [QUOTE, COLON];
    var back := [QUOTE] + Escaped(v) + [QUOTE] + rest;
    EntryIs(name, v, rest);
    Suffix(t, c, front, back);
    FirstChar(t, c + |front|, back);
    forall i | 0 <= i < |front| ensures c + i < |t| && t[c + i] == front[i] != BACKSLASH {
      Prefix(t, c, front, back, i);
    }
    forall i | c <= i < c + |front| ensures t[i] != BACKSLASH {
      assert t[c + (i - c)] == front[i - c];
    }
    assert t[c] == front[0];
  }

  lemma EntryIs(name: seq<byte>, v: seq<byte>, rest: seq<byte>)
    requires !IsRaw(v)
    ensures [QUOTE, COMMA] + (Entry(name, v) + rest) ==
            ([QUOTE, COMMA, QUOTE] + name + [QUOTE, COLON]) + ([QUOTE] + Escaped(v) + [QUOTE] + rest)
  {
    hide IsRaw, Escaped;
  }

  lemma StopsAtEnd(t: seq<byte>, c: nat)
    requires TextAt(t, c, [QUOTE] + [RBRACE])
    ensures Stops(t, c, |t|)
  {
    assert forall i :: c <= i < |t| ==> t[i] == t[c..][i - c];
  }

  ghost predicate Printable(m: map<seq<byte>, seq<byte>>) {
    forall name :: name in m ==> PlainName(name) && 0 !in m[name] && !IsRaw(m[name])
  }

  /** Where a value with a backslash stops, whatever comes behind it. */
  lemma EntryStops(t: seq<byte>, p: nat, order: seq<seq<byte>>, m: map<seq<byte>, seq<byte>>) returns (f: nat)
    requires Printable(m) && order != [] && forall name :: name in order ==> name in m
    requires TextAt(t, p, Printed(m[order[0]]) + (Tail(order, m) + [RBRACE]))
    ensures Stops(t, p + |Printed(m[order[0]])| - 1, f)
  {
    hide Escaped, Stops, TextAt, Entry, IsRaw, PlainName;
    var v, rest := m[order[0]], Tail(order, m) + [RBRACE];
    var front := [QUOTE] + Escaped(v);
    Regroup(front, [QUOTE], rest);
    Suffix(t, p, front, [QUOTE] + rest);
    if |order| == 1 {
      assert [QUOTE] + rest == [QUOTE] + [RBRACE];
      StopsAtEnd(t, p + |front|);
      f := |t|;
    } else {
      var more := Tail(order[1..], m) + [RBRACE];
      EntriesNext(order, m);
      StopsBehind(t, p + |front|, order[1], m[order[1]], more);
      f := p + |front| + 5 + |order[1]|;
    }
  }

  lemma EntriesNext(order: seq<seq<byte>>, m: map<seq<byte>, seq<byte>>)
    requires |order| > 1 && forall name :: name in order ==> name in m
    ensures [QUOTE] + (Tail(order, m) + [RBRACE])
         == [QUOTE, COMMA] + (Entry(order[1], m[order[1]]) + (Tail(order[1..], m) + [RBRACE]))
  {
    hide Entry;
    var entry, tail := Entry(order[1], m[order[1]]), Tail(order[1..], m);
    assert Tail(order, m) == [COMMA] + (entry + tail);
    Regroup([COMMA], entry + tail, [RBRACE]);
    Regroup(entry, tail, [RBRACE]);
    Regroup([QUOTE], [COMMA], entry + (tail + [RBRACE]));
    assert [QUOTE] + [COMMA] == [QUOTE, COMMA];
  }

  ghost predicate Agrees(r: (bool, map<seq<byte>, seq<byte>>), name: seq<byte>, v: seq<byte>) {
    r.0 && name in r.1 && r.1[name] == v
  }

  /** Values printed raw, and values without a backslash. */
  ghost predicate Readable(m: map<seq<byte>, seq<byte>>) {
    forall name :: name in m ==> PlainName(name) && 0 !in m[name] && (IsRaw(m[name]) || BACKSLASH !in m[name])
  }

  /** The first value that does not survive is read as another one, or the parser gives up. */
  lemma {:induction false} FieldsBreak(t: seq<byte>, p: nat, order: seq<seq<byte>>, m: map<seq<byte>, seq<byte>>,
                                       got: map<seq<byte>, seq<byte>>, bad: seq<byte>)
    returns (name: seq<byte>)
    requires (Printable(m) || Readable(m)) && (forall n :: n in order ==> n in m)
    requires forall i, j :: 0 <= i < j < |order| ==> order[i] != order[j]
    requires forall n :: n in order ==> n !in got
    requires p < |t| && TextAt(t, p + 1, Entries(order, m) + [RBRACE])
    requires bad in order && !Survives(m[bad])
    ensures name in order && !Agrees(Fields(t, p, got), name, m[name])
    decreases |order|
  {
    hide Fields, Entry, PlainName, TextAt, IsRaw, Agrees, Survives;
    var v, rest, more := m[order[0]], order[1..], Tail(order, m);
    if !Survives(v) {
      name := order[0];
      FieldBreaks(t, p, order, m, got);
    } else {
      var next := p + 1 + |Entry(order[0], v)|;
      EntryTaken(t, p, order[0], v, more, got);
      assert |order| > 1;
      Regroup([COMMA], Entries(rest, m), [RBRACE]);
      Suffix(t, next, [COMMA], Entries(rest, m) + [RBRACE]);
      name := FieldsBreak(t, next, rest, m, Inserted(got, order[0], v), bad);
    }
  }

  lemma FieldBreaks(t: seq<byte>, p: nat, order: seq<seq<byte>>, m: map<seq<byte>, seq<byte>>,
                    got: map<seq<byte>, seq<byte>>)
    requires (Printable(m) || Readable(m)) && order != [] && forall n :: n in order ==> n in m
    requires order[0] !in got && !Survives(m[order[0]])
    requires p < |t| && TextAt(t, p + 1, Entries(order, m) + [RBRACE])
    ensures !Agrees(Fields(t, p, got), order[0], m[order[0]])
  {
    hide Entry, PlainName, TextAt, IsRaw, Str, Value, Stops, Printed, Rebuilt;
    var name, v := order[0], m[order[0]];
    Regroup(Entry(name, v), Tail(order, m), [RBRACE]);
    NameReads(t, p + 1, name, v, Tail(order, m) + [RBRACE]);
    var colon := p + 1 + |name| + 2;
    if IsRaw(v) {
      ValueReads(t, colon + 1, v, Tail(order, m) + [RBRACE]);
    } else {
      var f := EntryStops(t, colon + 1, order, m);
      ValueDiffers(t, colon + 1, v, Tail(order, m) + [RBRACE], f);
    }
    match Value(t, colon + 1, false) {
      case Fail =>
      case Ok(next, other) =>
        if next < |t| && t[next] == COMMA { FieldsKeep(t, next, Inserted(got, name, other), name); }
    }
  }

  /** The printer escapes quotes and nothing else: a map with no value printed raw survives
      printing and parsing exactly when no value has a backslash. */
  lemma ObjectRoundTripExactly(order: seq<seq<byte>>, m: map<seq<byte>, seq<byte>>)
    requires Printable(m) && Enumerates(order, m)
    ensures Parse(ObjectText(order, m)) == (true, m) <==> forall name :: name in m ==> BACKSLASH !in m[name]
  {
    hide IsRaw, Fields, PlainName, Entries, Parse;
    ComesBack(order, m);
  }

  /** Where no string has a backslash, a map survives exactly when the only object among its
      values is the empty one. */
  lemma RawRoundTripExactly(order: seq<seq<byte>>, m: map<seq<byte>, seq<byte>>)
    requires Readable(m) && Enumerates(order, m)
    ensures Parse(ObjectText(order, m)) == (true, m) <==>
            forall name :: name in m && IsRaw(m[name]) ==> m[name] == [LBRACE, RBRACE]
  {
    hide IsRaw, Fields, PlainName, Entries, Parse, Rebuilt;
    ComesBack(order, m);
    forall name | name in m && IsRaw(m[name]) ensures Survives(m[name]) <==> m[name] == [LBRACE, RBRACE] {
      RawSurvivesExactly(m[name]);
    }
  }

  lemma ComesBack(order: seq<seq<byte>>, m: map<seq<byte>, seq<byte>>)
    requires (Printable(m) || Readable(m)) && Enumerates(order, m)
    ensures Parse(ObjectText(order, m)) == (true, m) <==> forall name :: name in m ==> Survives(m[name])
  {
    hide IsRaw, Fields, PlainName, Entries, Survives;
    if bad :| bad in m && !Survives(m[bad]) {
      var t := ObjectText(order, m);
      assert t[1..] == Entries(order, m) + [RBRACE];
      var name := FieldsBreak(t, 0, order, m, map[], bad);
    } else {
      ObjectRoundTrip(order, m);
    }
  }

  lemma NameReads(t: seq<byte>, p: nat, name: seq<byte>, v: seq<byte>, rest: seq<byte>)
    requires TextAt(t, p, Entry(name, v) + rest) && PlainName(name)
    ensures var colon := p + |name| + 2;
            && colon + 1 < |t| && Str(t, p) == Ok(colon, name) && t[colon] == COLON
            && TextAt(t, colon + 1, Shown(v) + rest)
  {
    hide Str, Printed, Shown, PlainName, TextAt, NoSpaceFirst, Entry;
    NameParts(name, v, rest);
    var colon, behind := p + |name| + 2, [COLON] + (Shown(v) + rest);
    assert NoSpaceFirst(behind) by { ColonFirst(Shown(v) + rest); }
    StrReads(t, p, name, behind);
    Suffix(t, p, Printed(name), behind);
    FirstChar(t, colon, behind);
    Suffix(t, colon, [COLON], Shown(v) + rest);
    ShownNotEmpty(v, rest);
    FirstChar(t, colon + 1, Shown(v) + rest);
  }

  lemma ShownNotEmpty(v: seq<byte>, rest: seq<byte>)
    ensures Shown(v) + rest != []
  {
  }

  lemma PrintedNotEmpty(v: seq<byte>, rest: seq<byte>)
    ensures Printed(v) + rest != [] && (Printed(v) + rest)[0] == QUOTE
  {
  }

  lemma NameParts(name: seq<byte>, v: seq<byte>, rest: seq<byte>)
    requires PlainName(name)
    ensures Entry(name, v) + rest == Printed(name) + ([COLON] + (Shown(v) + rest))
    ensures |Printed(name)| == |name| + 2 && BACKSLASH !in name
  {
    hide Shown, Escaped;
    PlainIsNotEscaped(name);
    assert Entry(name, v) == Printed(name) + [COLON] + Shown(v);
    Regroup(Printed(name) + [COLON], Shown(v), rest);
    Regroup(Printed(name), [COLON], Shown(v) + rest);
  }

  /** A later field never replaces the value of a name already there. */
  lemma {:induction false} FieldsKeep(t: seq<byte>, p: nat, m: map<seq<byte>, seq<byte>>, name: seq<byte>)
    requires p < |t| && name in m
    ensures var r := Fields(t, p, m).1; name in r && r[name] == m[name]
    decreases |t| - p
  {
    hide Str, Value;
    match Str(t, p + 1) {
      case Fail =>
      case Ok(colon, n) =>
        if colon < |t| && t[colon] == COLON {
          match Value(t, colon + 1, false) {
            case Fail =>
            case Ok(next, v) =>
              if next < |t| && t[next] == COMMA { FieldsKeep(t, next, Inserted(m, n, v), name); }
          }
        }
    }
  }
}
