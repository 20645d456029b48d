/** What the extractors read of a text does not depend on what stands around it, and is no longer
    than the text it was read from. */
module JsonLocal {
  import opened Bytes
  import opened JsonSpec

  /** u stands in t from p on, and a comma or a closing brace behind it. */
  ghost predicate Embeds(u: seq<byte>, t: seq<byte>, p: nat) {
    && p + |u| < |t| && (t[p + |u|] == COMMA || t[p + |u|] == RBRACE)
    && forall i :: 0 <= i < |u| ==> t[p + i] == u[i]
  }

  function Moved(r: Result, p: nat): Result {
    match r
    case Fail => Fail
    case Ok(next, s) => Ok(p + next, s)
  }

  lemma {:induction false} SkipLocal(u: seq<byte>, t: seq<byte>, p: nat, q: nat)
    requires Embeds(u, t, p) && q <= |u|
    ensures SkipSpaces(t, p + q) == p + SkipSpaces(u, q)
    decreases |u| - q
  {
    if q < |u| && u[q] == SP { SkipLocal(u, t, p, q + 1); }
  }

  lemma {:induction false} BodyLocal(u: seq<byte>, t: seq<byte>, p: nat, q: nat, s: seq<byte>)
    requires Embeds(u, t, p) && q <= |u| && Body(u, q, s).Ok?
    ensures Body(t, p + q, s) == Moved(Body(u, q, s), p)
    decreases |u| - q
  {
    if u[q] == QUOTE {
      SkipLocal(u, t, p, q + 1);
    } else if u[q] != BACKSLASH {
      BodyLocal(u, t, p, q + 1, s + [u[q]]);
    } else {
      match EscapeOf(u[q + 1]) {
        case Char(c) => BodyLocal(u, t, p, q + 2, s + [c]);
        case Unicode => BodyLocal(u, t, p, q + 6, s);
      }
    }
  }

  lemma StrLocal(u: seq<byte>, t: seq<byte>, p: nat, q: nat)
    requires Embeds(u, t, p) && q <= |u| && Str(u, q).Ok?
    ensures Str(t, p + q) == Moved(Str(u, q), p)
  {
    hide Body;
    SkipLocal(u, t, p, q);
    BodyLocal(u, t, p, SkipSpaces(u, q) + 1, []);
  }

  lemma {:induction false} LiteralLocal(u: seq<byte>, t: seq<byte>, p: nat, q: nat)
    requires Embeds(u, t, p) && q <= |u|
    ensures LiteralEnd(t, p + q) == p + LiteralEnd(u, q)
    decreases |u| - q
  {
    if q < |u| && !EndsLiteral(u[q]) { LiteralLocal(u, t, p, q + 1); }
  }

  lemma CloseLocal(u: seq<byte>, t: seq<byte>, p: nat, q: nat, open: byte, s: seq<byte>, close: byte)
    requires Embeds(u, t, p) && q <= |u| && Close(u, q, open, s, close).Ok?
    ensures q < |u| && u[q] == close && Close(t, p + q, open, s, close) == Moved(Close(u, q, open, s, close), p)
  {
    SkipLocal(u, t, p, q + 1);
  }

  lemma {:induction false} ValueLocal(u: seq<byte>, t: seq<byte>, p: nat, q: nat, addQuotes: bool)
    requires Embeds(u, t, p) && q <= |u| && Value(u, q, addQuotes).Ok?
    ensures Value(t, p + q, addQuotes) == Moved(Value(u, q, addQuotes), p)
    decreases |u| - q, 2
  {
    hide Str, Items, Members, LiteralEnd, SkipSpaces;
    SkipLocal(u, t, p, q);
    var at := SkipSpaces(u, q);
    if u[at] == QUOTE {
      StrLocal(u, t, p, at);
    } else if u[at] == LBRACE {
      ObjectLocal(u, t, p, at);
    } else if u[at] == LBRACK {
      ArrayLocal(u, t, p, at);
    } else {
      LiteralLocal(u, t, p, at);
      SkipLocal(u, t, p, LiteralEnd(u, at));
      assert t[p + at..p + LiteralEnd(u, at)] == u[at..LiteralEnd(u, at)];
    }
  }

  lemma {:induction false} ArrayLocal(u: seq<byte>, t: seq<byte>, p: nat, q: nat)
    requires Embeds(u, t, p) && q <= |u| && Array(u, q).Ok?
    ensures Array(t, p + q) == Moved(Array(u, q), p)
    decreases |u| - q, 1
  {
    hide Items, SkipSpaces;
    SkipLocal(u, t, p, q);
    ItemsLocal(u, t, p, SkipSpaces(u, q), []);
  }

  lemma {:induction false} ObjectLocal(u: seq<byte>, t: seq<byte>, p: nat, q: nat)
    requires Embeds(u, t, p) && q <= |u| && Object(u, q).Ok?
    ensures Object(t, p + q) == Moved(Object(u, q), p)
    decreases |u| - q, 1
  {
    hide Members, SkipSpaces;
    SkipLocal(u, t, p, q);
    MembersLocal(u, t, p, SkipSpaces(u, q), []);
  }

  /** Nothing but a bracket: no value begins there. */
  lemma NoValue(t: seq<byte>, p: nat, addQuotes: bool)
    requires p < |t| && (t[p] == RBRACK || t[p] == RBRACE)
    ensures Value(t, p, addQuotes) == Fail && Str(t, p) == Fail
  {
  }

  lemma {:induction false} ItemsLocal(u: seq<byte>, t: seq<byte>, p: nat, q: nat, s: seq<byte>)
    requires Embeds(u, t, p) && q < |u| && Items(u, q, s).Ok?
    ensures Items(t, p + q, s) == Moved(Items(u, q, s), p)
    decreases |u| - q, 0
  {
    hide Value, Close, Joined;
    match Value(u, q + 1, true) {
      case Fail =>
        CloseLocal(u, t, p, q + 1, LBRACK, s, RBRACK);
        NoValue(t, p + q + 1, true);
      case Ok(next, v) =>
        ValueLocal(u, t, p, q + 1, true);
        if next < |u| && u[next] == COMMA {
          ItemsLocal(u, t, p, next, Joined(s, v));
        } else {
          CloseLocal(u, t, p, next, LBRACK, Joined(s, v), RBRACK);
        }
    }
  }

  lemma {:induction false} MembersLocal(u: seq<byte>, t: seq<byte>, p: nat, q: nat, s: seq<byte>)
    requires Embeds(u, t, p) && q < |u| && Members(u, q, s).Ok?
    ensures Members(t, p + q, s) == Moved(Members(u, q, s), p)
    decreases |u| - q, 0
  {
    hide Str, Value, Close, Joined;
    match Str(u, q + 1) {
      case Fail =>
        CloseLocal(u, t, p, q + 1, LBRACE, s, RBRACE);
        NoValue(t, p + q + 1, true);
      case Ok(colon, name) =>
        StrLocal(u, t, p, q + 1);
        ValueLocal(u, t, p, colon + 1, true);
        var next, v := Value(u, colon + 1, true).next, Value(u, colon + 1, true).str;
        var joined := Joined(s, name + [COLON] + v);
        if next < |u| && u[next] == COMMA {
          MembersLocal(u, t, p, next, joined);
        } else {
          CloseLocal(u, t, p, next, LBRACE, joined, RBRACE);
        }
    }
  }

  // ---- Lengths ----

  lemma {:induction false} BodyLength(t: seq<byte>, p: nat, s: seq<byte>)
    requires p <= |t|
    ensures var r := Body(t, p, s); r.Ok? ==> |r.str| + p + 1 <= |s| + r.next
    decreases |t| - p
  {
    if p < |t| && t[p] != QUOTE {
      if t[p] != BACKSLASH {
        BodyLength(t, p + 1, s + [t[p]]);
      } else if p + 1 < |t| {
        match EscapeOf(t[p + 1]) {
          case Char(c) => BodyLength(t, p + 2, s + [c]);
          case Unicode => if p + 6 <= |t| { BodyLength(t, p + 6, s); }
          case Bad =>
        }
      }
    }
  }

  lemma StrLength(t: seq<byte>, p: nat)
    requires p <= |t|
    ensures var r := Str(t, p); r.Ok? ==> |r.str| + 2 + p <= r.next
  {
    hide Body;
    var q := SkipSpaces(t, p);
    if q < |t| { BodyLength(t, q + 1, []); }
  }

  lemma {:induction false} ValueLength(t: seq<byte>, p: nat)
    requires p <= |t|
    ensures var r := Value(t, p, true); r.Ok? ==> |r.str| + p <= r.next
    decreases |t| - p, 2
  {
    hide Str, Items, Members;
    var q := SkipSpaces(t, p);
    if q < |t| {
      StrLength(t, q);
      if t[q] == LBRACE { ObjectLength(t, q); }
      if t[q] == LBRACK { ArrayLength(t, q); }
    }
  }

  lemma {:induction false} ArrayLength(t: seq<byte>, p: nat)
    requires p <= |t|
    ensures var r := Array(t, p); r.Ok? ==> |r.str| + p <= r.next
    decreases |t| - p, 1
  {
    hide Items;
    var q := SkipSpaces(t, p);
    if q < |t| { ItemsLength(t, q, []); }
  }

  lemma {:induction false} ObjectLength(t: seq<byte>, p: nat)
    requires p <= |t|
    ensures var r := Object(t, p); r.Ok? ==> |r.str| + p <= r.next
    decreases |t| - p, 1
  {
    hide Members;
    var q := SkipSpaces(t, p);
    if q < |t| { MembersLength(t, q, []); }
  }

  /** The character at p pays for the opening bracket or, behind the first item, for a comma. */
  lemma {:induction false} ItemsLength(t: seq<byte>, p: nat, s: seq<byte>)
    requires p < |t|
    ensures var r := Items(t, p, s); r.Ok? ==> |r.str| + p <= |s| + (if s == [] then 0 else 1) + r.next
    decreases |t| - p, 0
  {
    hide Value;
    ValueLength(t, p + 1);
    match Value(t, p + 1, true) {
      case Fail =>
      case Ok(next, v) =>
        if next < |t| && t[next] == COMMA { ItemsLength(t, next, Joined(s, v)); }
    }
  }

  lemma {:induction false} MembersLength(t: seq<byte>, p: nat, s: seq<byte>)
    requires p < |t|
    ensures var r := Members(t, p, s); r.Ok? ==> |r.str| + p <= |s| + (if s == [] then 0 else 1) + r.next
    decreases |t| - p, 0
  {
    hide Value, Str;
    StrLength(t, p + 1);
    match Str(t, p + 1) {
      case Fail =>
      case Ok(colon, name) =>
        if colon < |t| && t[colon] == COLON {
          ValueLength(t, colon + 1);
          match Value(t, colon + 1, true) {
            case Fail =>
            case Ok(next, v) =>
              if next < |t| && t[next] == COMMA { MembersLength(t, next, Joined(s, name + [COLON] + v)); }
          }
        }
    }
  }

  // ---- A value printed raw ----

  /** What the extractor makes of a value that is an object: names lose their quotes, spaces and
      escapes go, and what stands behind the object is not looked at. */
  function Rebuilt(v: seq<byte>): seq<byte> {
    match Object(v, 0)
    case Fail => []
    case Ok(_, s) => s
  }

  lemma QuotesOnly(t: seq<byte>, p: nat)
    requires p <= |t|
    ensures Value(t, p, true).Ok? <==> Value(t, p, false).Ok?
    ensures Value(t, p, true).Ok? ==> Value(t, p, true).next == Value(t, p, false).next
  {
    hide Str, Object, Array;
  }

  /** Where the top-level loop succeeds, so does the one for nested objects. */
  lemma {:induction false} FieldsAreMembers(t: seq<byte>, p: nat, m: map<seq<byte>, seq<byte>>, s: seq<byte>)
    requires p < |t| && Fields(t, p, m).0
    ensures Members(t, p, s).Ok?
    decreases |t| - p
  {
    hide Str, Value, Inserted, Joined;
    match Str(t, p + 1) {
      case Fail =>
      case Ok(colon, name) =>
        QuotesOnly(t, colon + 1);
        var next, v := Value(t, colon + 1, true).next, Value(t, colon + 1, true).str;
        if next < |t| && t[next] == COMMA {
          FieldsAreMembers(t, next, Inserted(m, name, Value(t, colon + 1, false).str), Joined(s, name + [COLON] + v));
        }
    }
  }

  /** A raw value is read as what it is rebuilt to, and up to its end if that is the value itself. */
  lemma RawReads(t: seq<byte>, p: nat, v: seq<byte>)
    requires IsRaw(v) && Embeds(v, t, p)
    ensures var r := Value(t, p, false);
            r.Ok? && r.str == Rebuilt(v) && (Rebuilt(v) == v ==> r.next == p + |v|)
  {
    hide Members, Fields;
    FieldsAreMembers(v, 0, map[], []);
    ObjectLocal(v, t, p, 0);
    ObjectLength(v, 0);
    assert t[p + 0] == v[0];
  }

  /** Only the empty object is rebuilt to itself: every name loses its quotes. */
  lemma RawSurvivesExactly(v: seq<byte>)
    requires IsRaw(v)
    ensures Rebuilt(v) == v <==> v == [LBRACE, RBRACE]
  {
    hide Str, Value, Fields, Members;
    FieldsAreMembers(v, 0, map[], []);
    MembersShrink(v);
    if v == [LBRACE, RBRACE] { EmptyRebuilt(); }
  }

  /** An object is rebuilt to the empty one, or to less than it was. */
  lemma MembersShrink(v: seq<byte>)
    requires v != [] && v[0] == LBRACE && Members(v, 0, []).Ok?
    ensures var r := Members(v, 0, []); r.str == [LBRACE, RBRACE] || |r.str| < |v|
  {
    hide Str, Value;
    StrLength(v, 1);
    match Str(v, 1) {
      case Fail =>
      case Ok(colon, name) =>
        ValueLength(v, colon + 1);
        var next, value := Value(v, colon + 1, true).next, Value(v, colon + 1, true).str;
        if next < |v| && v[next] == COMMA { MembersLength(v, next, Joined([], name + [COLON] + value)); }
    }
  }

  lemma EmptyRebuilt()
    ensures Rebuilt([LBRACE, RBRACE]) == [LBRACE, RBRACE]
  {
    var v := [LBRACE, RBRACE];
    assert SkipSpaces(v, 0) == 0 && SkipSpaces(v, 1) == 1 && SkipSpaces(v, 2) == 2;
    assert Str(v, 1) == Fail;
    assert Members(v, 0, []) == Close(v, 1, LBRACE, [], RBRACE);
    assert [LBRACE] + [] + [RBRACE] == v;
  }
}
