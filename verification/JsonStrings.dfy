/** What the bytes of a JSON string mean, character by character as section 7 of RFC 8259 writes them: the
    reader is proved against this, not against its own table of escapes. */
module JsonStrings {
  import opened Bytes
  import opened JsonSpec

  /** A character of a string: itself, a backslash and one letter, or a backslash, u and four digits. */
  datatype Piece = Raw(c: byte) | Short(letter: byte) | Hex(four: seq<byte>)

  predicate GoodPiece(x: Piece) {
    match x
    case Raw(c) => c != 34 && c != 92
    case Short(letter) => letter in {34, 92, 47, 98, 102, 110, 114, 116}
    case Hex(four) => |four| == 4
  }

  function Spelled(x: Piece): seq<byte> {
    match x
    case Raw(c) => [c]
    case Short(letter) => [92, letter]
    case Hex(four) => [92, 117] + four
  }

  /** What a piece stands for: a \u is not supported and adds nothing. */
  function Meant(x: Piece): seq<byte> {
    match x
    case Raw(c) => [c]
    case Short(letter) =>
      if letter == 98 then [8] else if letter == 102 then [12] else if letter == 110 then [10]
      else if letter == 114 then [13] else if letter == 116 then [9] else [letter]
    case Hex(_) => []
  }

  ghost predicate GoodPieces(xs: seq<Piece>) {
    forall x :: x in xs ==> GoodPiece(x)
  }

  function Spelling(xs: seq<Piece>): seq<byte> {
    if xs == [] then [] else Spelled(xs[0]) + Spelling(xs[1..])
  }

  function Meaning(xs: seq<Piece>): seq<byte> {
    if xs == [] then [] else Meant(xs[0]) + Meaning(xs[1..])
  }

  /** The escaper of section 7 of RFC 8259, by byte numbers. */
  function Rfc(v: seq<byte>): seq<byte> {
    if v == [] then []
    else
      (if v[0] == 34 then [92, 34] else if v[0] == 92 then [92, 92] else if v[0] == 8 then [92, 98]
       else if v[0] == 12 then [92, 102] else if v[0] == 10 then [92, 110] else if v[0] == 13 then [92, 114]
       else if v[0] == 9 then [92, 116] else [v[0]]) + Rfc(v[1..])
  }

  /** The pieces that escaper writes. */
  lemma {:induction false} RfcPieces(v: seq<byte>) returns (xs: seq<Piece>)
    ensures GoodPieces(xs) && Spelling(xs) == Rfc(v) && Meaning(xs) == v
  {
    xs := [];
    if v != [] {
      var c := v[0];
      var x := if c == 34 || c == 92 then Short(c) else if c == 8 then Short(98) else if c == 12 then Short(102)
               else if c == 10 then Short(110) else if c == 13 then Short(114) else if c == 9 then Short(116)
               else Raw(c);
      xs := RfcPieces(v[1..]);
      xs := [x] + xs;
      assert Meant(x) == [c] && v == [c] + v[1..];
    }
  }

  /** The text from a cursor on. */
  ghost predicate TextAt(t: seq<byte>, p: nat, x: seq<byte>) {
    p <= |t| && t[p..] == x
  }

  lemma Suffix(t: seq<byte>, p: nat, a: seq<byte>, b: seq<byte>)
    requires TextAt(t, p, a + b)
    ensures TextAt(t, p + |a|, b)
  {
    assert t[p + |a|..] == t[p..][|a|..];
  }

  lemma Prefix(t: seq<byte>, p: nat, a: seq<byte>, b: seq<byte>, i: nat)
    requires TextAt(t, p, a + b) && i < |a|
    ensures p + i < |t| && t[p + i] == a[i]
  {
    assert t[p + i] == t[p..][i];
  }

  /** The reader reads one piece as what it means. */
  lemma PieceReads(t: seq<byte>, p: nat, x: Piece, rest: seq<byte>, s: seq<byte>)
    requires TextAt(t, p, Spelled(x) + rest) && GoodPiece(x)
    ensures p + |Spelled(x)| <= |t| && Body(t, p, s) == Body(t, p + |Spelled(x)|, s + Meant(x))
  {
    Suffix(t, p, Spelled(x), rest);
    Prefix(t, p, Spelled(x), rest, 0);
    if !x.Raw? { Prefix(t, p, Spelled(x), rest, 1); }
    assert s + [] == s;
  }

  lemma FirstPiece(xs: seq<Piece>, tail: seq<byte>, s: seq<byte>)
    requires xs != [] && GoodPieces(xs)
    ensures GoodPiece(xs[0]) && GoodPieces(xs[1..])
    ensures |Spelling(xs)| == |Spelled(xs[0])| + |Spelling(xs[1..])|
    ensures Spelling(xs) + tail == Spelled(xs[0]) + (Spelling(xs[1..]) + tail)
    ensures s + Meaning(xs) == (s + Meant(xs[0])) + Meaning(xs[1..])
  {
    hide GoodPiece, Spelled, Meant;
    Regroup(Spelled(xs[0]), Spelling(xs[1..]), tail);
    Regroup(s, Meant(xs[0]), Meaning(xs[1..]));
  }

  lemma BodyEnds(t: seq<byte>, p: nat, rest: seq<byte>, s: seq<byte>)
    requires TextAt(t, p, [] + ([34] + rest))
    ensures p < |t| && Body(t, p, s) == Ok(SkipSpaces(t, p + 1), s + [])
  {
    assert [] + ([34] + rest) == [34] + rest && s + [] == s;
    Prefix(t, p, [34], rest, 0);
  }

  /** And all of a string, up to its closing quote. */
  lemma {:induction false} BodyMeans(t: seq<byte>, p: nat, xs: seq<Piece>, rest: seq<byte>, s: seq<byte>)
    requires TextAt(t, p, Spelling(xs) + ([34] + rest)) && GoodPieces(xs)
    ensures p + |Spelling(xs)| < |t|
    ensures Body(t, p, s) == Ok(SkipSpaces(t, p + |Spelling(xs)| + 1), s + Meaning(xs))
    decreases |xs|
  {
    hide GoodPiece, GoodPieces, Spelled, Meant, Body, SkipSpaces, TextAt;
    if xs == [] {
      BodyEnds(t, p, rest, s);
    } else {
      var x, more := xs[0], Spelling(xs[1..]) + ([34] + rest);
      FirstPiece(xs, [34] + rest, s);
      PieceReads(t, p, x, more, s);
      Suffix(t, p, Spelled(x), more);
      BodyMeans(t, p + |Spelled(x)|, xs[1..], rest, s + Meant(x));
    }
  }

  function StringText(xs: seq<Piece>): seq<byte> {
    [34] + Spelling(xs) + [34]
  }

  lemma StringMeans(t: seq<byte>, p: nat, xs: seq<Piece>, rest: seq<byte>)
    requires TextAt(t, p, StringText(xs) + rest) && GoodPieces(xs)
    ensures p < |t| && t[p] == 34 && p + |StringText(xs)| <= |t|
    ensures Str(t, p) == Ok(SkipSpaces(t, p + |StringText(xs)|), Meaning(xs))
  {
    hide Body, Spelling, Meaning, GoodPieces, TextAt;
    OpenQuote(xs, rest);
    Prefix(t, p, [34], Spelling(xs) + ([34] + rest), 0);
    Suffix(t, p, [34], Spelling(xs) + ([34] + rest));
    BodyMeans(t, p + 1, xs, rest, []);
    assert [] + Meaning(xs) == Meaning(xs);
  }

  lemma OpenQuote(xs: seq<Piece>, rest: seq<byte>)
    ensures StringText(xs) + rest == [34] + (Spelling(xs) + ([34] + rest)) && |StringText(xs)| == |Spelling(xs)| + 2
  {
  }

  /** Every value is read back from its escaped text, backslashes included. */
  lemma EscapedReadBack(t: seq<byte>, p: nat, v: seq<byte>, rest: seq<byte>)
    requires TextAt(t, p, [34] + Rfc(v) + [34] + rest)
    ensures p + |Rfc(v)| + 2 <= |t| && Str(t, p) == Ok(SkipSpaces(t, p + |Rfc(v)| + 2), v)
  {
    hide Str;
    var xs := RfcPieces(v);
    StringMeans(t, p, xs, rest);
  }

  /** Whatever the reader accepts as a string is spelled this way: it accepts nothing else. */
  lemma {:induction false} BodyIsSpelled(t: seq<byte>, p: nat, s: seq<byte>) returns (xs: seq<Piece>, rest: seq<byte>)
    requires p <= |t| && Body(t, p, s).Ok?
    ensures GoodPieces(xs) && TextAt(t, p, Spelling(xs) + ([34] + rest)) && Body(t, p, s).str == s + Meaning(xs)
    decreases |t| - p
  {
    hide Spelling, Meaning, GoodPieces, SkipSpaces;
    xs, rest := [], [];
    if t[p] == 34 {
      rest := t[p + 1..];
      NoPiece(s);
      assert t[p..] == [34] + rest && [] + ([34] + rest) == [34] + rest;
    } else {
      var x := PieceAt(t, p, s);
      PieceReads(t, p, x, t[p + |Spelled(x)|..], s);
      xs, rest := BodyIsSpelled(t, p + |Spelled(x)|, s + Meant(x));
      OnePieceMore(x, xs, rest, s);
      Before(t, p, Spelled(x), Spelling(xs) + ([34] + rest));
      xs := [x] + xs;
    }
  }

  lemma NoPiece(s: seq<byte>)
    ensures GoodPieces([]) && Spelling([]) == [] && Meaning([]) == [] && s + [] == s
  {
  }

  lemma Before(t: seq<byte>, p: nat, a: seq<byte>, b: seq<byte>)
    requires p + |a| <= |t| && t[p..p + |a|] == a && TextAt(t, p + |a|, b)
    ensures TextAt(t, p, a + b)
  {
    assert t[p..] == t[p..p + |a|] + t[p + |a|..];
  }

  lemma PieceAt(t: seq<byte>, p: nat, s: seq<byte>) returns (x: Piece)
    requires p < |t| && t[p] != 34 && Body(t, p, s).Ok?
    ensures GoodPiece(x) && p + |Spelled(x)| <= |t| && t[p..p + |Spelled(x)|] == Spelled(x)
    ensures TextAt(t, p, Spelled(x) + t[p + |Spelled(x)|..])
  {
    if t[p] != 92 {
      x := Raw(t[p]);
    } else if t[p + 1] == 117 {
      x := Hex(t[p + 2..p + 6]);
      assert t[p..p + 6] == [92, 117] + t[p + 2..p + 6];
    } else {
      x := Short(t[p + 1]);
    }
    assert t[p..] == t[p..p + |Spelled(x)|] + t[p + |Spelled(x)|..];
  }

  lemma OnePieceMore(x: Piece, xs: seq<Piece>, rest: seq<byte>, s: seq<byte>)
    requires GoodPiece(x) && GoodPieces(xs)
    ensures GoodPieces([x] + xs)
    ensures Spelling([x] + xs) + ([34] + rest) == Spelled(x) + (Spelling(xs) + ([34] + rest))
    ensures s + Meaning([x] + xs) == s + Meant(x) + Meaning(xs)
  {
    assert ([x] + xs)[1..] == xs;
    Regroup(Spelled(x), Spelling(xs), [34] + rest);
    Regroup(s, Meant(x), Meaning(xs));
  }

  /** What is skipped in front of a value: spaces, and all of them. */
  lemma {:induction false} SpacesSkipped(t: seq<byte>, p: nat)
    requires p <= |t|
    ensures forall i :: p <= i < SkipSpaces(t, p) ==> t[i] == 32
    ensures SkipSpaces(t, p) < |t| ==> t[SkipSpaces(t, p)] != 32
    decreases |t| - p
  {
    if p < |t| && t[p] == 32 { SpacesSkipped(t, p + 1); }
  }

  lemma StrIsSpelled(t: seq<byte>, p: nat) returns (xs: seq<Piece>, rest: seq<byte>)
    requires p <= |t| && Str(t, p).Ok?
    ensures GoodPieces(xs) && TextAt(t, SkipSpaces(t, p), StringText(xs) + rest) && Str(t, p).str == Meaning(xs)
  {
    hide Spelling, Meaning, GoodPieces, Body;
    var q := SkipSpaces(t, p);
    xs, rest := BodyIsSpelled(t, q + 1, []);
    assert [] + Meaning(xs) == Meaning(xs) && t[q..q + 1] == [34];
    Before(t, q, [34], Spelling(xs) + ([34] + rest));
    OpenQuote(xs, rest);
  }
}
