/** What the reader makes of a whole JSON document: every document, as a tree, its text byte by byte, and what
    comes out of the parser for that text.  Strings in it are those of JsonStrings. */
module JsonTrees {
  import opened Bytes
  import opened JsonSpec
  import opened JsonStrings

  datatype Json = Text(pieces: seq<Piece>) | Word(word: seq<byte>) | List(items: Items) | Record(members: Members)

  datatype Items = NoItem | Item(first: Json, rest: Items)

  datatype Members = NoMember | Member(name: seq<Piece>, value: Json, rest: Members)

  /** true, false, null, or what begins like a number: numbers are not checked. */
  predicate GoodWord(w: seq<byte>) {
    || w == [116, 114, 117, 101]
    || w == [102, 97, 108, 115, 101]
    || w == [110, 117, 108, 108]
    || (w != [] && (w[0] == 45 || 48 <= w[0] <= 57) && forall b :: b in w ==> b !in {0, 32, 44, 93, 125})
  }

  ghost predicate Good(j: Json) {
    match j
    case Text(pieces) => GoodPieces(pieces)
    case Word(word) => GoodWord(word)
    case List(items) => GoodItems(items)
    case Record(members) => GoodMembers(members)
  }

  ghost predicate GoodItems(items: Items) {
    items.Item? ==> Good(items.first) && GoodItems(items.rest)
  }

  ghost predicate GoodMembers(members: Members) {
    members.Member? ==> GoodPieces(members.name) && Good(members.value) && GoodMembers(members.rest)
  }

  /** The document as text, without spaces. */
  function TextOf(j: Json): seq<byte> {
    match j
    case Text(pieces) => StringText(pieces)
    case Word(word) => word
    case List(items) => [91] + ItemsText(items) + [93]
    case Record(members) => [123] + MembersText(members) + [125]
  }

  function ItemsText(items: Items): seq<byte> {
    match items
    case NoItem => []
    case Item(first, rest) => TextOf(first) + (if rest.Item? then [44] + ItemsText(rest) else [])
  }

  function MembersText(members: Members): seq<byte> {
    match members
    case NoMember => []
    case Member(name, value, rest) =>
      (StringText(name) + [58] + TextOf(value)) + (if rest.Member? then [44] + MembersText(rest) else [])
  }

  /** What the parser turns it into: strings lose their escapes, those inside keep their quotes, but the names of
      inner objects lose theirs. */
  function Out(j: Json, quotes: bool): seq<byte> {
    match j
    case Text(pieces) => if quotes then [34] + Meaning(pieces) + [34] else Meaning(pieces)
    case Word(word) => word
    case List(items) => [91] + ItemsOut(items) + [93]
    case Record(members) => [123] + MembersOut(members) + [125]
  }

  function ItemsOut(items: Items): seq<byte> {
    match items
    case NoItem => []
    case Item(first, rest) => Out(first, true) + (if rest.Item? then [44] + ItemsOut(rest) else [])
  }

  function MembersOut(members: Members): seq<byte> {
    match members
    case NoMember => []
    case Member(name, value, rest) =>
      (Meaning(name) + [58] + Out(value, true)) + (if rest.Member? then [44] + MembersOut(rest) else [])
  }

  /** What can stand behind a value. */
  predicate Ends(tail: seq<byte>) {
    tail != [] && (tail[0] == 44 || tail[0] == 93 || tail[0] == 125)
  }

  lemma NoSpaceAfter(t: seq<byte>, p: nat, tail: seq<byte>)
    requires TextAt(t, p, tail) && (Ends(tail) || tail == [])
    ensures SkipSpaces(t, p) == p && (tail != [] ==> p < |t| && t[p] == tail[0])
  {
    if tail != [] { Prefix(t, p, tail, [], 0); assert tail + [] == tail; }
  }

  // ---- Words ----

  lemma GoodWordIs(w: seq<byte>)
    requires GoodWord(w)
    ensures w != [] && StartsLiteral(w[0]) && GoodLiteral(w) && w[0] !in {32, 34, 91, 123}
    ensures forall i :: 0 <= i < |w| ==> !EndsLiteral(w[i])
  {
    forall i | 0 <= i < |w| ensures !EndsLiteral(w[i]) {
      assert w[i] in w;
    }
  }

  lemma {:induction false} WordEnds(t: seq<byte>, p: nat, w: seq<byte>, tail: seq<byte>)
    requires TextAt(t, p, w + tail) && Ends(tail) && forall i :: 0 <= i < |w| ==> !EndsLiteral(w[i])
    ensures LiteralEnd(t, p) == p + |w|
    decreases |w|
  {
    if w == [] {
      assert w + tail == tail && tail + [] == tail;
      Prefix(t, p, tail, [], 0);
    } else {
      Prefix(t, p, w, tail, 0);
      assert w + tail == [w[0]] + (w[1..] + tail);
      Suffix(t, p, [w[0]], w[1..] + tail);
      WordEnds(t, p + 1, w[1..], tail);
    }
  }

  lemma WordReads(t: seq<byte>, p: nat, w: seq<byte>, tail: seq<byte>, quotes: bool)
    requires TextAt(t, p, w + tail) && GoodWord(w) && Ends(tail)
    ensures Value(t, p, quotes) == Ok(p + |w|, w)
  {
    hide LiteralEnd, GoodWord, GoodLiteral, EndsLiteral, TextAt, Ends;
    GoodWordIs(w);
    Prefix(t, p, w, tail, 0);
    WordEnds(t, p, w, tail);
    Suffix(t, p, w, tail);
    NoSpaceAfter(t, p + |w|, tail);
    Between(t, p, w, tail);
  }

  lemma Between(t: seq<byte>, p: nat, a: seq<byte>, b: seq<byte>)
    requires TextAt(t, p, a + b)
    ensures p + |a| <= |t| && t[p..p + |a|] == a
  {
    assert t[p..p + |a|] == t[p..][..|a|];
  }

  // ---- Strings, lists and records ----

  lemma TextReads(t: seq<byte>, p: nat, xs: seq<Piece>, tail: seq<byte>, quotes: bool)
    requires TextAt(t, p, StringText(xs) + tail) && GoodPieces(xs) && Ends(tail)
    ensures p + |StringText(xs)| <= |t|
    ensures Value(t, p, quotes) == Ok(p + |StringText(xs)|, Out(Text(xs), quotes))
  {
    hide Str, StringText, GoodPieces, TextAt, Ends, Meaning;
    StringMeans(t, p, xs, tail);
    Suffix(t, p, StringText(xs), tail);
    NoSpaceAfter(t, p + |StringText(xs)|, tail);
  }

  /** Every value is read as what it comes to. */
  lemma {:induction false} ValueReads(t: seq<byte>, p: nat, j: Json, tail: seq<byte>, quotes: bool)
    requires TextAt(t, p, TextOf(j) + tail) && Good(j) && Ends(tail)
    ensures p + |TextOf(j)| <= |t| && Value(t, p, quotes) == Ok(p + |TextOf(j)|, Out(j, quotes))
    decreases j
  {
    hide Value, TextAt, Ends, GoodWord, GoodPieces, ItemsText, MembersText, ItemsOut, MembersOut, Str, StringText;
    Between(t, p, TextOf(j), tail);
    match j {
      case Text(xs) => TextReads(t, p, xs, tail, quotes);
      case Word(w) => WordReads(t, p, w, tail, quotes);
      case List(items) =>
        Opens(t, p, 91, ItemsText(items), 93, tail);
        if items.Item? {
          ItemsRead(t, p, items, [], tail);
          NothingBefore(ItemsOut(items));
        } else {
          EmptyListReads(t, p, tail);
        }
        ListValue(t, p, quotes);
      case Record(members) =>
        Opens(t, p, 123, MembersText(members), 125, tail);
        if members.Member? {
          MembersRead(t, p, members, [], tail);
          NothingBefore(MembersOut(members));
        } else {
          EmptyRecordReads(t, p, tail);
        }
        RecordValue(t, p, quotes);
    }
  }

  lemma Opens(t: seq<byte>, p: nat, open: byte, inner: seq<byte>, close: byte, tail: seq<byte>)
    requires TextAt(t, p, [open] + inner + [close] + tail)
    ensures p < |t| && t[p] == open && TextAt(t, p + 1, inner + ([close] + tail))
  {
    assert [open] + inner + [close] + tail == [open] + (inner + ([close] + tail));
    Prefix(t, p, [open], inner + ([close] + tail), 0);
    Suffix(t, p, [open], inner + ([close] + tail));
  }

  lemma NothingBefore(x: seq<byte>)
    ensures Joined([], x) == x
  {
    assert [] + x == x;
  }

  lemma ListValue(t: seq<byte>, p: nat, quotes: bool)
    requires p < |t| && t[p] == 91
    ensures Value(t, p, quotes) == JsonSpec.Items(t, p, [])
  {
  }

  lemma RecordValue(t: seq<byte>, p: nat, quotes: bool)
    requires p < |t| && t[p] == 123
    ensures Value(t, p, quotes) == JsonSpec.Members(t, p, [])
  {
  }

  lemma EmptyListReads(t: seq<byte>, p: nat, tail: seq<byte>)
    requires p < |t| && TextAt(t, p + 1, ItemsText(NoItem) + ([93] + tail)) && Ends(tail)
    ensures JsonSpec.Items(t, p, []) == Ok(p + |TextOf(List(NoItem))|, Out(List(NoItem), true))
  {
    assert ItemsText(NoItem) + ([93] + tail) == [93] + tail;
    Prefix(t, p + 1, [93], tail, 0);
    Suffix(t, p + 1, [93], tail);
    NoSpaceAfter(t, p + 2, tail);
  }

  lemma EmptyRecordReads(t: seq<byte>, p: nat, tail: seq<byte>)
    requires p < |t| && TextAt(t, p + 1, MembersText(NoMember) + ([125] + tail)) && Ends(tail)
    ensures JsonSpec.Members(t, p, []) == Ok(p + |TextOf(Record(NoMember))|, Out(Record(NoMember), true))
  {
    assert MembersText(NoMember) + ([125] + tail) == [125] + tail;
    Prefix(t, p + 1, [125], tail, 0);
    Suffix(t, p + 1, [125], tail);
    NoSpaceAfter(t, p + 2, tail);
  }

  /** The loop over the items, `s` being what the ones before have come to. */
  lemma {:induction false} ItemsRead(t: seq<byte>, p: nat, items: Items, s: seq<byte>, tail: seq<byte>)
    requires p < |t| && TextAt(t, p + 1, ItemsText(items) + ([93] + tail)) && items.Item?
    requires GoodItems(items) && Ends(tail)
    ensures JsonSpec.Items(t, p, s) ==
              Ok(p + 1 + |ItemsText(items)| + 1, [91] + Joined(s, ItemsOut(items)) + [93])
    decreases items
  {
    hide Value, TextAt, JsonSpec.Items, Joined, TextOf, Out, Good, ItemsOut;
    var j, next := items.first, p + 1 + |TextOf(items.first)|;
    var more := if items.rest.Item? then [44] + ItemsText(items.rest) else [];
    Regroup(TextOf(j), more, [93] + tail);
    MoreEnds(more, 93, tail);
    ValueReads(t, p + 1, j, more + ([93] + tail), true);
    Suffix(t, p + 1, TextOf(j), more + ([93] + tail));
    ItemTaken(t, p, s, next, Out(j, true), more, tail);
    JoinItems(s, items);
    if items.rest.Item? {
      Regroup([44], ItemsText(items.rest), [93] + tail);
      Suffix(t, next, [44], ItemsText(items.rest) + ([93] + tail));
      ItemsRead(t, next, items.rest, Joined(s, Out(j, true)), tail);
    }
  }

  lemma MoreEnds(more: seq<byte>, close: byte, tail: seq<byte>)
    requires more == [] || more[0] == 44
    requires close == 93 || close == 125
    ensures Ends(more + ([close] + tail))
  {
  }

  lemma ItemTaken(t: seq<byte>, p: nat, s: seq<byte>, next: nat, v: seq<byte>, more: seq<byte>, tail: seq<byte>)
    requires p < |t| && next <= |t| && Value(t, p + 1, true) == Ok(next, v)
    requires TextAt(t, next, more + ([93] + tail)) && Ends(tail) && (more == [] || more[0] == 44)
    ensures next < |t|
    ensures JsonSpec.Items(t, p, s) ==
              if more != [] then JsonSpec.Items(t, next, Joined(s, v)) else Ok(next + 1, [91] + Joined(s, v) + [93])
  {
    hide Value, Joined;
    if more == [] {
      assert more + ([93] + tail) == [93] + tail;
      Prefix(t, next, [93], tail, 0);
      Suffix(t, next, [93], tail);
      NoSpaceAfter(t, next + 1, tail);
    } else {
      Prefix(t, next, more, [93] + tail, 0);
    }
  }

  lemma {:induction false} OutIsSome(j: Json)
    requires Good(j)
    ensures Out(j, true) != []
  {
  }

  lemma JoinItems(s: seq<byte>, items: Items)
    requires items.Item? && GoodItems(items)
    ensures Joined(s, ItemsOut(items)) ==
              if items.rest.Item? then Joined(Joined(s, Out(items.first, true)), ItemsOut(items.rest))
              else Joined(s, Out(items.first, true))
  {
    hide Good, Out;
    OutIsSome(items.first);
    var v := Out(items.first, true);
    assert v + [] == v;
    if items.rest.Item? { JoinThree(s, v, ItemsOut(items.rest)); }
  }

  lemma JoinThree(s: seq<byte>, v: seq<byte>, rest: seq<byte>)
    requires v != []
    ensures Joined(Joined(s, v), rest) == Joined(s, v + ([44] + rest))
  {
    assert s + [44] + v + [44] + rest == s + [44] + (v + ([44] + rest));
    assert v + [44] + rest == v + ([44] + rest);
  }

  /** The loop over the members of an inner object. */
  lemma {:induction false} MembersRead(t: seq<byte>, p: nat, members: Members, s: seq<byte>, tail: seq<byte>)
    requires p < |t| && TextAt(t, p + 1, MembersText(members) + ([125] + tail)) && members.Member?
    requires GoodMembers(members) && Ends(tail)
    ensures JsonSpec.Members(t, p, s) ==
              Ok(p + 1 + |MembersText(members)| + 1, [123] + Joined(s, MembersOut(members)) + [125])
    decreases members
  {
    hide Value, Str, TextAt, JsonSpec.Members, Joined, TextOf, Out, Good, MembersOut, StringText, GoodPieces;
    var j, colon := members.value, p + 1 + |StringText(members.name)|;
    var next := colon + 1 + |TextOf(j)|;
    var more := if members.rest.Member? then [44] + MembersText(members.rest) else [];
    MemberSplits(members.name, TextOf(j), more, 125, tail);
    NameReads(t, p + 1, members.name, TextOf(j) + (more + ([125] + tail)));
    MoreEnds(more, 125, tail);
    ValueReads(t, colon + 1, j, more + ([125] + tail), true);
    Suffix(t, colon + 1, TextOf(j), more + ([125] + tail));
    MemberTaken(t, p, s, colon, Meaning(members.name), next, Out(j, true), more, tail);
    JoinMembers(s, members);
    if members.rest.Member? {
      Regroup([44], MembersText(members.rest), [125] + tail);
      Suffix(t, next, [44], MembersText(members.rest) + ([125] + tail));
      MembersRead(t, next, members.rest, Joined(s, Meaning(members.name) + [58] + Out(j, true)), tail);
    }
  }

  lemma MemberSplits(name: seq<Piece>, value: seq<byte>, more: seq<byte>, close: byte, tail: seq<byte>)
    ensures (StringText(name) + [58] + value) + more + ([close] + tail) ==
            StringText(name) + ([58] + (value + (more + ([close] + tail))))
  {
  }

  lemma NameReads(t: seq<byte>, p: nat, name: seq<Piece>, rest: seq<byte>)
    requires TextAt(t, p, StringText(name) + ([58] + rest)) && GoodPieces(name)
    ensures var colon := p + |StringText(name)|;
            colon < |t| && t[colon] == 58 && Str(t, p) == Ok(colon, Meaning(name)) && TextAt(t, colon + 1, rest)
  {
    hide Str, StringText;
    StringMeans(t, p, name, [58] + rest);
    Suffix(t, p, StringText(name), [58] + rest);
    Prefix(t, p + |StringText(name)|, [58], rest, 0);
    Suffix(t, p + |StringText(name)|, [58], rest);
  }

  lemma MemberTaken(t: seq<byte>, p: nat, s: seq<byte>, colon: nat, name: seq<byte>, next: nat, v: seq<byte>,
                    more: seq<byte>, tail: seq<byte>)
    requires p < |t| && Str(t, p + 1) == Ok(colon, name) && colon < |t| && t[colon] == 58
    requires next <= |t| && Value(t, colon + 1, true) == Ok(next, v)
    requires TextAt(t, next, more + ([125] + tail)) && Ends(tail) && (more == [] || more[0] == 44)
    ensures next < |t|
    ensures var s1 := Joined(s, name + [58] + v);
            JsonSpec.Members(t, p, s) ==
              if more != [] then JsonSpec.Members(t, next, s1) else Ok(next + 1, [123] + s1 + [125])
  {
    hide Value, Str, Joined;
    if more == [] {
      assert more + ([125] + tail) == [125] + tail;
      Prefix(t, next, [125], tail, 0);
      Suffix(t, next, [125], tail);
      NoSpaceAfter(t, next + 1, tail);
    } else {
      Prefix(t, next, more, [125] + tail, 0);
    }
  }

  lemma JoinMembers(s: seq<byte>, members: Members)
    requires members.Member?
    ensures var v := Meaning(members.name) + [58] + Out(members.value, true);
            Joined(s, MembersOut(members)) ==
              if members.rest.Member? then Joined(Joined(s, v), MembersOut(members.rest)) else Joined(s, v)
  {
    hide Out, Meaning;
    var v := Meaning(members.name) + [58] + Out(members.value, true);
    assert v + [] == v;
    if members.rest.Member? { JoinThree(s, v, MembersOut(members.rest)); }
  }

  // ---- The whole document ----

  /** The values by name: the first of a name stays. */
  function ValuesOf(m: map<seq<byte>, seq<byte>>, members: Members): map<seq<byte>, seq<byte>>
    decreases members
  {
    match members
    case NoMember => m
    case Member(name, value, rest) =>
      ValuesOf(if Meaning(name) in m then m else m[Meaning(name) := Out(value, false)], rest)
  }

  /** The loop over the members of the document. */
  lemma {:induction false} FieldsRead(t: seq<byte>, p: nat, members: Members, m: map<seq<byte>, seq<byte>>)
    requires p < |t| && TextAt(t, p + 1, MembersText(members) + [125]) && GoodMembers(members)
    ensures Fields(t, p, m) == (true, ValuesOf(m, members))
    decreases members
  {
    hide Value, Str, TextAt, Fields, TextOf, Out, Good, StringText, GoodPieces, Meaning;
    if members.NoMember? {
      NoFieldRead(t, p, m);
    } else {
      var j, colon := members.value, p + 1 + |StringText(members.name)|;
      var next := colon + 1 + |TextOf(j)|;
      var more := if members.rest.Member? then [44] + MembersText(members.rest) else [];
      assert [125] + [] == [125];
      MemberSplits(members.name, TextOf(j), more, 125, []);
      NameReads(t, p + 1, members.name, TextOf(j) + (more + ([125] + [])));
      MoreEnds(more, 125, []);
      ValueReads(t, colon + 1, j, more + ([125] + []), false);
      Suffix(t, colon + 1, TextOf(j), more + ([125] + []));
      FieldTaken(t, p, m, colon, Meaning(members.name), next, Out(j, false), more);
      if members.rest.Member? {
        Regroup([44], MembersText(members.rest), [125]);
        Suffix(t, next, [44], MembersText(members.rest) + [125]);
        FieldsRead(t, next, members.rest, Inserted(m, Meaning(members.name), Out(j, false)));
      }
    }
  }

  lemma NoFieldRead(t: seq<byte>, p: nat, m: map<seq<byte>, seq<byte>>)
    requires p < |t| && TextAt(t, p + 1, MembersText(NoMember) + [125])
    ensures Fields(t, p, m) == (true, m)
  {
    assert MembersText(NoMember) + [125] == [125] + [];
    Prefix(t, p + 1, [125], [], 0);
  }

  lemma FieldTaken(t: seq<byte>, p: nat, m: map<seq<byte>, seq<byte>>, colon: nat, name: seq<byte>, next: nat,
                   v: seq<byte>, more: seq<byte>)
    requires p < |t| && Str(t, p + 1) == Ok(colon, name) && colon < |t| && t[colon] == 58
    requires next <= |t| && Value(t, colon + 1, false) == Ok(next, v)
    requires TextAt(t, next, more + ([125] + [])) && (more == [] || more[0] == 44)
    ensures next < |t|
    ensures Fields(t, p, m) ==
              if more != [] then Fields(t, next, Inserted(m, name, v)) else (true, Inserted(m, name, v))
  {
    hide Value, Str, Inserted;
    if more == [] {
      assert more + ([125] + []) == [125] + [];
      Prefix(t, next, [125], [], 0);
    } else {
      Prefix(t, next, more, [125] + [], 0);
    }
  }

  /** Every document that is an object is read as its values by name. */
  lemma DocumentReads(members: Members)
    requires GoodMembers(members)
    ensures Parse(TextOf(Record(members))) == (true, ValuesOf(map[], members))
  {
    hide Fields, MembersText;
    var t := TextOf(Record(members));
    assert t[1..] == MembersText(members) + [125];
    FieldsRead(t, 0, members, map[]);
  }

  function Names(members: Members): set<seq<byte>> {
    match members
    case NoMember => {}
    case Member(name, _, rest) => {Meaning(name)} + Names(rest)
  }

  /** A name that is taken keeps its value, and no other names come up. */
  lemma {:induction false} FirstStays(m: map<seq<byte>, seq<byte>>, members: Members)
    ensures ValuesOf(m, members).Keys == m.Keys + Names(members)
    ensures forall name :: name in m ==> ValuesOf(m, members)[name] == m[name]
    ensures members.Member? && Meaning(members.name) !in m ==>
              ValuesOf(m, members)[Meaning(members.name)] == Out(members.value, false)
    decreases members
  {
    hide Meaning, Out;
    if members.Member? {
      var name := Meaning(members.name);
      FirstStays(if name in m then m else m[name := Out(members.value, false)], members.rest);
    }
  }

  /** The outcome of the parser on a text, if the text is a document. */
  ghost predicate ReadsDocuments(t: seq<byte>, ok: bool, values: map<seq<byte>, seq<byte>>) {
    && (forall members :: GoodMembers(members) && t == TextOf(Record(members)) ==>
         ok && values == ValuesOf(map[], members))
    && (forall name, v :: t == [123, 34] + Rfc(name) + [34, 58, 34] + Rfc(v) + [34, 125] ==>
         ok && values == map[name := v])
  }

  lemma DocumentsRead(t: seq<byte>)
    ensures ReadsDocuments(t, Parse(t).0, Parse(t).1)
  {
    hide Parse, Rfc;
    forall members | GoodMembers(members) && t == TextOf(Record(members))
      ensures Parse(t) == (true, ValuesOf(map[], members))
    {
      DocumentReads(members);
    }
    forall name, v | t == [123, 34] + Rfc(name) + [34, 58, 34] + Rfc(v) + [34, 125]
      ensures Parse(t) == (true, map[name := v])
    {
      OneFieldReadBack(name, v);
    }
  }

  /** One name and one value, both escaped: every value comes back, backslashes and line ends included. */
  lemma OneFieldReadBack(name: seq<byte>, v: seq<byte>)
    ensures Parse([123, 34] + Rfc(name) + [34, 58, 34] + Rfc(v) + [34, 125]) == (true, map[name := v])
  {
    hide Parse, Rfc, Spelling, Meaning, GoodPieces;
    var xs := RfcPieces(name);
    var ys := RfcPieces(v);
    var members := Member(xs, Text(ys), NoMember);
    DocumentReads(members);
    OneFieldText(Rfc(name), Rfc(v));
    assert members.rest == NoMember && members.value == Text(ys);
    assert MembersText(members) == (StringText(xs) + [58] + StringText(ys)) + [];
  }

  lemma OneFieldText(a: seq<byte>, b: seq<byte>)
    ensures [123] + ((([34] + a + [34]) + [58] + ([34] + b + [34])) + []) + [125] ==
            [123, 34] + a + [34, 58, 34] + b + [34, 125]
  {
  }
}
