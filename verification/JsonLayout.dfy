/** What the text of JSON.stringify looks like: the pieces of the value in order, and between two of them the white space
    that they and the number of open brackets call for. */
module JsonLayout {
  import opened Characters
  import opened JsonText
  import opened JsonRoundTrip

  /** What a JSON text consists of besides white space. */
  datatype Piece = OpenBracket | CloseBracket | OpenBrace | CloseBrace | Comma | Colon | Scalar(text: Text) {
    predicate Opens() {
      OpenBracket? || OpenBrace?
    }

    predicate Closes() {
      CloseBracket? || CloseBrace?
    }

    function Written(): Text {
      match this
      case OpenBracket => ['[' as int]
      case CloseBracket => [']' as int]
      case OpenBrace => ['{' as int]
      case CloseBrace => ['}' as int]
      case Comma => [',' as int]
      case Colon => [':' as int]
      case Scalar(text) => text
    }
  }

  /** One unit of a string: quotes, backslashes and units below 32 are escaped, and nothing else. */
  function Spelling(c: Unit): Text {
    if c == '"' as int then ['\\' as int, '"' as int]
    else if c == '\\' as int then ['\\' as int, '\\' as int]
    else if c >= 32 then [c]
    else if c == 8 then ['\\' as int, 'b' as int]
    else if c == 9 then ['\\' as int, 't' as int]
    else if c == 10 then ['\\' as int, 'n' as int]
    else if c == 12 then ['\\' as int, 'f' as int]
    else if c == 13 then ['\\' as int, 'r' as int]
    else ['\\' as int, 'u' as int, '0' as int, '0' as int, Lower(c / 16), Lower(c % 16)]
  }

  function Lower(d: nat): Unit
    requires d < 16
  {
    "0123456789abcdef"[d] as int
  }

  function Spelled(s: Text): Text {
    if s == [] then [] else Spelling(s[0]) + Spelled(s[1..])
  }

  function Quoted(s: Text): Piece {
    Scalar(['"' as int] + Spelled(s) + ['"' as int])
  }

  function Pieces(v: Json): seq<Piece>
    decreases v, 1
  {
    match v
    case Null => [Scalar(['n' as int, 'u' as int, 'l' as int, 'l' as int])]
    case Bool(b) =>
      [Scalar(if b then ['t' as int, 'r' as int, 'u' as int, 'e' as int]
              else ['f' as int, 'a' as int, 'l' as int, 's' as int, 'e' as int])]
    case Num(lexeme) => [Scalar(lexeme)]
    case Str(s) => [Quoted(s)]
    case Arr(items) => [OpenBracket] + ItemPieces(items) + [CloseBracket]
    case Obj(props) => [OpenBrace] + PropPieces(props) + [CloseBrace]
  }

  function ItemPieces(items: seq<Json>): seq<Piece>
    decreases items, 0
  {
    if items == [] then []
    else if |items| == 1 then Pieces(items[0])
    else Pieces(items[0]) + [Comma] + ItemPieces(items[1..])
  }

  function MemberPieces(p: Prop): seq<Piece>
    decreases p, 2
  {
    [Quoted(p.key), Colon] + Pieces(p.value)
  }

  function PropPieces(props: seq<Prop>): seq<Piece>
    decreases props, 0
  {
    if props == [] then []
    else if |props| == 1 then MemberPieces(props[0])
    else MemberPieces(props[0]) + [Comma] + PropPieces(props[1..])
  }

  function Copies(gap: Text, n: nat): Text {
    if n == 0 then [] else Copies(gap, n - 1) + gap
  }

  /** What stands before a piece. */
  datatype Place = AtStart | BehindOpening | BehindComma | BehindColon | BehindValue

  function Behind(p: Piece): Place {
    if p.Opens() then BehindOpening else if p == Comma then BehindComma else if p == Colon then BehindColon else BehindValue
  }

  /**
   * The white space before `next` where `depth` brackets are open: none without a gap; a line for what is first in brackets,
   * for what follows a comma and for a closing bracket that does not follow its opening one, indented by one gap for every
   * bracket that is open on that line; one space behind a colon; none elsewhere.
   */
  function Space(place: Place, next: Piece, gap: Text, depth: nat): Text {
    if gap == [] then []
    else if next.Closes() then (if place.BehindOpening? || depth == 0 then [] else [10] + Copies(gap, depth - 1))
    else if place.BehindOpening? || place.BehindComma? then [10] + Copies(gap, depth)
    else if place.BehindColon? then [32]
    else []
  }

  function DepthBehind(depth: nat, p: Piece): nat {
    if p.Opens() then depth + 1 else if p.Closes() && depth > 0 then depth - 1 else depth
  }

  /** The pieces with the white space before each. */
  function Laid(pieces: seq<Piece>, gap: Text, depth: nat, place: Place): Text {
    if pieces == [] then []
    else
      Space(place, pieces[0], gap, depth) +
      (pieces[0].Written() + Laid(pieces[1..], gap, DepthBehind(depth, pieces[0]), Behind(pieces[0])))
  }

  // ---- It is what is written ----

  lemma SpellingIs(c: Unit)
    ensures Spelling(c) == QuoteUnit(c)
  {
    if c < 32 && c != 34 && c != 92 {
      LowerIs(c / 16);
      LowerIs(c % 16);
    }
  }

  lemma LowerIs(d: nat)
    requires d < 16
    ensures Lower(d) == HexDigit(d, 97)
  {
    assert d < 10 ==> "0123456789abcdef"[d] as int == 48 + d;
    assert 10 <= d ==> "0123456789abcdef"[d] as int == 87 + d;
  }

  lemma {:induction false} SpelledIs(s: Text)
    ensures Spelled(s) == QuoteBody(s)
  {
    if s != [] {
      SpellingIs(s[0]);
      SpelledIs(s[1..]);
    }
  }

  lemma QuotedIs(s: Text)
    ensures Quoted(s) == Scalar(Quote(s))
  {
    SpelledIs(s);
  }

  lemma LaidOne(p: Piece, rest: seq<Piece>, gap: Text, depth: nat, place: Place)
    ensures Laid([p] + rest, gap, depth, place) ==
      Space(place, p, gap, depth) + (p.Written() + Laid(rest, gap, DepthBehind(depth, p), Behind(p)))
  {
    assert ([p] + rest)[1..] == rest;
  }

  /** The white space before a value. */
  function Before(gap: Text, depth: nat, place: Place): Text {
    Space(place, Scalar([]), gap, depth)
  }

  lemma {:induction false} ValueLaid(v: Json, gap: Text, depth: nat, place: Place, rest: seq<Piece>)
    ensures Laid(Pieces(v) + rest, gap, depth, place) ==
      Before(gap, depth, place) + (Stringify(v, gap, Copies(gap, depth)) + Laid(rest, gap, depth, BehindValue))
    decreases v, 3
  {
    match v
    case Arr(items) => ArrayLaid(items, gap, depth, place, rest);
    case Obj(props) => ObjectLaid(props, gap, depth, place, rest);
    case Str(s) =>
      QuotedIs(s);
      LaidOne(Quoted(s), rest, gap, depth, place);
    case Null => LaidOne(Pieces(v)[0], rest, gap, depth, place);
    case Bool(_) => LaidOne(Pieces(v)[0], rest, gap, depth, place);
    case Num(_) => LaidOne(Pieces(v)[0], rest, gap, depth, place);
  }

  lemma Reassoc<T>(a: seq<T>, b: seq<T>, c: seq<T>, d: seq<T>)
    ensures a + b + c + d == a + (b + (c + d))
  {}

  /** Both kinds of brackets, around what is laid out as `inner`. */
  lemma {:induction false} BracketsLaid(
    open: Piece, close: Piece, within: seq<Piece>, inner: Text, gap: Text, depth: nat, place: Place, rest: seq<Piece>)
    requires open.Opens() && close.Closes()
    requires Laid(within + ([close] + rest), gap, depth + 1, BehindOpening) ==
      Break(gap, Copies(gap, depth + 1)) + (inner + Laid([close] + rest, gap, depth + 1, BehindValue))
    ensures Laid([open] + within + [close] + rest, gap, depth, place) ==
      Before(gap, depth, place) +
      ((open.Written() + (Break(gap, Copies(gap, depth + 1)) + (inner + (Break(gap, Copies(gap, depth)) + close.Written()))))
       + Laid(rest, gap, depth, BehindValue))
  {
    hide Copies;
    Reassoc([open], within, [close], rest);
    LaidOne(open, within + ([close] + rest), gap, depth, place);
    LaidOne(close, rest, gap, depth + 1, BehindValue);
    var end, after := Break(gap, Copies(gap, depth)), Laid(rest, gap, depth, BehindValue);
    assert Space(BehindValue, close, gap, depth + 1) == end;
    hide Laid, Break, Space;
    Assoc(end, close.Written(), after);
    BracketsJoin(open.Written(), Break(gap, Copies(gap, depth + 1)), inner, end + close.Written(), after);
  }

  lemma BracketsJoin(a: Text, b: Text, c: Text, d: Text, e: Text)
    ensures a + (b + (c + (d + e))) == a + (b + (c + d)) + e
  {}

  lemma {:induction false} EmptyLaid(open: Piece, close: Piece, gap: Text, depth: nat, place: Place, rest: seq<Piece>)
    requires open.Opens() && close.Closes()
    ensures Laid([open] + [] + [close] + rest, gap, depth, place) ==
      Before(gap, depth, place) + (open.Written() + close.Written() + Laid(rest, gap, depth, BehindValue))
  {
    assert [open] + [] + [close] + rest == [open] + ([close] + rest);
    LaidOne(open, [close] + rest, gap, depth, place);
    LaidOne(close, rest, gap, depth + 1, BehindOpening);
    Assoc(open.Written(), close.Written(), Laid(rest, gap, depth, BehindValue));
    EmptyFirst(close.Written() + Laid(rest, gap, depth, BehindValue));
  }

  lemma {:induction false} ArrayText(items: seq<Json>, gap: Text, depth: nat)
    ensures Pieces(Arr(items)) == [OpenBracket] + ItemPieces(items) + [CloseBracket]
    ensures Stringify(Arr(items), gap, Copies(gap, depth)) ==
      if items == [] then OpenBracket.Written() + CloseBracket.Written()
      else
        OpenBracket.Written() + (Break(gap, Copies(gap, depth + 1)) +
        (ItemsText(items, gap, Copies(gap, depth + 1), true) + (Break(gap, Copies(gap, depth)) + CloseBracket.Written())))
  {
    hide ItemsText, Break, ItemPieces;
  }

  lemma {:induction false} ArrayLaid(items: seq<Json>, gap: Text, depth: nat, place: Place, rest: seq<Piece>)
    ensures Laid(Pieces(Arr(items)) + rest, gap, depth, place) ==
      Before(gap, depth, place) + (Stringify(Arr(items), gap, Copies(gap, depth)) + Laid(rest, gap, depth, BehindValue))
    decreases items, 2
  {
    ArrayText(items, gap, depth);
    hide Pieces, Stringify, Laid, Before, ItemsText;
    if items == [] {
      EmptyLaid(OpenBracket, CloseBracket, gap, depth, place, rest);
    } else {
      ItemsLaid(items, gap, depth + 1, BehindOpening, [CloseBracket] + rest);
      hide ItemPieces, Copies, Break;
      BracketsLaid(OpenBracket, CloseBracket, ItemPieces(items), ItemsText(items, gap, Copies(gap, depth + 1), true),
                   gap, depth, place, rest);
    }
  }

  lemma {:induction false} ObjectText(props: seq<Prop>, gap: Text, depth: nat)
    ensures Pieces(Obj(props)) == [OpenBrace] + PropPieces(props) + [CloseBrace]
    ensures Stringify(Obj(props), gap, Copies(gap, depth)) ==
      if props == [] then OpenBrace.Written() + CloseBrace.Written()
      else
        OpenBrace.Written() + (Break(gap, Copies(gap, depth + 1)) +
        (PropsText(props, gap, Copies(gap, depth + 1), true) + (Break(gap, Copies(gap, depth)) + CloseBrace.Written())))
  {
    hide PropsText, Break, PropPieces;
  }

  lemma {:induction false} ObjectLaid(props: seq<Prop>, gap: Text, depth: nat, place: Place, rest: seq<Piece>)
    ensures Laid(Pieces(Obj(props)) + rest, gap, depth, place) ==
      Before(gap, depth, place) + (Stringify(Obj(props), gap, Copies(gap, depth)) + Laid(rest, gap, depth, BehindValue))
    decreases props, 2
  {
    ObjectText(props, gap, depth);
    hide Pieces, Stringify, Laid, Before, PropsText;
    if props == [] {
      EmptyLaid(OpenBrace, CloseBrace, gap, depth, place, rest);
    } else {
      PropsLaid(props, gap, depth + 1, BehindOpening, [CloseBrace] + rest);
      hide PropPieces, Copies, Break;
      BracketsLaid(OpenBrace, CloseBrace, PropPieces(props), PropsText(props, gap, Copies(gap, depth + 1), true),
                   gap, depth, place, rest);
    }
  }

  /** One item, a comma and the others. */
  lemma CommaJoin(start: Text, one: Text, comma: Text, line: Text, more: Text, after: Text)
    ensures start + (one + (comma + (line + (more + after)))) == start + ((one + (comma + line + more)) + after)
  {}

  lemma {:induction false} ItemsLaid(items: seq<Json>, gap: Text, depth: nat, place: Place, rest: seq<Piece>)
    requires items != [] && (place.BehindOpening? || place.BehindComma?)
    ensures Laid(ItemPieces(items) + rest, gap, depth, place) ==
      Break(gap, Copies(gap, depth)) + (ItemsText(items, gap, Copies(gap, depth), true) + Laid(rest, gap, depth, BehindValue))
    decreases items, 1
  {
    var line, indent := Break(gap, Copies(gap, depth)), Copies(gap, depth);
    assert Before(gap, depth, place) == line;
    if |items| == 1 {
      ValueLaid(items[0], gap, depth, place, rest);
      OneItem(items, gap, indent);
    } else {
      var tail := items[1..];
      var k := ItemPieces(tail) + rest;
      assert ItemPieces(items) == Pieces(items[0]) + [Comma] + ItemPieces(tail);
      hide Laid, Stringify, ItemsText, Break, Before, Pieces, ItemPieces, Copies;
      ValueLaid(items[0], gap, depth, place, [Comma] + k);
      LaidOne(Comma, k, gap, depth, BehindValue);
      ItemsLaid(tail, gap, depth, BehindComma, rest);
      MoreItems(items, gap, indent);
      assert Space(BehindValue, Comma, gap, depth) == [];
      EmptyFirst([COMMA] + Laid(k, gap, depth, BehindComma));
      PiecesJoin(Pieces(items[0]), ItemPieces(tail), rest);
      CommaJoin(line, Stringify(items[0], gap, indent), [COMMA], line, ItemsText(tail, gap, indent, true), Laid(rest, gap, depth, BehindValue));
    }
  }

  lemma PiecesJoin(a: seq<Piece>, b: seq<Piece>, rest: seq<Piece>)
    ensures a + [Comma] + b + rest == a + ([Comma] + (b + rest))
  {}

  lemma {:induction false} OneItem(items: seq<Json>, gap: Text, indent: Text)
    requires |items| == 1
    ensures ItemsText(items, gap, indent, true) == Stringify(items[0], gap, indent)
  {
    assert ItemsText(items[1..], gap, indent, false) == [];
  }

  lemma {:induction false} MoreItems(items: seq<Json>, gap: Text, indent: Text)
    requires |items| > 1
    ensures ItemsText(items, gap, indent, true) ==
      Stringify(items[0], gap, indent) + ([COMMA] + Break(gap, indent) + ItemsText(items[1..], gap, indent, true))
  {
    hide Break, Stringify;
    var one, tail := Stringify(items[0], gap, indent), items[1..];
    EmptyFirst(one + ItemsText(tail, gap, indent, false));
    EmptyFirst(Stringify(tail[0], gap, indent) + ItemsText(tail[1..], gap, indent, false));
  }

  lemma {:induction false} NameLaid(key: Text, gap: Text, depth: nat, place: Place, k: seq<Piece>)
    requires place.BehindOpening? || place.BehindComma?
    ensures Laid([Quoted(key), Colon] + k, gap, depth, place) ==
      Break(gap, Copies(gap, depth)) + (Quote(key) + ([COLON] + Laid(k, gap, depth, BehindColon)))
  {
    assert [Quoted(key), Colon] + k == [Quoted(key)] + ([Colon] + k);
    QuotedIs(key);
    LaidOne(Quoted(key), [Colon] + k, gap, depth, place);
    LaidOne(Colon, k, gap, depth, BehindValue);
    hide Laid, Copies, Quote, Quoted;
    assert Space(BehindValue, Colon, gap, depth) == [];
    EmptyFirst([COLON] + Laid(k, gap, depth, BehindColon));
  }

  lemma {:induction false} MemberLaid(p: Prop, gap: Text, depth: nat, place: Place, rest: seq<Piece>)
    requires place.BehindOpening? || place.BehindComma?
    ensures Laid(MemberPieces(p) + rest, gap, depth, place) ==
      Break(gap, Copies(gap, depth)) + (PropText(p, gap, Copies(gap, depth)) + Laid(rest, gap, depth, BehindValue))
    decreases p, 4
  {
    var k := Pieces(p.value) + rest;
    Assoc([Quoted(p.key), Colon], Pieces(p.value), rest);
    NameLaid(p.key, gap, depth, place, k);
    ValueLaid(p.value, gap, depth, BehindColon, rest);
    assert Before(gap, depth, BehindColon) == Spacing(gap);
    hide Laid, Stringify, Break, Space, Before, Pieces, Copies, Quote, Quoted, Spacing;
    MemberJoin(Break(gap, Copies(gap, depth)), Quote(p.key), [COLON], Spacing(gap),
               Stringify(p.value, gap, Copies(gap, depth)), Laid(rest, gap, depth, BehindValue));
  }

  lemma MemberJoin(line: Text, key: Text, colon: Text, space: Text, value: Text, after: Text)
    ensures line + (key + (colon + (space + (value + after)))) == line + ((key + (colon + (space + value))) + after)
  {}

  lemma {:induction false} PropsLaid(props: seq<Prop>, gap: Text, depth: nat, place: Place, rest: seq<Piece>)
    requires props != [] && (place.BehindOpening? || place.BehindComma?)
    ensures Laid(PropPieces(props) + rest, gap, depth, place) ==
      Break(gap, Copies(gap, depth)) + (PropsText(props, gap, Copies(gap, depth), true) + Laid(rest, gap, depth, BehindValue))
    decreases props, 1
  {
    var line, indent := Break(gap, Copies(gap, depth)), Copies(gap, depth);
    if |props| == 1 {
      MemberLaid(props[0], gap, depth, place, rest);
      OneProp(props, gap, indent);
    } else {
      var tail := props[1..];
      var k := PropPieces(tail) + rest;
      assert PropPieces(props) == MemberPieces(props[0]) + [Comma] + PropPieces(tail);
      hide Laid, PropText, PropsText, Break, Before, MemberPieces, PropPieces, Copies;
      MemberLaid(props[0], gap, depth, place, [Comma] + k);
      LaidOne(Comma, k, gap, depth, BehindValue);
      PropsLaid(tail, gap, depth, BehindComma, rest);
      MoreProps(props, gap, indent);
      assert Space(BehindValue, Comma, gap, depth) == [];
      EmptyFirst([COMMA] + Laid(k, gap, depth, BehindComma));
      PiecesJoin(MemberPieces(props[0]), PropPieces(tail), rest);
      CommaJoin(line, PropText(props[0], gap, indent), [COMMA], line, PropsText(tail, gap, indent, true), Laid(rest, gap, depth, BehindValue));
    }
  }

  lemma {:induction false} OneProp(props: seq<Prop>, gap: Text, indent: Text)
    requires |props| == 1
    ensures PropsText(props, gap, indent, true) == PropText(props[0], gap, indent)
  {
    assert PropsText(props[1..], gap, indent, false) == [];
  }

  lemma {:induction false} MoreProps(props: seq<Prop>, gap: Text, indent: Text)
    requires |props| > 1
    ensures PropsText(props, gap, indent, true) ==
      PropText(props[0], gap, indent) + ([COMMA] + Break(gap, indent) + PropsText(props[1..], gap, indent, true))
  {
    hide Break, PropText;
    var one, tail := PropText(props[0], gap, indent), props[1..];
    EmptyFirst(one + PropsText(tail, gap, indent, false));
    EmptyFirst(PropText(tail[0], gap, indent) + PropsText(tail[1..], gap, indent, false));
  }

  /** The text that is written for a tree. */
  lemma WrittenLaidOut(v: Json, gap: Text)
    ensures Stringify(v, gap, []) == Laid(Pieces(v), gap, 0, AtStart)
  {
    ValueLaid(v, gap, 0, AtStart, []);
    var t := Stringify(v, gap, []);
    assert Pieces(v) + [] == Pieces(v);
    assert Copies(gap, 0) == [] && Before(gap, 0, AtStart) == [] && Laid([], gap, 0, BehindValue) == [];
    assert [] + (t + []) == t;
  }
}
