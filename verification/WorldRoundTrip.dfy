/** World files are read back: however the words are spaced, the strings escaped, and the fields of a
    node ordered. */
module WorldRoundTrip {
  import opened Ast
  import opened Numerals
  import opened Sequences
  import opened Split
  import opened WorldParser
  import opened Wrappers

  /** The stream as the parser sees it: words, and strings where an adjacency list is read. */
  datatype Lexeme = Word(text: string) | Str(text: string)

  ghost predicate Lexes(s: string, ls: seq<Lexeme>)
    decreases |ls|
  {
    if ls == [] then SkipSpace(s) == ""
    else
      match ls[0]
      case Word(w) => ReadToken(s).Got? && ReadToken(s).value == w && Lexes(ReadToken(s).rest, ls[1..])
      case Str(t) => ReadString(s).front == t && Lexes(ReadString(s).rest, ls[1..])
  }

  /** A lexeme and the space in front of it. */
  datatype Placed = Placed(gap: string, lexeme: Lexeme)

  predicate IsGap(s: string) {
    forall i | 0 <= i < |s| :: s[i] in {' ', '\t', '\n', '\U{0B}', '\U{0C}', '\r'}
  }

  /** Words without space can be written down, and any strings. */
  predicate Writable(p: Placed) {
    && p.gap != "" && IsGap(p.gap)
    && (p.lexeme.Word? ==> p.lexeme.text != "" && forall i | 0 <= i < |p.lexeme.text| :: !IsGap([p.lexeme.text[i]]))
  }

  /** A quote or a backslash in a string is written behind a backslash. */
  function Escaped(t: string): string {
    if t == "" then ""
    else if t[0] == '"' || t[0] == '\\' then "\\" + ([t[0]] + Escaped(t[1..]))
    else [t[0]] + Escaped(t[1..])
  }

  function Written(ps: seq<Placed>): string {
    if ps == [] then ""
    else if ps[0].lexeme.Word? then ps[0].gap + (ps[0].lexeme.text + Written(ps[1..]))
    else ps[0].gap + ("\"" + (Escaped(ps[0].lexeme.text) + ("\"" + Written(ps[1..]))))
  }

  function LexemesOf(ps: seq<Placed>): seq<Lexeme> {
    if ps == [] then [] else [ps[0].lexeme] + LexemesOf(ps[1..])
  }

  lemma SpaceIsGap(c: char)
    ensures IsSpace(c) <==> IsGap([c])
  {
    assert IsGap([c]) <==> [c][0] in {' ', '\t', '\n', '\U{0B}', '\U{0C}', '\r'};
  }

  lemma {:induction false} TakesWord(w: string, rest: string)
    requires forall i | 0 <= i < |w| :: !IsSpace(w[i])
    requires rest == "" || IsSpace(rest[0])
    ensures TakeWord(w + rest) == Cut(w, rest)
    decreases |w|
  {
    if w == "" {
      assert w + rest == rest;
    } else {
      assert (w + rest)[1..] == w[1..] + rest;
      TakesWord(w[1..], rest);
    }
  }

  lemma TakesOne(c: char, u: string)
    ensures var r := TakeQuoted(u);
            && TakeQuoted("\\" + ([c] + u)) == Cut([c] + r.front, r.rest)
            && (c != '"' && c != '\\' ==> TakeQuoted([c] + u) == Cut([c] + r.front, r.rest))
  {
    assert ("\\" + ([c] + u))[2..] == u && ([c] + u)[1..] == u;
  }

  lemma TakesNone(rest: string)
    ensures TakeQuoted("" + ("\"" + rest)) == Cut("", rest)
  {
    assert "" + ("\"" + rest) == "\"" + rest;
    assert ("\"" + rest)[1..] == rest;
  }

  lemma {:induction false} TakesQuoted(t: string, rest: string)
    ensures TakeQuoted(Escaped(t) + ("\"" + rest)) == Cut(t, rest)
    decreases |t|
  {
    if t == "" {
      TakesNone(rest);
    } else {
      var escaped, close := Escaped(t[1..]), "\"" + rest;
      TakesQuoted(t[1..], rest);
      TakesOne(t[0], escaped + close);
      Associative([t[0]], escaped, close);
      Associative("\\", [t[0]] + escaped, close);
      assert t == [t[0]] + t[1..];
    }
  }

  lemma {:induction false} SkipsGap(gap: string, u: string)
    requires IsGap(gap) && (u == "" || !IsSpace(u[0]))
    ensures SkipSpace(gap + u) == u
    decreases |gap|
  {
    if gap == "" {
      assert gap + u == u;
    } else {
      assert IsGap([gap[0]]);
      SpaceIsGap(gap[0]);
      assert (gap + u)[1..] == gap[1..] + u;
      SkipsGap(gap[1..], u);
    }
  }

  lemma ReadsWord(gap: string, w: string, rest: string)
    requires IsGap(gap) && w != "" && forall i | 0 <= i < |w| :: !IsSpace(w[i])
    requires rest == "" || IsSpace(rest[0])
    ensures ReadToken(gap + (w + rest)) == Got(w, rest)
  {
    SkipsGap(gap, w + rest);
    TakesWord(w, rest);
  }

  lemma ReadsQuoted(gap: string, t: string, rest: string)
    requires IsGap(gap)
    ensures ReadString(gap + ("\"" + (Escaped(t) + ("\"" + rest)))) == Cut(t, rest)
  {
    var u := "\"" + (Escaped(t) + ("\"" + rest));
    SpaceIsGap('"');
    SkipsGap(gap, u);
    assert u[1..] == Escaped(t) + ("\"" + rest);
    TakesQuoted(t, rest);
  }

  /** Lexemes that are written down are read back, whatever space stands between them and whatever
      characters the strings hold. */
  lemma {:induction false} WrittenLexes(ps: seq<Placed>)
    requires forall i | 0 <= i < |ps| :: Writable(ps[i])
    ensures Lexes(Written(ps), LexemesOf(ps))
    ensures Written(ps) != "" ==> IsSpace(Written(ps)[0])
    decreases |ps|
  {
    if ps != [] {
      WrittenLexes(ps[1..]);
      assert Writable(ps[0]);
      var gap, text, rest := ps[0].gap, ps[0].lexeme.text, Written(ps[1..]);
      assert IsGap([gap[0]]);
      SpaceIsGap(gap[0]);
      assert LexemesOf(ps)[1..] == LexemesOf(ps[1..]);
      if ps[0].lexeme.Word? {
        forall i | 0 <= i < |text|
          ensures !IsSpace(text[i])
        {
          SpaceIsGap(text[i]);
        }
        ReadsWord(gap, text, rest);
      } else {
        ReadsQuoted(gap, text, rest);
      }
    }
  }

  /** What `stoi` makes of any text: space, a sign and digits are read, what follows is ignored, and
      values outside 32 bits are rejected, as are texts without digits. */
  lemma StoiReads(gap: string, sign: string, digits: string, rest: string)
    requires IsGap(gap) && sign in {"", "+", "-"} && AllDigits(digits)
    requires rest != "" ==> !IsDigit(rest[0])
    requires sign == "" && digits == "" && rest != "" ==> !IsSpace(rest[0]) && rest[0] != '+' && rest[0] != '-'
    ensures var size: int := NatOf(digits);
            var v := if sign == "-" then -size else size;
            Stoi(gap + (sign + (digits + rest))) ==
            if digits == "" then NoInt(InvalidArgument)
            else if -2147483648 <= v <= 2147483647 then IntRead(v)
            else NoInt(OutOfRange)
  {
    var u, t := sign + (digits + rest), digits + rest;
    NumberStarts(sign, digits, rest);
    StoiBehindGap(gap, u);
    UnsignedIs(digits, rest);
    if sign == "-" {
      StoiMinus(t);
    } else if sign == "+" {
      StoiPlus(t);
    } else {
      StoiUnsigned(t);
    }
  }

  lemma StoiBehindGap(gap: string, u: string)
    requires IsGap(gap) && (u != "" ==> !IsSpace(u[0]))
    ensures Stoi(gap + u) == Stoi(u)
  {
    SkipsGap(gap, u);
  }

  lemma StoiMinus(t: string)
    ensures var m := MatchUnsigned(t, false);
            Stoi("-" + t) == IntOf(if m.NoMatch? then NoMatch else Match(m.numeral.(negative := true), m.rest))
  {
    StoiPlain("-" + t);
    AfterMinus(t, false);
  }

  lemma StoiPlus(t: string)
    ensures Stoi("+" + t) == IntOf(MatchUnsigned(t, false))
  {
    assert ("+" + t)[1..] == t;
  }

  lemma StoiUnsigned(t: string)
    requires t != "" ==> !IsSpace(t[0]) && t[0] != '+' && t[0] != '-'
    ensures Stoi(t) == IntOf(MatchUnsigned(t, false))
  {
    StoiPlain(t);
  }

  lemma NumberStarts(sign: string, digits: string, rest: string)
    requires sign in {"", "+", "-"} && AllDigits(digits)
    requires sign == "" && digits == "" && rest != "" ==> !IsSpace(rest[0]) && rest[0] != '+' && rest[0] != '-'
    ensures var u := sign + (digits + rest);
            && (u != "" ==> !IsSpace(u[0]))
            && (sign != "" ==> u[0] == sign[0])
            && (sign == "" ==> u == digits + rest && (u != "" ==> u[0] != '+' && u[0] != '-'))
  {
    var u := sign + (digits + rest);
    SpaceIsGap(if u == "" then ' ' else u[0]);
    assert sign == "" ==> u == digits + rest;
    assert digits != "" ==> (digits + rest)[0] == digits[0];
    assert digits == "" ==> digits + rest == rest;
  }

  lemma UnsignedIs(digits: string, rest: string)
    requires AllDigits(digits) && (rest != "" ==> !IsDigit(rest[0]))
    ensures MatchUnsigned(digits + rest, false) ==
            if digits == "" then NoMatch else Match(Numeral(false, digits, ""), rest)
  {
    TakeDigitsIs(digits, rest);
  }

  /** An adjacency list of any parts: the first part that is no integer decides the error. */
  lemma {:induction false} StoiAllExactly(parts: seq<string>, k: nat)
    requires k <= |parts| && forall i | 0 <= i < k :: Stoi(parts[i]).IntRead?
    requires k < |parts| ==> Stoi(parts[k]).NoInt?
    ensures var r := StoiAll(parts);
            if k < |parts| then
              r == NoInts(if Stoi(parts[k]).error == OutOfRange then OutOfRange else MalformedWorldFile)
            else
              && r.IntsRead? && |r.values| == |parts|
              && forall i | 0 <= i < |parts| :: Stoi(parts[i]) == IntRead(r.values[i])
    decreases k
  {
    if k > 0 {
      StoiAllExactly(parts[1..], k - 1);
      assert forall i | 1 <= i < |parts| :: parts[i] == parts[1..][i - 1];
    }
    StoiErrors(if k < |parts| then parts[k] else "");
  }

  lemma StoiErrors(s: string)
    ensures Stoi(s).NoInt? ==> Stoi(s).error in {InvalidArgument, OutOfRange}
  {
  }

  /** What may stand between the braces of a node. */
  datatype Piece =
    | Ignored(word: string)
    | TranslationField(x: string, y: string, z: string)
    | IdField(id: int)
    | AdjlistField(ids: seq<int>)

  ghost function PieceLexemes(p: Piece): seq<Lexeme> {
    match p
    case Ignored(w) => [Word(w)]
    case TranslationField(x, y, z) => [Word("translation"), Word(x), Word(y), Word(z)]
    case IdField(id) => [Word("id"), Word(IntNumeral(id).Text())]
    case AdjlistField(ids) => [Word("adjList"), Str(Join(IntTexts(ids), ','))]
  }

  ghost predicate GoodPiece(stod: StodFunction, p: Piece) {
    match p
    case Ignored(w) => w != "translation" && w != "id" && w != "adjList"
    case TranslationField(x, y, z) => stod(x).Some? && stod(y).Some? && stod(z).Some?
    case IdField(id) => FitsInt(id)
    case AdjlistField(ids) => ids != [] && forall i | 0 <= i < |ids| :: FitsInt(ids[i])
  }

  ghost function WithPiece(stod: StodFunction, f: Fields, p: Piece): Fields
    requires GoodPiece(stod, p)
  {
    match p
    case Ignored(w) => f
    case TranslationField(x, y, z) => f.(translation := Some(Translation(stod(x).value, stod(y).value, stod(z).value)))
    case IdField(id) => f.(id := Some(id))
    case AdjlistField(ids) => f.(adjlist := Some(ids))
  }

  /** The pieces, in any order and with anything in between, end with the last field still needed. */
  ghost predicate GoodPieces(stod: StodFunction, f: Fields, ps: seq<Piece>)
    decreases |ps|
  {
    if f.Complete() then ps == []
    else ps != [] && GoodPiece(stod, ps[0]) && GoodPieces(stod, WithPiece(stod, f, ps[0]), ps[1..])
  }

  ghost function AllPieces(stod: StodFunction, f: Fields, ps: seq<Piece>): (all: Fields)
    requires GoodPieces(stod, f, ps)
    ensures all.Complete()
    decreases |ps|
  {
    if ps == [] then f else AllPieces(stod, WithPiece(stod, f, ps[0]), ps[1..])
  }

  ghost function PiecesLexemes(ps: seq<Piece>): seq<Lexeme> {
    if ps == [] then [] else PieceLexemes(ps[0]) + PiecesLexemes(ps[1..])
  }

  lemma PieceBack(stod: StodFunction, s: string, f: Fields, p: Piece, ls: seq<Lexeme>)
    requires GoodPiece(stod, p) && Lexes(s, PieceLexemes(p) + ls)
    ensures FieldIsRead(stod, s, f, WithPiece(stod, f, p), ls)
  {
    match p
    case Ignored(w) => var rest := LexWord(s, w, ls);
    case TranslationField(x, y, z) => TranslationFieldBack(stod, s, f, x, y, z, ls);
    case IdField(id) => IdFieldBack(stod, s, f, id, ls);
    case AdjlistField(ids) => AdjlistFieldBack(stod, s, f, ids, ls);
  }

  /** One turn of the loop changes the fields so, and the stream stands before ls. */
  ghost predicate FieldIsRead(stod: StodFunction, s: string, f: Fields, f': Fields, ls: seq<Lexeme>) {
    var r := ReadField(stod, s, f);
    r.Got? && r.value == f' && Lexes(r.rest, ls)
  }

  lemma TranslationFieldBack(stod: StodFunction, s: string, f: Fields, x: string, y: string, z: string,
                             ls: seq<Lexeme>)
    requires stod(x).Some? && stod(y).Some? && stod(z).Some?
    requires Lexes(s, [Word("translation"), Word(x), Word(y), Word(z)] + ls)
    ensures var translation := Translation(stod(x).value, stod(y).value, stod(z).value);
            FieldIsRead(stod, s, f, f.(translation := Some(translation)), ls)
  {
    assert [Word("translation"), Word(x), Word(y), Word(z)] + ls
        == [Word("translation")] + ([Word(x), Word(y), Word(z)] + ls);
    var rest := LexWord(s, "translation", [Word(x), Word(y), Word(z)] + ls);
    TranslationBack(stod, rest, x, y, z, ls);
  }

  lemma IdFieldBack(stod: StodFunction, s: string, f: Fields, id: int, ls: seq<Lexeme>)
    requires FitsInt(id) && Lexes(s, [Word("id"), Word(IntNumeral(id).Text())] + ls)
    ensures FieldIsRead(stod, s, f, f.(id := Some(id)), ls)
  {
    var text := IntNumeral(id).Text();
    assert [Word("id"), Word(text)] + ls == [Word("id")] + ([Word(text)] + ls);
    var rest := LexWord(s, "id", [Word(text)] + ls);
    var last := LexWord(rest, text, ls);
    StoiBack(id);
  }

  lemma AdjlistFieldBack(stod: StodFunction, s: string, f: Fields, ids: seq<int>, ls: seq<Lexeme>)
    requires ids != [] && forall i | 0 <= i < |ids| :: FitsInt(ids[i])
    requires Lexes(s, [Word("adjList"), Str(Join(IntTexts(ids), ','))] + ls)
    ensures FieldIsRead(stod, s, f, f.(adjlist := Some(ids)), ls)
  {
    var text := Str(Join(IntTexts(ids), ','));
    assert [Word("adjList"), text] + ls == [Word("adjList")] + ([text] + ls);
    var rest := LexWord(s, "adjList", [text] + ls);
    StringBack(rest, text.text, ls);
    AdjlistBack(ids);
    AdjlistIsRead(rest, text.text, ids);
    AdjlistFieldIsRead(stod, s, f, rest, ids);
  }

  lemma AdjlistFieldIsRead(stod: StodFunction, s: string, f: Fields, rest: string, ids: seq<int>)
    requires ReadToken(s) == Got("adjList", rest) && ReadAdjlist(rest).Got? && ReadAdjlist(rest).value == ids
    ensures ReadField(stod, s, f) == Got(f.(adjlist := Some(ids)), ReadAdjlist(rest).rest)
  {
  }

  lemma StringBack(s: string, text: string, ls: seq<Lexeme>)
    requires Lexes(s, [Str(text)] + ls)
    ensures ReadString(s).front == text && Lexes(ReadString(s).rest, ls)
  {
    SameHead(Str(text), ls, [Str(text)] + ls);
  }

  lemma AdjlistIsRead(s: string, text: string, ids: seq<int>)
    requires ReadString(s).front == text && StoiAll(Parts(text, ',')) == IntsRead(ids)
    ensures ReadAdjlist(s) == Got(ids, ReadString(s).rest)
  {
  }

  lemma TranslationBack(stod: StodFunction, s: string, x: string, y: string, z: string, ls: seq<Lexeme>)
    requires stod(x).Some? && stod(y).Some? && stod(z).Some?
    requires Lexes(s, [Word(x), Word(y), Word(z)] + ls)
    ensures var r := ReadTranslation(stod, s);
            r.Got? && r.value == Translation(stod(x).value, stod(y).value, stod(z).value) && Lexes(r.rest, ls)
  {
    assert [Word(x), Word(y), Word(z)] + ls == [Word(x)] + ([Word(y)] + ([Word(z)] + ls));
    var s1 := LexWord(s, x, [Word(y)] + ([Word(z)] + ls));
    var s2 := LexWord(s1, y, [Word(z)] + ls);
    var s3 := LexWord(s2, z, ls);
  }

  lemma LexWord(s: string, w: string, ls: seq<Lexeme>) returns (rest: string)
    requires Lexes(s, [Word(w)] + ls)
    ensures ReadToken(s) == Got(w, rest) && Lexes(rest, ls)
  {
    assert ([Word(w)] + ls)[1..] == ls;
    rest := ReadToken(s).rest;
  }

  /** A node is read back from its pieces, and the stream stands behind it. */
  lemma {:induction false} PiecesBack(stod: StodFunction, s: string, f: Fields, ps: seq<Piece>, ls: seq<Lexeme>)
    requires GoodPieces(stod, f, ps) && Lexes(s, PiecesLexemes(ps) + ls)
    ensures var r := ReadFields(stod, s, f);
            r.Got? && r.value == AllPieces(stod, f, ps) && Lexes(r.rest, ls)
    decreases |ps|
  {
    if ps == [] {
      assert PiecesLexemes(ps) + ls == ls;
    } else {
      Associative(PieceLexemes(ps[0]), PiecesLexemes(ps[1..]), ls);
      PieceBack(stod, s, f, ps[0], PiecesLexemes(ps[1..]) + ls);
      PiecesBack(stod, ReadField(stod, s, f).rest, WithPiece(stod, f, ps[0]), ps[1..], ls);
    }
  }

  /** A node whose pieces leave a field needed when the file ends. */
  ghost predicate Unfinished(stod: StodFunction, f: Fields, ps: seq<Piece>)
    decreases |ps|
  {
    && !f.Complete()
    && (ps != [] ==> GoodPiece(stod, ps[0]) && Unfinished(stod, WithPiece(stod, f, ps[0]), ps[1..]))
  }

  /** Such a file is malformed. */
  lemma {:induction false} UnfinishedNodeFails(stod: StodFunction, s: string, f: Fields, ps: seq<Piece>)
    requires Unfinished(stod, f, ps) && Lexes(s, PiecesLexemes(ps))
    ensures ReadFields(stod, s, f) == Bad(MalformedWorldFile)
    decreases |ps|
  {
    if ps != [] {
      PieceBack(stod, s, f, ps[0], PiecesLexemes(ps[1..]));
      UnfinishedNodeFails(stod, ReadField(stod, s, f).rest, WithPiece(stod, f, ps[0]), ps[1..]);
    }
  }

  /** A world file: robots, nodes, and words that are none of these. */
  datatype Item = Robot | Other(word: string) | Node(waypointType: WaypointType, pieces: seq<Piece>)

  /** How a node of each type is written. */
  function Keyword(t: WaypointType): string {
    match t
    case Via => "Waypoint"
    case Station => "Station"
    case EndPoint => "Endpoint"
  }

  ghost predicate GoodItem(stod: StodFunction, item: Item) {
    match item
    case Robot => true
    case Other(w) => w !in {"Waypoint", "Station", "Endpoint", "Elisa3"}
    case Node(_, pieces) => GoodPieces(stod, NO_FIELDS, pieces)
  }

  ghost function ItemLexemes(item: Item): seq<Lexeme> {
    match item
    case Robot => [Word("Elisa3")]
    case Other(w) => [Word(w)]
    case Node(t, pieces) => [Word(Keyword(t))] + PiecesLexemes(pieces)
  }

  ghost function ItemsLexemes(items: seq<Item>): seq<Lexeme> {
    if items == [] then [] else ItemLexemes(items[0]) + ItemsLexemes(items[1..])
  }

  ghost function NodeOf(stod: StodFunction, item: Item): Waypoint
    requires GoodItem(stod, item) && item.Node?
  {
    var f := AllPieces(stod, NO_FIELDS, item.pieces);
    Waypoint(f.id.value, f.adjlist.value, f.translation.value, item.waypointType)
  }

  ghost function WithItem(stod: StodFunction, w: World, item: Item): World
    requires GoodItem(stod, item)
  {
    match item
    case Robot => w.(robots := w.robots + 1)
    case Other(_) => w
    case Node(_, _) => w.(nodes := Insert(w.nodes, NodeOf(stod, item)))
  }

  ghost function WithItems(stod: StodFunction, w: World, items: seq<Item>): World
    requires forall i | 0 <= i < |items| :: GoodItem(stod, items[i])
    decreases |items|
  {
    if items == [] then w
    else
      assert GoodItem(stod, items[0]);
      WithItems(stod, WithItem(stod, w, items[0]), items[1..])
  }

  lemma NodeBack(stod: StodFunction, s: string, w: World, item: Item, ls: seq<Lexeme>) returns (rest: string)
    requires GoodItem(stod, item) && Lexes(s, ItemLexemes(item) + ls)
    ensures Lexes(rest, ls) && ReadWorld(stod, s, w) == ReadWorld(stod, rest, WithItem(stod, w, item))
  {
    if item.Node? {
      Associative([Word(Keyword(item.waypointType))], PiecesLexemes(item.pieces), ls);
      rest := LexWord(s, Keyword(item.waypointType), PiecesLexemes(item.pieces) + ls);
      TypeOfKeyword(item.waypointType);
      NodeIsRead(stod, rest, NO_FIELDS, item.pieces, item.waypointType, ls);
      rest := ReadFields(stod, rest, NO_FIELDS).rest;
    } else if item.Robot? {
      rest := LexWord(s, "Elisa3", ls);
    } else {
      rest := LexWord(s, item.word, ls);
    }
  }

  lemma TypeOfKeyword(t: WaypointType)
    ensures TypeOf(Keyword(t)) == Some(t)
  {
  }

  lemma NodeIsRead(stod: StodFunction, s: string, f: Fields, ps: seq<Piece>, t: WaypointType, ls: seq<Lexeme>)
    requires GoodPieces(stod, f, ps) && Lexes(s, PiecesLexemes(ps) + ls)
    ensures var r, all := ReadFields(stod, s, f), AllPieces(stod, f, ps);
            && r.Got? && Lexes(r.rest, ls)
            && WaypointOf(r.value, t) == Waypoint(all.id.value, all.adjlist.value, all.translation.value, t)
  {
    PiecesBack(stod, s, f, ps, ls);
  }

  /** World parsing: every stream of items is read back item by item. */
  lemma {:induction false} ItemsBack(stod: StodFunction, s: string, w: World, items: seq<Item>)
    requires forall i | 0 <= i < |items| :: GoodItem(stod, items[i])
    requires Lexes(s, ItemsLexemes(items))
    ensures ReadWorld(stod, s, w) == Success(WithItems(stod, w, items))
    decreases |items|
  {
    if items != [] {
      assert GoodItem(stod, items[0]);
      var rest := NodeBack(stod, s, w, items[0], ItemsLexemes(items[1..]));
      ItemsBack(stod, rest, WithItem(stod, w, items[0]), items[1..]);
    }
  }

  /** The key of a node in the map: its id as a size_t of 64 bits. */
  ghost predicate HasKey(v: Waypoint, k: int) {
    if v.id >= 0 then k == v.id else k == v.id + 18446744073709551616
  }

  /** v is the first node of the file with key k. */
  ghost predicate IsFirst(stod: StodFunction, items: seq<Item>, k: int, v: Waypoint)
    requires forall i | 0 <= i < |items| :: GoodItem(stod, items[i])
  {
    && items != []
    && assert GoodItem(stod, items[0]);
       if items[0].Node? && HasKey(NodeOf(stod, items[0]), k) then v == NodeOf(stod, items[0])
       else IsFirst(stod, items[1..], k, v)
  }

  ghost function Robots(items: seq<Item>): nat {
    if items == [] then 0 else (if items[0].Robot? then 1 else 0) + Robots(items[1..])
  }

  ghost predicate Holds(nodes: Nodes, k: int, v: Waypoint) {
    k in nodes && nodes[k] == v
  }

  lemma {:induction false} FirstIsKept(stod: StodFunction, w: World, items: seq<Item>, k: int, v: Waypoint)
    requires forall i | 0 <= i < |items| :: GoodItem(stod, items[i])
    ensures Holds(WithItems(stod, w, items).nodes, k, v)
            <==> if k in w.nodes then v == w.nodes[k] else IsFirst(stod, items, k, v)
    ensures WithItems(stod, w, items).robots == w.robots + Robots(items)
    decreases |items|
  {
    if items != [] {
      assert GoodItem(stod, items[0]);
      FirstIsKept(stod, WithItem(stod, w, items[0]), items[1..], k, v);
    }
  }

  /** Every world file, with ids of any sign and repeated ones too: of the nodes with one key the first
      is kept, and the robots are counted. */
  lemma WorldKeepsFirst(stod: StodFunction, s: string, items: seq<Item>)
    requires forall i | 0 <= i < |items| :: GoodItem(stod, items[i])
    requires Lexes(s, ItemsLexemes(items))
    ensures var r := ReadWorld(stod, s, World(map[], 0));
            && r.Success? && r.value.robots == Robots(items)
            && forall k, v :: Holds(r.value.nodes, k, v) <==> IsFirst(stod, items, k, v)
  {
    var none := World(map[], 0);
    ItemsBack(stod, s, none, items);
    forall k, v
      ensures Holds(WithItems(stod, none, items).nodes, k, v) <==> IsFirst(stod, items, k, v)
      ensures WithItems(stod, none, items).robots == Robots(items)
    {
      FirstIsKept(stod, none, items, k, v);
    }
    FirstIsKept(stod, none, items, 0, Waypoint(0, [], Translation(0.0, 0.0, 0.0), Via));
  }

  /** The waypoint is what the item says: its type, and fields that stand between its braces. */
  ghost predicate Describes(stod: StodFunction, item: Item, v: Waypoint) {
    && item.Node? && v.waypointType == item.waypointType
    && IdField(v.id) in item.pieces && AdjlistField(v.adjlist) in item.pieces
    && exists x, y, z :: IsTranslation(stod, item.pieces, x, y, z, v.translation)
  }

  /** The fields f hold, and come from the pieces of the item so far. */
  ghost predicate FieldsFrom(stod: StodFunction, ps: seq<Piece>, f: Fields) {
    && (f.id.Some? ==> IdField(f.id.value) in ps)
    && (f.adjlist.Some? ==> AdjlistField(f.adjlist.value) in ps)
    && (f.translation.Some? ==> exists x, y, z :: IsTranslation(stod, ps, x, y, z, f.translation.value))
  }

  ghost predicate IsTranslation(stod: StodFunction, ps: seq<Piece>, x: string, y: string, z: string, t: Translation) {
    TranslationField(x, y, z) in ps && (stod(x), stod(y), stod(z)) == (Some(t.x), Some(t.y), Some(t.z))
  }

  ghost predicate IsNode(stod: StodFunction, items: seq<Item>, i: int, v: Waypoint) {
    0 <= i < |items| && GoodItem(stod, items[i]) && items[i].Node? && NodeOf(stod, items[i]) == v
  }

  lemma {:induction false} PiecesGiveFields(stod: StodFunction, all: seq<Piece>, n: nat, f: Fields)
    requires n <= |all| && GoodPieces(stod, f, all[n..]) && FieldsFrom(stod, all, f)
    ensures FieldsFrom(stod, all, AllPieces(stod, f, all[n..]))
    decreases |all| - n
  {
    if n < |all| {
      var p, f1 := all[n], WithPiece(stod, f, all[n]);
      assert all[n..][0] == p && all[n..][1..] == all[n + 1..];
      assert p in all;
      if p.TranslationField? {
        assert IsTranslation(stod, all, p.x, p.y, p.z, f1.translation.value);
      }
      PiecesGiveFields(stod, all, n + 1, f1);
    }
  }

  lemma NodeIsDescribed(stod: StodFunction, item: Item)
    requires GoodItem(stod, item) && item.Node?
    ensures Describes(stod, item, NodeOf(stod, item))
  {
    assert item.pieces[0..] == item.pieces;
    PiecesGiveFields(stod, item.pieces, 0, NO_FIELDS);
  }

  /** The nodes have distinct ids, none of them negative. */
  ghost predicate DistinctIds(stod: StodFunction, items: seq<Item>) {
    && (forall i, v | IsNode(stod, items, i, v) :: v.id >= 0)
    && (forall i, j, v, u | IsNode(stod, items, i, v) && IsNode(stod, items, j, u) && i != j :: v.id != u.id)
  }

  lemma {:induction false} NodesCollected(stod: StodFunction, w: World, items: seq<Item>)
    requires forall i | 0 <= i < |items| :: GoodItem(stod, items[i])
    requires DistinctIds(stod, items)
    requires forall i, v | IsNode(stod, items, i, v) :: v.id !in w.nodes
    ensures var nodes := WithItems(stod, w, items).nodes;
            && (forall k <- nodes :: (k in w.nodes && nodes[k] == w.nodes[k])
                                     || (exists i :: IsNode(stod, items, i, nodes[k]) && nodes[k].id == k))
            && (forall k <- w.nodes :: k in nodes && nodes[k] == w.nodes[k])
            && (forall i, v | IsNode(stod, items, i, v) :: v.id in nodes && nodes[v.id] == v)
    decreases |items|
  {
    if items != [] {
      assert GoodItem(stod, items[0]);
      var w1, tail := WithItem(stod, w, items[0]), items[1..];
      forall i, v | IsNode(stod, tail, i, v)
        ensures IsNode(stod, items, i + 1, v)
      {
      }
      if items[0].Node? {
        assert IsNode(stod, items, 0, NodeOf(stod, items[0]));
      }
      NodesCollected(stod, w1, tail);
      forall i, v | IsNode(stod, items, i, v)
        ensures v.id in WithItems(stod, w, items).nodes && WithItems(stod, w, items).nodes[v.id] == v
      {
        if i > 0 {
          assert IsNode(stod, tail, i - 1, v);
        } else {
          assert v.id in w1.nodes && w1.nodes[v.id] == v;
        }
      }
    }
  }

  /** A world file whose nodes have distinct ids is parsed to exactly its nodes, each stored under
      its own id, whatever the order of the fields and the words in between. */
  lemma WorldRecovered(stod: StodFunction, s: string, items: seq<Item>)
    requires forall i | 0 <= i < |items| :: GoodItem(stod, items[i])
    requires Lexes(s, ItemsLexemes(items)) && DistinctIds(stod, items)
    ensures var r := ReadWorld(stod, s, World(map[], 0));
            && r.Success?
            && (forall i, v | IsNode(stod, items, i, v) :: v.id in r.value.nodes && r.value.nodes[v.id] == v)
            && (forall k <- r.value.nodes :: exists i :: IsNode(stod, items, i, r.value.nodes[k]))
            && KeyedById(r.value.nodes)
    ensures forall i, v | IsNode(stod, items, i, v) :: Describes(stod, items[i], v)
  {
    forall i, v | IsNode(stod, items, i, v)
      ensures Describes(stod, items[i], v)
    {
      NodeIsDescribed(stod, items[i]);
    }
    ItemsBack(stod, s, World(map[], 0), items);
    NodesCollected(stod, World(map[], 0), items);
  }
}
