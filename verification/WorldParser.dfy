/** The world-file parser: waypoints, stations and end points with their id, adjacency list and
    translation, picked out of a stream of words. */
module WorldParser {
  import opened Ast
  import opened Numerals
  import opened Sequences
  import opened Split
  import opened Wrappers

  datatype WorldError =
    | MalformedWorldFile
    | InvalidArgument // std::invalid_argument of stoi or stod
    | OutOfRange      // std::out_of_range of stoi

  /** EndOfStream is the EndOfStreamException of `read_token`. */
  datatype Read<+T> = EndOfStream | Bad(error: WorldError) | Got(value: T, rest: string)

  /** The six characters that `std::isspace` knows. */
  predicate IsSpace(c: char) {
    c == ' ' || '\t' <= c <= '\r' // tab, newline, vertical tab, form feed, carriage return
  }

  function SkipSpace(s: string): (r: string)
    ensures |r| <= |s| && (r != "" ==> !IsSpace(r[0]))
  {
    if s != "" && IsSpace(s[0]) then SkipSpace(s[1..]) else s
  }

  function TakeWord(s: string): (r: Cut)
    ensures |r.front| + |r.rest| == |s| && (s != "" && !IsSpace(s[0]) ==> r.front != "")
  {
    if s == "" || IsSpace(s[0]) then Cut("", s)
    else
      var r := TakeWord(s[1..]);
      Cut([s[0]] + r.front, r.rest)
  }

  /** `is >> token`. */
  function ReadToken(s: string): (r: Read<string>)
    ensures !r.Bad? && (r.Got? ==> r.value != "" && |r.rest| < |s|)
  {
    var t := SkipSpace(s);
    if t == "" then EndOfStream
    else
      var w := TakeWord(t);
      Got(w.front, w.rest)
  }

  /** The characters up to the closing quote; a backslash takes the next character literally. */
  function TakeQuoted(s: string): (r: Cut)
    ensures |r.rest| <= |s|
  {
    if s == "" then Cut("", "")
    else if s[0] == '"' then Cut("", s[1..])
    else if s[0] == '\\' then
      if |s| == 1 then Cut("", "")
      else
        var r := TakeQuoted(s[2..]);
        Cut([s[1]] + r.front, r.rest)
    else
      var r := TakeQuoted(s[1..]);
      Cut([s[0]] + r.front, r.rest)
  }

  /** `is >> std::quoted(line)`; a word when there is no quote. */
  function ReadString(s: string): (r: Cut)
    ensures |r.rest| <= |s|
  {
    var t := SkipSpace(s);
    if t != "" && t[0] == '"' then TakeQuoted(t[1..]) else TakeWord(t)
  }

  datatype IntRead = NoInt(error: WorldError) | IntRead(value: int)

  function IntOf(m: Match): IntRead
    requires m.Match? ==> AllDigits(m.numeral.whole)
  {
    if m.NoMatch? then NoInt(InvalidArgument)
    else if FitsInt(m.numeral.IntValue()) then IntRead(m.numeral.IntValue())
    else NoInt(OutOfRange)
  }

  /** `stoi`: leading space, a sign, and the digits that follow; whatever comes behind is ignored. */
  function Stoi(s: string): IntRead {
    var t := SkipSpace(s);
    IntOf(if t != "" && t[0] == '+' then MatchUnsigned(t[1..], false) else MatchNumeral(t, false))
  }

  datatype IntsRead = NoInts(error: WorldError) | IntsRead(values: seq<int>)

  function StoiAll(parts: seq<string>): IntsRead {
    if parts == [] then IntsRead([])
    else
      match Stoi(parts[0])
      case NoInt(e) => NoInts(if e == InvalidArgument then MalformedWorldFile else e)
      case IntRead(v) =>
        var others := StoiAll(parts[1..]);
        if others.NoInts? then others else IntsRead([v] + others.values)
  }

  /** The loop of `parse_adjlist` over the comma-separated string. */
  method ParseInts(text: string) returns (r: IntsRead)
    ensures r == StoiAll(Parts(text, ','))
  {
    var adjString := text;
    var adjlist := [];
    var pos := FindChar(adjString, ',', 0);
    ghost var all := StoiAll(Parts(text, ','));
    NoIntsBefore(all);
    while pos >= 0
      invariant pos == FindChar(adjString, ',', 0)
      invariant PrependInts(adjlist, StoiAll(Parts(adjString, ','))) == all
      decreases |adjString|
    {
      FirstPart(adjString, ',');
      IntsStep(adjlist, Parts(adjString, ','));
      var v := Stoi(adjString[..pos]);
      if v.NoInt? {
        return NoInts(if v.error == InvalidArgument then MalformedWorldFile else v.error);
      }
      adjlist := adjlist + [v.value];
      adjString := adjString[pos + 1..];
      pos := FindChar(adjString, ',', 0);
    }
    FirstPart(adjString, ',');
    IntsStep(adjlist, Parts(adjString, ','));
    var v := Stoi(adjString);
    if v.NoInt? {
      return NoInts(if v.error == InvalidArgument then MalformedWorldFile else v.error);
    }
    assert adjlist + [v.value] + [] == adjlist + [v.value];
    return IntsRead(adjlist + [v.value]);
  }

  ghost function PrependInts(first: seq<int>, r: IntsRead): IntsRead {
    if r.NoInts? then r else IntsRead(first + r.values)
  }

  lemma NoIntsBefore(r: IntsRead)
    ensures PrependInts([], r) == r
  {
  }

  lemma IntsStep(first: seq<int>, parts: seq<string>)
    requires parts != []
    ensures var v := Stoi(parts[0]);
            PrependInts(first, StoiAll(parts)) ==
            if v.NoInt? then NoInts(if v.error == InvalidArgument then MalformedWorldFile else v.error)
            else PrependInts(first + [v.value], StoiAll(parts[1..]))
  {
  }

  /** An adjacency list as it is written. */
  function IntTexts(ids: seq<int>): (texts: seq<string>)
    ensures |texts| == |ids|
  {
    if ids == [] then [] else [IntNumeral(ids[0]).Text()] + IntTexts(ids[1..])
  }

  lemma StoiPlain(t: string)
    requires t != "" ==> !IsSpace(t[0]) && t[0] != '+'
    ensures Stoi(t) == IntOf(MatchNumeral(t, false))
  {
  }

  lemma StoiBack(v: int)
    requires FitsInt(v)
    ensures Stoi(IntNumeral(v).Text()) == IntRead(v)
  {
    var n := IntNumeral(v);
    StartsPlainly(n);
    StoiPlain(n.Text());
    MatchesBack(n, false, "");
    assert n.Text() + "" == n.Text();
    IntRoundTrip(v);
  }

  lemma StartsPlainly(n: Numeral)
    requires n.Valid(true)
    ensures n.Text() != "" && (n.Text()[0] == '-' || IsDigit(n.Text()[0]))
  {
  }

  lemma CommaFree(n: Numeral)
    requires n.Valid(false)
    ensures ',' !in n.Text()
  {
  }

  lemma {:induction false} StoiAllBack(ids: seq<int>)
    requires forall i | 0 <= i < |ids| :: FitsInt(ids[i])
    ensures StoiAll(IntTexts(ids)) == IntsRead(ids)
    decreases |ids|
  {
    if ids != [] {
      StoiBack(ids[0]);
      StoiAllBack(ids[1..]);
      SameHead(IntNumeral(ids[0]).Text(), IntTexts(ids[1..]), IntTexts(ids));
      assert ids == [ids[0]] + ids[1..];
    }
  }

  lemma {:induction false} TextsCommaFree(ids: seq<int>)
    ensures forall text <- IntTexts(ids) :: ',' !in text
    decreases |ids|
  {
    if ids != [] {
      CommaFree(IntNumeral(ids[0]));
      TextsCommaFree(ids[1..]);
    }
  }

  /** Reading an adjacency list undoes joining its numbers with commas, for every list but the empty
      one, which is rejected. */
  lemma AdjlistBack(ids: seq<int>)
    requires forall i | 0 <= i < |ids| :: FitsInt(ids[i])
    ensures StoiAll(Parts(Join(IntTexts(ids), ','), ',')) ==
            if ids == [] then NoInts(MalformedWorldFile) else IntsRead(ids)
  {
    if ids == [] {
      assert Parts("", ',') == [""];
      assert TakeDigits("") == Cut("", "");
    } else {
      StoiAllBack(ids);
      TextsCommaFree(ids);
      SplitJoin(IntTexts(ids), ',');
    }
  }

  /** `stod`, for which the C++ library is trusted; None stands for std::invalid_argument. */
  type StodFunction = string -> Option<real>

  /** The fields found so far: those that are None are still needed. */
  datatype Fields = Fields(id: Option<int>, adjlist: Option<seq<int>>, translation: Option<Translation>) {
    predicate Complete() {
      id.Some? && adjlist.Some? && translation.Some?
    }
  }

  const NO_FIELDS := Fields(None, None, None)

  /** `parse_translation`. */
  function ReadTranslation(stod: StodFunction, s: string): (r: Read<Translation>)
    ensures r.Got? ==> |r.rest| < |s|
  {
    match ReadToken(s)
    case EndOfStream => EndOfStream
    case Bad(e) => Bad(e)
    case Got(x, s1) =>
      if stod(x).None? then Bad(InvalidArgument)
      else
        match ReadToken(s1)
        case EndOfStream => EndOfStream
        case Bad(e) => Bad(e)
        case Got(y, s2) =>
          if stod(y).None? then Bad(InvalidArgument)
          else
            match ReadToken(s2)
            case EndOfStream => EndOfStream
            case Bad(e) => Bad(e)
            case Got(z, s3) =>
              if stod(z).None? then Bad(InvalidArgument)
              else Got(Translation(stod(x).value, stod(y).value, stod(z).value), s3)
  }

  /** `parse_id`. */
  function ReadId(s: string): (r: Read<int>)
    ensures r.Got? ==> |r.rest| < |s|
  {
    match ReadToken(s)
    case EndOfStream => EndOfStream
    case Bad(e) => Bad(e)
    case Got(token, rest) =>
      match Stoi(token)
      case NoInt(e) => Bad(e)
      case IntRead(v) => Got(v, rest)
  }

  /** `parse_adjlist`. */
  function ReadAdjlist(s: string): (r: Read<seq<int>>)
    ensures r.Got? ==> |r.rest| <= |s|
  {
    var line := ReadString(s);
    match StoiAll(Parts(line.front, ','))
    case NoInts(e) => Bad(e)
    case IntsRead(values) => Got(values, line.rest)
  }

  /** One turn of the loop in `parse_waypoint`; the end of the stream makes the file malformed. */
  function ReadField(stod: StodFunction, s: string, f: Fields): (r: Read<Fields>)
    ensures !r.EndOfStream? && (r.Got? ==> |r.rest| < |s|)
  {
    match ReadToken(s)
    case EndOfStream => Bad(MalformedWorldFile)
    case Bad(e) => Bad(e)
    case Got(token, s1) =>
      if token == "translation" then
        match ReadTranslation(stod, s1)
        case EndOfStream => Bad(MalformedWorldFile)
        case Bad(e) => Bad(e)
        case Got(t, s2) => Got(f.(translation := Some(t)), s2)
      else if token == "id" then
        match ReadId(s1)
        case EndOfStream => Bad(MalformedWorldFile)
        case Bad(e) => Bad(e)
        case Got(v, s2) => Got(f.(id := Some(v)), s2)
      else if token == "adjList" then
        match ReadAdjlist(s1)
        case EndOfStream => Bad(MalformedWorldFile)
        case Bad(e) => Bad(e)
        case Got(ids, s2) => Got(f.(adjlist := Some(ids)), s2)
      else Got(f, s1)
  }

  /** The loop of `parse_waypoint`. */
  ghost function ReadFields(stod: StodFunction, s: string, f: Fields): (r: Read<Fields>)
    ensures !r.EndOfStream? && (r.Got? ==> r.value.Complete() && |r.rest| <= |s|)
    decreases |s|
  {
    if f.Complete() then Got(f, s)
    else
      match ReadField(stod, s, f)
      case EndOfStream => Bad(MalformedWorldFile)
      case Bad(e) => Bad(e)
      case Got(f1, s1) => ReadFields(stod, s1, f1)
  }

  function TypeOf(token: string): Option<WaypointType> {
    if token == "Waypoint" then Some(Via)
    else if token == "Station" then Some(Station)
    else if token == "Endpoint" then Some(EndPoint)
    else None
  }

  function WaypointOf(f: Fields, t: WaypointType): Waypoint
    requires f.Complete()
  {
    Waypoint(f.id.value, f.adjlist.value, f.translation.value, t)
  }

  /** The key of a node is its id converted to size_t. */
  function KeyOf(id: int): int {
    if id < 0 then id + 0x1_0000_0000_0000_0000 else id
  }

  /** `std::map::insert` keeps a node that is already there. */
  function Insert(nodes: Nodes, w: Waypoint): Nodes {
    if KeyOf(w.id) in nodes then nodes else nodes[KeyOf(w.id) := w]
  }

  datatype World = World(nodes: Nodes, robots: nat)

  /** `parse_stream` from a position on. */
  ghost function ReadWorld(stod: StodFunction, s: string, w: World): Result<World, WorldError>
    decreases |s|
  {
    match ReadToken(s)
    case EndOfStream => Success(w)
    case Bad(e) => Failure(e)
    case Got(token, s1) =>
      if TypeOf(token).Some? then
        match ReadFields(stod, s1, NO_FIELDS)
        case EndOfStream => Success(w)
        case Bad(e) => Failure(e)
        case Got(f, s2) => ReadWorld(stod, s2, w.(nodes := Insert(w.nodes, WaypointOf(f, TypeOf(token).value))))
      else if token == "Elisa3" then ReadWorld(stod, s1, w.(robots := w.robots + 1))
      else ReadWorld(stod, s1, w)
  }

  /** One token of the stream. */
  lemma ReadWorldStep(stod: StodFunction, s: string, w: World)
    requires ReadToken(s).Got?
    ensures var token, s1 := ReadToken(s).value, ReadToken(s).rest;
            var f := ReadFields(stod, s1, NO_FIELDS);
            ReadWorld(stod, s, w) ==
            if TypeOf(token).None? then ReadWorld(stod, s1, if token == "Elisa3" then w.(robots := w.robots + 1) else w)
            else if f.Bad? then Failure(f.error)
            else ReadWorld(stod, f.rest, w.(nodes := Insert(w.nodes, WaypointOf(f.value, TypeOf(token).value))))
  {
  }

  class Parser {
    var stream: string // what is left of the input
    var nodes: Nodes
    var numberOfRobots: nat
    const stod: StodFunction

    constructor (input: string, stod: StodFunction)
      ensures stream == input && nodes == map[] && this.stod == stod
    {
      stream, nodes, numberOfRobots := input, map[], 0;
      this.stod := stod;
    }

    method ParseStream() returns (r: Result<Nodes, WorldError>)
      modifies this
      ensures var w := ReadWorld(stod, old(stream), World(old(nodes), 0));
              if w.Failure? then r == Failure(w.error)
              else r == Success(w.value.nodes) && nodes == w.value.nodes && numberOfRobots == w.value.robots
    {
      numberOfRobots := 0;
      while ReadToken(stream).Got?
        invariant ReadWorld(stod, stream, World(nodes, numberOfRobots))
                  == ReadWorld(stod, old(stream), World(old(nodes), 0))
        decreases |stream|
      {
        ReadWorldStep(stod, stream, World(nodes, numberOfRobots));
        var token := ReadToken(stream).value;
        stream := ReadToken(stream).rest;
        if TypeOf(token).Some? {
          var waypoint := ParseWaypoint(TypeOf(token).value);
          if waypoint.Failure? {
            return Failure(waypoint.error);
          }
          nodes := Insert(nodes, waypoint.value);
        } else if token == "Elisa3" {
          numberOfRobots := numberOfRobots + 1;
        }
      }
      return Success(nodes);
    }

    method ParseWaypoint(waypointType: WaypointType) returns (r: Result<Waypoint, WorldError>)
      modifies this`stream
      ensures var f := ReadFields(stod, old(stream), NO_FIELDS);
              if f.Bad? then r == Failure(f.error)
              else r == Success(WaypointOf(f.value, waypointType)) && stream == f.rest
    {
      var fields := NO_FIELDS;
      while !fields.Complete()
        invariant ReadFields(stod, stream, fields) == ReadFields(stod, old(stream), NO_FIELDS)
        invariant |stream| <= |old(stream)|
        decreases |stream|
      {
        var turn := ReadField(stod, stream, fields);
        if turn.Bad? {
          return Failure(turn.error);
        }
        fields, stream := turn.value, turn.rest;
      }
      return Success(WaypointOf(fields, waypointType));
    }
  }
}
