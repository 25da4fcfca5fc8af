/** The `#|message|#` frames of the TCP protocol and how a buffer is cut into messages. */
module Framing {

  function Frame(message: string): string {
    "#|" + message + "|#"
  }

  function Frames(messages: seq<string>): string {
    if messages == [] then "" else Frame(messages[0]) + Frames(messages[1..])
  }

  predicate HasAt(s: string, a: char, b: char, p: int) {
    0 <= p < |s| - 1 && s[p] == a && s[p + 1] == b
  }

  /** `std::string::find` of the two characters a, b; -1 stands for npos. */
  function Find(s: string, a: char, b: char): (p: int)
    ensures p == -1 || HasAt(s, a, b, p)
    ensures forall q :: HasAt(s, a, b, q) ==> 0 <= p <= q
  {
    if |s| < 2 then -1
    else if s[0] == a && s[1] == b then 0
    else
      var p := Find(s[1..], a, b);
      assert forall q :: HasAt(s, a, b, q) ==> HasAt(s[1..], a, b, q - 1);
      if p < 0 then -1 else p + 1
  }

  datatype Parsed = NoMessage | Message(text: string, rest: string) | Malformed

  /** `parse_message` on the buffer. The length `end_pos - 2` is unsigned: for `end_pos == 1` it
      wraps around and `substr` takes the whole remainder. */
  function Parse(buffer: string): Parsed {
    var start := Find(buffer, '#', '|');
    var end := Find(buffer, '|', '#');
    if end < 0 then NoMessage
    else if start != 0 then Malformed
    else Message(if end < 2 then buffer[2..] else buffer[2..end], buffer[end + 2..])
  }

  /** The messages that survive framing: no "|#" inside and no leading '#'. */
  predicate Transportable(message: string) {
    Find(message, '|', '#') < 0 && (message == "" || message[0] != '#')
  }

  /** What `find` sees in a prefix. */
  lemma FindInPrefix(s: string, n: nat, a: char, b: char)
    requires n <= |s|
    ensures var p := Find(s, a, b);
            Find(s[..n], a, b) == if 0 <= p <= n - 2 then p else -1
  {
    assert forall q :: HasAt(s[..n], a, b, q) <==> HasAt(s, a, b, q) && q <= n - 2;
    var p, f := Find(s, a, b), Find(s[..n], a, b);
    assert HasAt(s, a, b, p) || p == -1;
    assert HasAt(s[..n], a, b, f) || f == -1;
  }

  /** Where a frame shows the closing delimiter, up to its end. */
  lemma FrameDelimiters(message: string, rest: string, q: nat)
    requires q <= |message| + 2
    ensures HasAt(Frame(message) + rest, '|', '#', q) <==>
            || (q == 1 && message != "" && message[0] == '#')
            || (q >= 2 && HasAt(message, '|', '#', q - 2))
            || q == |message| + 2
  {
  }

  /** The closing delimiter of a frame is the first one exactly for transportable messages. */
  lemma FirstDelimiter(message: string, rest: string)
    ensures var end := Find(Frame(message) + rest, '|', '#');
            && 0 < end <= |message| + 2
            && (end == |message| + 2 <==> Transportable(message))
  {
    var s := Frame(message) + rest;
    var end, p := Find(s, '|', '#'), Find(message, '|', '#');
    FrameDelimiters(message, rest, |message| + 2);
    FrameDelimiters(message, rest, end);
    FrameDelimiters(message, rest, 0);
    if p >= 0 {
      FrameDelimiters(message, rest, p + 2);
    }
    if message != "" {
      FrameDelimiters(message, rest, 1);
    }
  }

  /** A frame is parsed back, leaving what follows it, if and only if its message is transportable. */
  lemma RoundTripExactly(message: string, rest: string)
    ensures Parse(Frame(message) + rest) == Message(message, rest) <==> Transportable(message)
  {
    FirstDelimiter(message, rest);
    var s := Frame(message) + rest;
    var end := Find(s, '|', '#');
    assert HasAt(s, '#', '|', 0);
    assert s[2..] == message + "|#" + rest;
    if end == |message| + 2 {
      assert s[2..end] == message && s[end + 2..] == rest;
    } else if end < 2 {
      assert |s[2..]| > |message|;
    } else {
      assert |s[2..end]| < |message|;
    }
  }

  /** However a stream that begins with a frame has been cut, the part received so far yields
      nothing until the frame is complete, and then exactly its message. */
  lemma PartialFrame(message: string, rest: string, received: nat)
    requires Transportable(message) && received <= |Frame(message) + rest|
    ensures var stream := Frame(message) + rest;
            Parse(stream[..received]) ==
            if received < |Frame(message)| then NoMessage
            else Message(message, stream[|Frame(message)|..received])
  {
    var stream := Frame(message) + rest;
    FirstDelimiter(message, rest);
    FindInPrefix(stream, received, '|', '#');
    if received >= |Frame(message)| {
      var tail := stream[|Frame(message)|..received];
      assert stream[..received] == Frame(message) + tail;
      RoundTripExactly(message, tail);
    }
  }

  /** What becomes of any buffer: nothing is parsed without a closing delimiter, a buffer with one must
      begin with "#|", and then it begins with the frame of the message, except that "#|#" takes the
      whole remainder. */
  lemma ParseExactly(buffer: string)
    ensures var p := Parse(buffer);
            && (p.NoMessage? <==> forall q :: !HasAt(buffer, '|', '#', q))
            && (p.Malformed? <==> !HasAt(buffer, '#', '|', 0) && exists q :: HasAt(buffer, '|', '#', q))
            && (p.Message? && HasAt(buffer, '|', '#', 1) ==> p.text == buffer[2..] && p.rest == buffer[3..])
            && (p.Message? && !HasAt(buffer, '|', '#', 1) ==>
                  buffer == Frame(p.text) + p.rest && Transportable(p.text))
  {
    var p, end := Parse(buffer), Find(buffer, '|', '#');
    if p.Message? && end >= 2 {
      assert buffer == buffer[..2] + buffer[2..end] + buffer[end..end + 2] + buffer[end + 2..];
      assert buffer[..2] == "#|" && buffer[end..end + 2] == "|#";
      FrameIsFirst(p.text, p.rest, end);
    }
  }

  lemma FrameIsFirst(text: string, rest: string, end: nat)
    requires Find(Frame(text) + rest, '|', '#') == end == |text| + 2
    ensures Transportable(text)
  {
    FirstDelimiter(text, rest);
  }

  /** Once a buffer is malformed no further bytes repair it. */
  lemma MalformedForever(buffer: string, more: string)
    requires Parse(buffer) == Malformed
    ensures Parse(buffer + more) == Malformed
  {
    assert (buffer + more)[..|buffer|] == buffer;
    FindInPrefix(buffer + more, |buffer|, '|', '#');
    FindInPrefix(buffer + more, |buffer|, '#', '|');
  }

  lemma {:induction false} FramesAppend(messages: seq<string>, m: string)
    ensures Frames(messages + [m]) == Frames(messages) + Frame(m)
    decreases |messages|
  {
    if messages == [] {
      assert [m][1..] == [];
      assert Frames([m]) == Frame(m) + "";
    } else {
      assert (messages + [m])[1..] == messages[1..] + [m];
      FramesAppend(messages[1..], m);
    }
  }

  lemma {:induction false} FramesConcat(a: seq<string>, b: seq<string>)
    ensures Frames(a + b) == Frames(a) + Frames(b)
    decreases |a|
  {
    if a == [] {
      assert a + b == b;
    } else {
      assert (a + b)[1..] == a[1..] + b;
      FramesConcat(a[1..], b);
    }
  }
}
