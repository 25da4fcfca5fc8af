/** `tcp::Connection`: a receive buffer fed by `recv` in arbitrary pieces. */
module Connection {
  import opened Framing

  const BUFFER_SIZE := 256

  datatype Received =
    | Text(text: string)       // the message
    | Nothing                  // std::nullopt: no data has arrived for a nonblocking call
    | Waiting                  // a blocking call still waits in recv
    | MalformedMessage(buffer: string)
    | NotReady
    | NotOpen

  datatype SendResult = Sent(bytes: nat) | SenderNotReady | SenderNotOpen

  /** A call that has looked at the first `cut` bytes of `stream` (the buffer and the bytes in
      flight at its start) returns r and leaves these bytes buffered and in flight. */
  ghost predicate Outcome(stream: string, cut: nat, r: Received, buffered: string, inFlight: string) {
    && cut <= |stream|
    && inFlight == stream[cut..]
    && match Parse(stream[..cut])
       case NoMessage => (r.Nothing? || (r.Waiting? && cut == |stream|)) && buffered == stream[..cut]
       case Message(text, rest) => r == Text(text) && buffered == rest
       case Malformed => r == MalformedMessage(buffered) && buffered == stream[..cut]
  }

  /** While only transportable messages are sent: the messages delivered are the first ones sent,
      and their frames followed by the pending bytes are exactly the bytes sent. */
  ghost predicate InOrder(sent: seq<string>, delivered: seq<string>, pending: string) {
    (forall m <- sent :: Transportable(m)) ==>
      delivered <= sent && Frames(delivered) + pending == Frames(sent)
  }

  class Connection {
    var obuffer: string
    var open: bool
    var ready: bool
    var inFlight: string  // bytes the peer has sent and recv has not yet yielded

    ghost var sent: seq<string>       // messages sent by the peer
    ghost var delivered: seq<string>  // messages returned by receive

    ghost predicate Valid()
      reads this
    {
      InOrder(sent, delivered, obuffer + inFlight)
    }

    constructor (fd: int)
      ensures Valid() && ready && open && obuffer == "" && inFlight == "" && sent == [] && delivered == []
    {
      obuffer, open, ready, inFlight, sent, delivered := "", true, true, "", [], [];
    }

    /** `send` towards `peer`. */
    method Send(peer: Connection, message: string) returns (r: SendResult)
      requires peer.Valid()
      modifies peer`inFlight, peer`sent
      ensures peer.Valid()
      ensures r.Sent? <==> ready && open
      ensures r.Sent? ==> r.bytes == |message| + 4 && peer.sent == old(peer.sent) + [message]
                          && peer.inFlight == old(peer.inFlight) + ("#|" + message + "|#")
      ensures !r.Sent? ==> peer.sent == old(peer.sent) && peer.inFlight == old(peer.inFlight)
    {
      if !ready {
        return SenderNotReady;
      }
      if !open {
        return SenderNotOpen;
      }
      var preppedMessage := "#|" + message + "|#";
      SentInOrder(peer.sent, peer.delivered, peer.obuffer, peer.inFlight, message);
      peer.inFlight := peer.inFlight + preppedMessage;
      peer.sent := peer.sent + [message];
      return Sent(|preppedMessage|);
    }

    /** `parse_message`. */
    method ParseMessage() returns (r: Parsed)
      modifies this`obuffer
      ensures r == Parse(old(obuffer))
      ensures obuffer == if r.Message? then r.rest else old(obuffer)
    {
      var startPos := Find(obuffer, '#', '|');
      var endPos := Find(obuffer, '|', '#');
      if endPos >= 0 {
        if startPos != 0 {
          return Malformed;
        }
        var text := if endPos < 2 then obuffer[2..] else obuffer[2..endPos];
        obuffer := obuffer[endPos + 2..];
        return Message(text, obuffer);
      } else {
        return NoMessage;
      }
    }

    /** `receive`; `recv` yields between 1 and BUFFER_SIZE bytes, or none for a nonblocking call. */
    method Receive(blocking: bool) returns (r: Received)
      requires Valid()
      modifies this`obuffer, this`inFlight, this`delivered
      ensures Valid()
      ensures !ready ==> r == NotReady
      ensures ready && !open ==> r == NotOpen
      ensures !(ready && open) ==> obuffer == old(obuffer) && inFlight == old(inFlight)
      ensures ready && open ==> exists cut | cut >= |old(obuffer)| ::
                Outcome(old(obuffer + inFlight), cut, r, obuffer, inFlight)
      ensures delivered == if r.Text? then old(delivered) + [r.text] else old(delivered)
      ensures if blocking then !r.Nothing? else !r.Waiting?
      // With transportable messages only, the next one in order is what a call returns.
      ensures (forall m <- sent :: Transportable(m)) && ready && open ==>
                && !r.MalformedMessage?
                && (blocking && |old(delivered)| < |sent| ==> r == Text(sent[|old(delivered)|]))
    {
      if !ready {
        return NotReady;
      }
      if !open {
        return NotOpen;
      }
      ghost var cut;
      r, cut := Reassemble(blocking);
      NextInOrder(sent, delivered, old(obuffer + inFlight), cut);
      if r.Text? {
        delivered := delivered + [r.text];
      }
    }

    /** The part of `receive` after its checks: parse, and read more until a message is complete. */
    method Reassemble(blocking: bool) returns (r: Received, ghost cut: nat)
      modifies this`obuffer, this`inFlight
      ensures cut >= |old(obuffer)| && Outcome(old(obuffer + inFlight), cut, r, obuffer, inFlight)
      ensures if blocking then !r.Nothing? else !r.Waiting?
    {
      ghost var stream := obuffer + inFlight;
      cut := |obuffer|;
      assert stream[..cut] == obuffer && stream[cut..] == inFlight;
      var message := ParseMessage();
      while message.NoMessage?
        invariant |old(obuffer)| <= cut <= |stream| && inFlight == stream[cut..]
        invariant message == Parse(stream[..cut])
        invariant obuffer == if message.Message? then message.rest else stream[..cut]
        decreases |inFlight|
      {
        var arrived := *;
        if inFlight == "" || (!blocking && !arrived) {
          r := if blocking then Waiting else Nothing;
          return;
        }
        var bytes :| 1 <= bytes <= BUFFER_SIZE && bytes <= |inFlight|;
        assert stream[..cut] + inFlight[..bytes] == stream[..cut + bytes];
        assert inFlight[bytes..] == stream[cut + bytes..];
        obuffer := obuffer + inFlight[..bytes];
        inFlight := inFlight[bytes..];
        cut := cut + bytes;
        message := ParseMessage();
      }
      r := if message.Malformed? then MalformedMessage(obuffer) else Text(message.text);
    }
  }

  /** A client that calls `receive_blocking` n times: it gets the next n messages sent, in order. */
  method ReceiveMessages(c: Connection, n: nat) returns (received: seq<string>)
    requires c.Valid() && c.ready && c.open
    requires (forall m <- c.sent :: Transportable(m)) && |c.delivered| + n <= |c.sent|
    modifies c`obuffer, c`inFlight, c`delivered
    ensures c.Valid() && c.delivered == old(c.delivered) + received
    ensures received == c.sent[|old(c.delivered)|..][..n]
    ensures |c.delivered| == |c.sent| ==> c.obuffer + c.inFlight == ""
  {
    received := [];
    for i := 0 to n
      invariant c.Valid() && |received| == i && c.delivered == old(c.delivered) + received <= c.sent
    {
      var r := c.Receive(true);
      received := received + [r.text];
    }
    if |c.delivered| == |c.sent| {
      assert c.delivered == c.sent;
      assert Frames(c.sent) + "" == Frames(c.sent);
      SameSuffix(Frames(c.sent), c.obuffer + c.inFlight, "");
    }
  }

  lemma SentInOrder(sent: seq<string>, delivered: seq<string>, obuffer: string, inFlight: string, message: string)
    requires InOrder(sent, delivered, obuffer + inFlight)
    ensures InOrder(sent + [message], delivered, obuffer + (inFlight + Frame(message)))
  {
    if forall m <- sent + [message] :: Transportable(m) {
      assert forall m <- sent :: m in sent + [message];
      FramesAppend(sent, message);
      assert Frames(delivered) + (obuffer + (inFlight + Frame(message)))
          == Frames(delivered) + (obuffer + inFlight) + Frame(message);
    }
  }

  /** In a stream of transportable messages, what is parsed next is the next message. */
  lemma NextInOrder(sent: seq<string>, delivered: seq<string>, stream: string, cut: nat)
    requires cut <= |stream|
    requires InOrder(sent, delivered, stream)
    ensures var p := Parse(stream[..cut]);
            && ((forall m <- sent :: Transportable(m)) ==>
                  !p.Malformed? && (p.NoMessage? && cut == |stream| ==> delivered == sent)
                  && (p.Message? ==> delivered + [p.text] <= sent))
            && (p.Message? ==> InOrder(sent, delivered + [p.text], p.rest + stream[cut..]))
  {
    if forall m <- sent :: Transportable(m) {
      var left := sent[|delivered|..];
      assert sent == delivered + left;
      FramesConcat(delivered, left);
      SameSuffix(Frames(delivered), stream, Frames(left));
      if left != [] {
        assert left[0] in sent;
        NextFrame(delivered, left, cut);
        assert delivered + [left[0]] <= sent;
      } else {
        assert delivered == sent;
      }
    }
  }

  /** The next frame: nothing before it is complete, then its message and the bytes behind it. */
  lemma NextFrame(delivered: seq<string>, left: seq<string>, cut: nat)
    requires left != [] && Transportable(left[0]) && cut <= |Frames(left)|
    ensures var stream := Frames(left); var p := Parse(stream[..cut]);
            && !p.Malformed?
            && (p.NoMessage? ==> cut < |stream|)
            && (p.Message? ==> p.text == left[0]
                               && Frames(delivered + [p.text]) + (p.rest + stream[cut..]) == Frames(delivered) + stream)
  {
    var frame, rest := Frame(left[0]), Frames(left[1..]);
    PartialFrame(left[0], rest, cut);
    FramesAppend(delivered, left[0]);
    FrameConsumed(Frames(delivered), frame, rest, cut);
  }

  lemma SameSuffix(prefix: string, x: string, y: string)
    requires prefix + x == prefix + y
    ensures x == y
  {
    assert x == (prefix + x)[|prefix|..];
  }

  lemma FrameConsumed(before: string, frame: string, rest: string, cut: nat)
    requires cut <= |frame + rest|
    ensures cut >= |frame| ==> var stream := frame + rest;
              before + frame + (stream[|frame|..cut] + stream[cut..]) == before + stream
  {
  }
}
