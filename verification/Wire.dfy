/** The path of messages from one end of a stream to the other: encoded, framed, cut into
    chunks by the transport, read back frame by frame, and decoded. */
module Wire {
  import opened Rpc
  import opened Framing
  import opened Protobuf

  /** A message that can be sent: its method, or its error, is text, and it takes at most
      16 MiB. Its payload is any bytes. */
  predicate Sendable(schema: Schema, m: Record) {
    && Utf8(if schema == RequestProto then m.second else m.third)
    && |Encode(m)| <= 16 * 1024 * 1024
  }

  lemma SendableIsValid(schema: Schema, m: Record)
    requires Sendable(schema, m)
    ensures Valid(schema, m)
  {
    assert |m.second| <= |EncodeBytes(2, m.second)| && |m.third| <= |EncodeBytes(3, m.third)|;
  }

  function Encodings(messages: seq<Record>): (encodings: seq<Bytes>)
    ensures |encodings| == |messages|
    ensures forall i | 0 <= i < |messages| :: encodings[i] == Encode(messages[i])
  {
    seq(|messages|, i requires 0 <= i < |messages| => Encode(messages[i]))
  }

  /** The messages carried by frames, up to the first that does not decode. */
  function Decodings(schema: Schema, frames: seq<Bytes>): seq<Record> {
    if frames == [] then []
    else
      match Decode(schema, frames[0])
      case None => []
      case Some(m) => [m] + Decodings(schema, frames[1..])
  }

  lemma {:induction false} DecodingsOfEncodings(schema: Schema, messages: seq<Record>, frames: seq<Bytes>)
    requires forall i | 0 <= i < |messages| :: Sendable(schema, messages[i])
    requires frames == Encodings(messages)
    ensures Decodings(schema, frames) == messages
    decreases messages
  {
    if messages != [] {
      SendableIsValid(schema, messages[0]);
      RoundTrip(schema, messages[0]);
      assert frames[1..] == Encodings(messages[1..]);
      DecodingsOfEncodings(schema, messages[1..], frames[1..]);
      assert messages == [messages[0]] + messages[1..];
    }
  }

  lemma {:induction false} DecodingsPrefix(schema: Schema, frames: seq<Bytes>, more: seq<Bytes>)
    ensures Decodings(schema, frames) <= Decodings(schema, frames + more)
  {
    if frames != [] {
      assert (frames + more)[1..] == frames[1..] + more;
      DecodingsPrefix(schema, frames[1..], more);
    }
  }

  /** Writes messages to a framed stream. */
  method SendAll(schema: Schema, messages: seq<Record>, framed: Framed)
    requires forall i | 0 <= i < |messages| :: Sendable(schema, messages[i])
    modifies framed`outgoing
    ensures forall frame | frame in Encodings(messages) :: |frame| <= MAX_FRAME
    ensures framed.outgoing == old(framed.outgoing) + Frames(Encodings(messages))
  {
    var i := 0;
    var frames := Encodings(messages);
    while i < |messages|
      invariant i <= |messages|
      invariant old(framed.outgoing) + Frames(frames) == framed.outgoing + Frames(frames[i..])
    {
      FramesNext(framed.outgoing, frames, i);
      var ok := framed.Send(Encode(messages[i]));
      i := i + 1;
    }
  }

  lemma FramesNext(written: Bytes, frames: seq<Bytes>, i: nat)
    requires i < |frames| && forall frame | frame in frames :: |frame| <= MAX_FRAME
    ensures written + Frames(frames[i..]) == written + Frame(frames[i]) + Frames(frames[i + 1..])
  {
    assert frames[i..][1..] == frames[i + 1..];
    assert frames[i..][0] == frames[i];
  }

  /** Any requests or responses, sent over one framed stream and cut into chunks by any
      transport, arrive as sent: the same messages, in order, none merged, split or lost. */
  method OverTheWire(schema: Schema, messages: seq<Record>, transport: Bytes -> seq<Bytes>)
    returns (received: seq<Record>, clean: bool)
    requires forall i | 0 <= i < |messages| :: Sendable(schema, messages[i])
    requires forall bytes: Bytes :: Concat(transport(bytes)) == bytes
    ensures received == messages && clean
  {
    var sender := new Framed();
    SendAll(schema, messages, sender);
    var frames;
    frames, clean := AnyChunking(Encodings(messages), transport(sender.outgoing));
    received := Decodings(schema, frames);
    DecodingsOfEncodings(schema, messages, frames);
  }

  lemma DecodingsOfPrefix(schema: Schema, got: seq<Bytes>, frames: seq<Bytes>)
    requires got <= frames
    ensures Decodings(schema, got) <= Decodings(schema, frames)
  {
    assert frames == got + frames[|got|..];
    DecodingsPrefix(schema, got, frames[|got|..]);
  }

  /** Whatever part of the bytes has arrived, the messages read so far are a prefix of
      those sent. */
  lemma ArrivedPrefix(schema: Schema, messages: seq<Record>, arrived: Bytes)
    requires forall i | 0 <= i < |messages| :: Sendable(schema, messages[i])
    requires forall frame | frame in Encodings(messages) :: |frame| <= MAX_FRAME
    requires arrived <= Frames(Encodings(messages))
    ensures Decodings(schema, Parse(arrived).messages) <= messages
  {
    PrefixOfFrames(Encodings(messages), arrived);
    DecodingsOfPrefix(schema, Parse(arrived).messages, Encodings(messages));
    DecodingsOfEncodings(schema, messages, Encodings(messages));
  }
}
