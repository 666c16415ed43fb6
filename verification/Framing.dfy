/** Message framing (src/transport.rs): a four-byte big-endian length before each message,
    at most 16 MiB, decoded incrementally from whatever chunks the transport delivers. */
module Framing {
  import opened Rpc

  const MAX_FRAME: nat := 16 * 1024 * 1024

  const HEAD: nat := 4

  function EncodeHead(n: nat): (head: Bytes)
    requires n < 0x1_0000_0000
    ensures |head| == HEAD
  {
    [n / 0x100_0000, n / 0x1_0000 % 256, n / 0x100 % 256, n % 256]
  }

  function DecodeHead(head: Bytes): (n: nat)
    requires |head| >= HEAD
    ensures n < 0x1_0000_0000
  {
    var b0: nat, b1: nat, b2: nat, b3: nat := head[0], head[1], head[2], head[3];
    b0 * 0x100_0000 + b1 * 0x1_0000 + b2 * 0x100 + b3
  }

  lemma HeadRoundTrip(n: nat, rest: Bytes)
    requires n < 0x1_0000_0000
    ensures DecodeHead(EncodeHead(n) + rest) == n
  {
    assert n / 0x1_0000 == (n / 0x100_0000) * 0x100 + n / 0x1_0000 % 256;
    assert n / 0x100 == (n / 0x1_0000) * 0x100 + n / 0x100 % 256;
    assert n == (n / 0x100) * 0x100 + n % 256;
  }

  lemma HeadUnique(head: Bytes)
    requires |head| == HEAD
    ensures EncodeHead(DecodeHead(head)) == head
  {
    var n := DecodeHead(head);
    var b0: nat, b1: nat, b2: nat := head[0], head[1], head[2];
    assert n / 0x100_0000 == b0;
    assert n / 0x1_0000 == b0 * 256 + b1;
    assert n / 0x100 == b0 * 0x1_0000 + b1 * 256 + b2;
  }

  /** One framed message. */
  function Frame(message: Bytes): Bytes
    requires |message| <= MAX_FRAME
  {
    EncodeHead(|message|) + message
  }

  function Frames(messages: seq<Bytes>): Bytes
    requires forall m | m in messages :: |m| <= MAX_FRAME
  {
    if messages == [] then [] else Frame(messages[0]) + Frames(messages[1..])
  }

  // The reference: reading a whole byte string at once.

  datatype Parsed = Parsed(messages: seq<Bytes>, rest: Bytes, tooLong: bool)

  /** The messages a byte string holds, what is left of it, and whether it then announces a
      message over the limit. */
  function Parse(bytes: Bytes): Parsed {
    if |bytes| < HEAD then Parsed([], bytes, false)
    else if DecodeHead(bytes) > MAX_FRAME then Parsed([], bytes, true)
    else if |bytes| < HEAD + DecodeHead(bytes) then Parsed([], bytes, false)
    else
      var n := DecodeHead(bytes);
      var more := Parse(bytes[HEAD + n..]);
      Parsed([bytes[HEAD..HEAD + n]] + more.messages, more.rest, more.tooLong)
  }

  lemma HeadOfConcat(first: Bytes, second: Bytes)
    requires |first| >= HEAD
    ensures DecodeHead(first + second) == DecodeHead(first)
  {
  }

  /** Reading a message that is all there. */
  lemma ParseWhole(bytes: Bytes, n: nat, rest: Bytes)
    requires |bytes| >= HEAD + n && DecodeHead(bytes) == n && n <= MAX_FRAME && rest == bytes[HEAD + n..]
    ensures Parse(bytes) ==
        Parsed([bytes[HEAD..HEAD + n]] + Parse(rest).messages, Parse(rest).rest, Parse(rest).tooLong)
  {
  }

  /** Reading what begins with one frame. */
  lemma ParseFrame(message: Bytes, rest: Bytes)
    requires |message| <= MAX_FRAME
    ensures Parse(Frame(message) + rest) ==
        Parsed([message] + Parse(rest).messages, Parse(rest).rest, Parse(rest).tooLong)
  {
    var bytes := Frame(message) + rest;
    assert bytes == EncodeHead(|message|) + (message + rest);
    HeadRoundTrip(|message|, message + rest);
    assert bytes[HEAD..HEAD + |message|] == message;
    assert bytes[HEAD + |message|..] == rest;
    ParseWhole(bytes, |message|, rest);
  }

  lemma Assoc<T>(a: seq<T>, b: seq<T>, c: seq<T>)
    ensures (a + b) + c == a + (b + c)
  {
  }

  function Prepend(messages: seq<Bytes>, parsed: Parsed): Parsed {
    Parsed(messages + parsed.messages, parsed.rest, parsed.tooLong)
  }

  /** Framing loses nothing: what was framed is read back, with nothing left over. */
  lemma {:induction false} FramesRoundTrip(messages: seq<Bytes>, tail: Bytes)
    requires forall m | m in messages :: |m| <= MAX_FRAME
    ensures Parse(Frames(messages) + tail) == Prepend(messages, Parse(tail))
  {
    if messages == [] {
      assert Frames(messages) + tail == tail;
      assert Prepend(messages, Parse(tail)) == Parse(tail);
    } else {
      var m, others := messages[0], messages[1..];
      FramesRoundTrip(others, tail);
      ParseFrame(m, Frames(others) + tail);
      Assoc(Frame(m), Frames(others), tail);
      Assoc([m], others, Parse(tail).messages);
      assert messages == [m] + others;
    }
  }

  /** Going on with `more` after `parsed`. */
  function Continue(parsed: Parsed, second: Bytes): Parsed {
    if parsed.tooLong then Parsed(parsed.messages, parsed.rest + second, true)
    else
      var more := Parse(parsed.rest + second);
      Parsed(parsed.messages + more.messages, more.rest, more.tooLong)
  }

  /** The part read first holds no whole message. */
  lemma ParseConcatPartial(first: Bytes, second: Bytes)
    requires |first| < HEAD || DecodeHead(first) > MAX_FRAME || |first| < HEAD + DecodeHead(first)
    ensures Parse(first + second) == Continue(Parse(first), second)
  {
    if |first| >= HEAD {
      HeadOfConcat(first, second);
    }
    var none: seq<Bytes> := [];
    assert none + Parse(first + second).messages == Parse(first + second).messages;
  }

  /** Reading on from what was left is the same as reading everything at once. */
  lemma {:induction false} ParseConcat(first: Bytes, second: Bytes)
    ensures Parse(first + second) == Continue(Parse(first), second)
    decreases |first|
  {
    if |first| < HEAD || DecodeHead(first) > MAX_FRAME || |first| < HEAD + DecodeHead(first) {
      ParseConcatPartial(first, second);
    } else {
      var n := DecodeHead(first);
      var rest := first[HEAD + n..];
      HeadOfConcat(first, second);
      assert (first + second)[HEAD..HEAD + n] == first[HEAD..HEAD + n];
      assert (first + second)[HEAD + n..] == rest + second;
      ParseWhole(first, n, rest);
      ParseWhole(first + second, n, rest + second);
      ParseConcat(rest, second);
      ContinueCons(first[HEAD..HEAD + n], Parse(rest), second);
    }
  }

  lemma ContinueCons(message: Bytes, parsed: Parsed, second: Bytes)
    ensures var after := Continue(parsed, second);
            Continue(Parsed([message] + parsed.messages, parsed.rest, parsed.tooLong), second) ==
            Parsed([message] + after.messages, after.rest, after.tooLong)
  {
    if !parsed.tooLong {
      var more := Parse(parsed.rest + second);
      assert [message] + parsed.messages + more.messages == [message] + (parsed.messages + more.messages);
    }
  }

  // The incremental decoder.

  /** Waiting for a length, or for a message of a known length. */
  datatype DecodeState = Head | Data(n: nat)

  /** The bytes a decoder has taken in and not yet turned into a message. */
  function Pending(state: DecodeState, buffer: Bytes): Bytes
    requires state.Data? ==> state.n <= MAX_FRAME
  {
    if state.Data? then EncodeHead(state.n) + buffer else buffer
  }

  datatype Decoded = Message(bytes: Bytes) | NeedMore | TooLong

  class Framed {
    var state: DecodeState
    var buffer: Bytes
    var failed: bool
    var outgoing: Bytes

    constructor ()
      ensures Valid() && Unread() == [] && Waiting() && !failed && outgoing == []
    {
      state, buffer, failed, outgoing := Head, [], false, [];
    }

    ghost predicate Valid()
      reads this
    {
      state.Data? ==> state.n <= MAX_FRAME
    }

    ghost function Unread(): Bytes
      requires Valid()
      reads this
    {
      Pending(state, buffer)
    }

    /** Nothing in the buffer can be read yet: a length is incomplete, or a message is. */
    ghost predicate Waiting()
      reads this
    {
      if state.Head? then |buffer| < HEAD else |buffer| < state.n
    }

    /** Queues a message for writing; an oversized one is refused and nothing is queued. */
    method Send(message: Bytes) returns (ok: bool)
      modifies this`outgoing
      ensures ok <==> |message| <= 16_777_216
      ensures outgoing == if ok then old(outgoing) + Frame(message) else old(outgoing)
    {
      ok := |message| <= MAX_FRAME;
      if ok {
        outgoing := outgoing + EncodeHead(|message|) + message;
        assert outgoing == old(outgoing) + Frame(message);
      }
    }

    /** Tries to take one message from the front of the buffer. */
    method Decode() returns (r: Decoded)
      requires Valid()
      modifies this`state, this`buffer
      ensures Valid()
      ensures var parsed := Parse(old(Unread()));
              match r
              case Message(bytes) =>
                && parsed == Prepend([bytes], Parse(Unread()))
                && |Unread()| < |old(Unread())|
              case NeedMore => parsed == Parsed([], Unread(), false) && Unread() == old(Unread()) && Waiting()
              case TooLong => parsed == Parsed([], Unread(), true) && Unread() == old(Unread())
    {
      if state.Head? {
        if |buffer| < HEAD {
          return NeedMore;
        }
        var n := DecodeHead(buffer);
        if n > MAX_FRAME {
          return TooLong;
        }
        HeadUnique(buffer[..HEAD]);
        assert EncodeHead(n) + buffer[HEAD..] == buffer;
        state := Data(n);
        buffer := buffer[HEAD..];
        assert Unread() == old(Unread());
      }
      var n := state.n;
      HeadRoundTrip(n, buffer);
      if |buffer| < n {
        return NeedMore;
      }
      r := Message(buffer[..n]);
      assert Unread()[HEAD..HEAD + n] == buffer[..n];
      assert Unread()[HEAD + n..] == buffer[n..];
      state := Head;
      buffer := buffer[n..];
    }

    /** Takes in a chunk and yields every message it completes. A stream that has announced
        an oversized message yields nothing more. */
    method Feed(chunk: Bytes) returns (messages: seq<Bytes>)
      requires Valid()
      modifies this`state, this`buffer, this`failed
      ensures Valid()
      ensures old(failed) ==> messages == [] && failed
      ensures !old(failed) ==>
                && Parse(old(Unread()) + chunk) == Parsed(messages, Unread(), failed)
                && (!failed ==> Waiting())
    {
      messages := [];
      if failed {
        return;
      }
      buffer := buffer + chunk;
      assert Unread() == old(Unread()) + chunk;
      ghost var whole := Parse(Unread());
      assert whole == Prepend(messages, whole);
      while true
        invariant Valid() && !failed
        invariant whole == Prepend(messages, Parse(Unread()))
        decreases |Unread()|
      {
        ghost var before := Parse(Unread());
        var r := Decode();
        match r
        case Message(bytes) =>
          assert before == Prepend([bytes], Parse(Unread()));
          Assoc(messages, [bytes], Parse(Unread()).messages);
          messages := messages + [bytes];
        case NeedMore => break;
        case TooLong =>
          failed := true;
          return;
      }
    }

    /** What `receive` reports when the transport ends now: a clean end only if no byte is
        left in the buffer. */
    predicate CleanEnd()
      reads this
    {
      buffer == []
    }
  }

  function Concat(chunks: seq<Bytes>): Bytes {
    if chunks == [] then [] else Concat(chunks[..|chunks| - 1]) + chunks[|chunks| - 1]
  }

  /** Feeding a decoder chunk by chunk. */
  method FeedAll(framed: Framed, chunks: seq<Bytes>) returns (messages: seq<Bytes>)
    requires framed.Valid() && framed.Unread() == [] && framed.Waiting() && !framed.failed
    modifies framed`state, framed`buffer, framed`failed
    ensures framed.Valid()
    ensures var parsed := Parse(Concat(chunks));
            messages == parsed.messages && framed.failed == parsed.tooLong
            && (!framed.failed ==> framed.Unread() == parsed.rest && framed.Waiting())
  {
    messages := [];
    var i := 0;
    while i < |chunks|
      invariant i <= |chunks| && framed.Valid()
      invariant var parsed := Parse(Concat(chunks[..i]));
                messages == parsed.messages && framed.failed == parsed.tooLong
                && (!framed.failed ==> framed.Unread() == parsed.rest && framed.Waiting())
    {
      assert chunks[..i + 1][..i] == chunks[..i];
      ParseConcat(Concat(chunks[..i]), chunks[i]);
      var more := framed.Feed(chunks[i]);
      messages := messages + more;
      i := i + 1;
    }
    assert chunks[..i] == chunks;
  }

  /** Framing under any chunking: however the frames of any messages are cut into chunks, a
      decoder yields exactly those messages, in order, and ends empty and clean. */
  method AnyChunking(messages: seq<Bytes>, chunks: seq<Bytes>) returns (received: seq<Bytes>, clean: bool)
    requires forall m | m in messages :: |m| <= MAX_FRAME
    requires Concat(chunks) == Frames(messages)
    ensures received == messages && clean
  {
    var framed := new Framed();
    received := FeedAll(framed, chunks);
    clean := framed.CleanEnd();
    FramesRoundTrip(messages, []);
    assert Frames(messages) + [] == Frames(messages);
    assert messages + [] == messages;
  }

  /** Whatever part of the bytes has arrived, what has been read so far is a prefix of what
      was sent. */
  lemma PrefixOfFrames(messages: seq<Bytes>, arrived: Bytes)
    requires forall m | m in messages :: |m| <= MAX_FRAME
    requires arrived <= Frames(messages)
    ensures Parse(arrived).messages <= messages && !Parse(arrived).tooLong
  {
    var missing := Frames(messages)[|arrived|..];
    assert arrived + missing == Frames(messages);
    ParseConcat(arrived, missing);
    FramesRoundTrip(messages, []);
    assert Frames(messages) + [] == Frames(messages);
    assert messages + [] == messages;
  }

  // The format, and exactly what is read from any bytes.

  /** The number some bytes stand for, the most significant first. */
  function BigEndian(bytes: Bytes): nat {
    if bytes == [] then 0 else BigEndian(bytes[..|bytes| - 1]) * 256 + bytes[|bytes| - 1]
  }

  lemma HeadIsBigEndian(bytes: Bytes)
    requires |bytes| >= 4
    ensures DecodeHead(bytes) == BigEndian(bytes[..4])
  {
    BigEndianNext(bytes, 0);
    BigEndianNext(bytes, 1);
    BigEndianNext(bytes, 2);
    BigEndianNext(bytes, 3);
  }

  lemma BigEndianNext(bytes: Bytes, k: nat)
    requires k < |bytes|
    ensures BigEndian(bytes[..k + 1]) == BigEndian(bytes[..k]) * 256 + bytes[k]
    ensures BigEndian(bytes[..0]) == 0
  {
    assert bytes[..k + 1][..k] == bytes[..k];
  }

  /** A frame is the length of its message in four bytes, the most significant first, and
      then the message; any message of at most 16 MiB has one. */
  lemma FrameFormat(message: Bytes)
    requires |message| <= 16_777_216
    ensures |Frame(message)| == 4 + |message|
    ensures BigEndian(Frame(message)[..4]) == |message| && Frame(message)[4..] == message
  {
    HeadRoundTrip(|message|, message);
    HeadIsBigEndian(Frame(message));
  }

  /** Some bytes read as messages and an unread rest exactly when they are the frames of
      those messages followed by a rest that holds no whole frame, and reading fails exactly
      when that rest announces more than 16 MiB. */
  ghost predicate ReadsAs(bytes: Bytes, messages: seq<Bytes>, rest: Bytes, tooLong: bool) {
    && (forall m | m in messages :: |m| <= 16_777_216)
    && bytes == Frames(messages) + rest
    && (tooLong <==> |rest| >= 4 && BigEndian(rest[..4]) > 16_777_216)
    && (!tooLong ==> |rest| < 4 || |rest| < 4 + BigEndian(rest[..4]))
  }

  lemma ReadsOne(bytes: Bytes, n: nat)
    requires n <= MAX_FRAME && |bytes| >= HEAD + n && DecodeHead(bytes) == n
    ensures bytes == Frame(bytes[HEAD..HEAD + n]) + bytes[HEAD + n..]
  {
    HeadUnique(bytes[..HEAD]);
    assert EncodeHead(n) == bytes[..HEAD];
  }

  lemma {:induction false} ParseReads(bytes: Bytes)
    ensures ReadsAs(bytes, Parse(bytes).messages, Parse(bytes).rest, Parse(bytes).tooLong)
    decreases |bytes|
  {
    if |bytes| >= HEAD {
      HeadIsBigEndian(bytes);
    }
    if |bytes| < HEAD || DecodeHead(bytes) > MAX_FRAME || |bytes| < HEAD + DecodeHead(bytes) {
      assert Frames([]) + bytes == bytes;
    } else {
      var n := DecodeHead(bytes);
      var message, rest := bytes[HEAD..HEAD + n], bytes[HEAD + n..];
      ParseReads(rest);
      ReadsOne(bytes, n);
      ParseWhole(bytes, n, rest);
      var parsed := Parse(rest);
      assert ([message] + parsed.messages)[1..] == parsed.messages;
      Assoc(Frame(message), Frames(parsed.messages), parsed.rest);
    }
  }

  lemma ParseStops(rest: Bytes, tooLong: bool)
    requires ReadsAs(rest, [], rest, tooLong)
    ensures Parse(rest) == Parsed([], rest, tooLong)
  {
    if |rest| >= 4 {
      HeadIsBigEndian(rest);
    }
  }

  /** Reading any bytes at all is exact. */
  lemma ParseIff(bytes: Bytes, messages: seq<Bytes>, rest: Bytes, tooLong: bool)
    ensures Parse(bytes) == Parsed(messages, rest, tooLong) <==> ReadsAs(bytes, messages, rest, tooLong)
  {
    ParseReads(bytes);
    if ReadsAs(bytes, messages, rest, tooLong) {
      assert Frames([]) + rest == rest;
      ParseStops(rest, tooLong);
      FramesRoundTrip(messages, rest);
      assert messages + [] == messages;
    }
  }

  /** A transport that ends early is noticed except in one case: a clean end is reported
      exactly when the bytes end after a whole message, or right after the length of one
      that is not empty and is lost. */
  method TruncationNoticed(chunks: seq<Bytes>) returns (clean: bool)
    requires !Parse(Concat(chunks)).tooLong
    ensures clean <==> |Parse(Concat(chunks)).rest| == 0 || |Parse(Concat(chunks)).rest| == HEAD
    ensures var rest := Parse(Concat(chunks)).rest; |rest| == HEAD ==> 0 < BigEndian(rest) <= 16_777_216
  {
    ParseReads(Concat(chunks));
    var framed := new Framed();
    var received := FeedAll(framed, chunks);
    clean := framed.CleanEnd();
    var rest := Parse(Concat(chunks)).rest;
    if |rest| == HEAD {
      assert rest[..4] == rest;
    }
  }
}
