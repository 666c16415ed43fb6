/** The protobuf messages of src/protos/service.proto, encoded and decoded as the Protocol
    Buffers Encoding specification says (sections "Base 128 Varints" and "Message
    Structure"), and the `ProtobufCodec` of src/transport.rs over them. */
module Protobuf {
  import opened Rpc
  import opened Util

  // Base 128 varints.

  const MAX_VARINT: nat := 10

  function EncodeVarint(n: nat): (bytes: Bytes)
    ensures bytes != []
  {
    if n < 128 then [n] else [n % 128 + 128] + EncodeVarint(n / 128)
  }

  datatype Read<+T> = Read(value: T, rest: Bytes) | Malformed

  /** A varint of at most `left` bytes, of any magnitude. */
  function ReadDigits(bytes: Bytes, left: nat): (r: Read<nat>)
    ensures r.Read? ==> |r.rest| < |bytes|
    decreases left
  {
    if left == 0 || bytes == [] then Malformed
    else if bytes[0] < 128 then Read(bytes[0], bytes[1..])
    else
      match ReadDigits(bytes[1..], left - 1)
      case Malformed => Malformed
      case Read(high, rest) =>
        var low: nat := bytes[0] - 128;
        Read(low + 128 * high, rest)
  }

  /** A varint of at most ten bytes that fits 64 bits. */
  function ReadVarint(bytes: Bytes): (r: Read<u64>)
    ensures r.Read? ==> |r.rest| < |bytes|
  {
    match ReadDigits(bytes, MAX_VARINT)
    case Read(value, rest) => if value < U64_MODULUS then Read(value, rest) else Malformed
    case Malformed => Malformed
  }

  function Power128(k: nat): nat {
    if k == 0 then 1 else 128 * Power128(k - 1)
  }

  lemma {:induction false} DigitsRoundTrip(n: nat, k: nat, rest: Bytes)
    requires k > 0 && n < Power128(k)
    ensures ReadDigits(EncodeVarint(n) + rest, k) == Read(n, rest)
  {
    var bytes := EncodeVarint(n) + rest;
    if n < 128 {
      assert bytes[1..] == rest;
    } else {
      assert bytes[1..] == EncodeVarint(n / 128) + rest;
      assert k > 1 && n / 128 < Power128(k - 1);
      DigitsRoundTrip(n / 128, k - 1, rest);
    }
  }

  lemma {:induction false} VarintLength(n: nat, k: nat)
    requires k > 0 && n < Power128(k)
    ensures |EncodeVarint(n)| <= k
  {
    if n >= 128 {
      assert k > 1 && n / 128 < Power128(k - 1);
      VarintLength(n / 128, k - 1);
    }
  }

  /** Every 64-bit number survives the varint encoding, in at most ten bytes and whatever
      follows it. */
  lemma VarintRoundTrip(n: u64, rest: Bytes)
    ensures ReadVarint(EncodeVarint(n) + rest) == Read(n, rest)
    ensures |EncodeVarint(n)| <= MAX_VARINT
  {
    assert Power128(5) == 0x8_0000_0000;
    assert Power128(10) == 0x40_0000_0000_0000_0000;
    DigitsRoundTrip(n, 10, rest);
    VarintLength(n, 10);
  }

  /** The number some base 128 digits stand for, the least significant first, whatever their
      continuation bits. */
  function Base128(digits: Bytes): nat {
    if digits == [] then 0 else digits[0] % 128 + 128 * Base128(digits[1..])
  }

  /** The first `k` bytes are one varint: all but the last have the continuation bit. */
  predicate IsVarint(bytes: Bytes, k: nat) {
    && 0 < k <= |bytes| && bytes[k - 1] < 128
    && forall i | 0 <= i < k - 1 :: bytes[i] >= 128
  }

  /** The encoding of a number is the shortest varint that stands for it. */
  lemma {:induction false} VarintMeans(n: nat)
    ensures var bytes := EncodeVarint(n);
            && IsVarint(bytes, |bytes|) && Base128(bytes) == n
            && (|bytes| > 1 ==> bytes[|bytes| - 1] != 0)
  {
    if n >= 128 {
      VarintMeans(n / 128);
      var bytes, high := EncodeVarint(n), EncodeVarint(n / 128);
      assert bytes[1..] == high;
      assert forall i | 0 < i < |bytes| :: bytes[i] == high[i - 1];
    }
  }

  lemma {:induction false} DigitsRead(bytes: Bytes, left: nat, k: nat)
    requires IsVarint(bytes, k)
    ensures ReadDigits(bytes, left) == if k <= left then Read(Base128(bytes[..k]), bytes[k..]) else Malformed
    decreases left
  {
    if left > 0 {
      if k == 1 {
        assert bytes[..1][1..] == [];
      } else {
        var rest := bytes[1..];
        assert forall i | 0 <= i < k - 1 :: rest[i] == bytes[i + 1];
        DigitsRead(rest, left - 1, k - 1);
        assert bytes[..k][1..] == rest[..k - 1] && rest[k - 1..] == bytes[k..];
      }
    }
  }

  lemma {:induction false} DigitsUnended(bytes: Bytes, left: nat)
    requires forall k: nat :: !IsVarint(bytes, k)
    ensures ReadDigits(bytes, left) == Malformed
    decreases left
  {
    if left > 0 && bytes != [] {
      assert !IsVarint(bytes, 1);
      assert forall i | 0 < i < |bytes| :: bytes[i] == bytes[1..][i - 1];
      forall k: nat
        ensures !IsVarint(bytes[1..], k)
      {
        assert !IsVarint(bytes, k + 1);
      }
      DigitsUnended(bytes[1..], left - 1);
    }
  }

  /** Exactly the varints of at most ten bytes that stand for a number of 64 bits can be
      read, padded with zero digits or not, and are read as that number. */
  lemma ReadVarintIff(bytes: Bytes, k: nat)
    ensures IsVarint(bytes, k) ==>
              ReadVarint(bytes) ==
              if k <= 10 && Base128(bytes[..k]) < U64_MODULUS then Read(Base128(bytes[..k]), bytes[k..]) else Malformed
    ensures (forall j: nat :: !IsVarint(bytes, j)) ==> ReadVarint(bytes) == Malformed
  {
    if IsVarint(bytes, k) {
      DigitsRead(bytes, MAX_VARINT, k);
    }
    if forall j: nat :: !IsVarint(bytes, j) {
      DigitsUnended(bytes, MAX_VARINT);
    }
  }

  // Text.

  /** A Unicode scalar value. */
  type Scalar = c: nat | c < 0xD800 || 0xE000 <= c < 0x11_0000

  /** The UTF-8 of one scalar value (RFC 3629, section 3). */
  function EncodeScalar(c: Scalar): (bytes: Bytes)
    ensures 0 < |bytes| <= 4
  {
    if c < 0x80 then [c]
    else if c < 0x800 then [0xC0 + c / 0x40, 0x80 + c % 0x40]
    else if c < 0x1_0000 then [0xE0 + c / 0x1000, 0x80 + c / 0x40 % 0x40, 0x80 + c % 0x40]
    else [0xF0 + c / 0x4_0000, 0x80 + c / 0x1000 % 0x40, 0x80 + c / 0x40 % 0x40, 0x80 + c % 0x40]
  }

  function EncodeText(text: seq<Scalar>): Bytes {
    if text == [] then [] else EncodeScalar(text[0]) + EncodeText(text[1..])
  }

  lemma ScalarBytes(c: Scalar)
    ensures var bytes := EncodeScalar(c);
            if c < 0x80 then bytes[0] < 0x80
            else if c < 0x800 then |bytes| == 2 && 0xC2 <= bytes[0] < 0xE0 && Continuation(bytes[1])
            else if c < 0x1_0000 then
              && |bytes| == 3 && 0xE0 <= bytes[0] < 0xF0 && Continuation(bytes[1]) && Continuation(bytes[2])
              && (bytes[0] == 0xE0 ==> bytes[1] >= 0xA0) && (bytes[0] == 0xED ==> bytes[1] < 0xA0)
            else
              && |bytes| == 4 && 0xF0 <= bytes[0] < 0xF5
              && Continuation(bytes[1]) && Continuation(bytes[2]) && Continuation(bytes[3])
              && (bytes[0] == 0xF0 ==> bytes[1] >= 0x90) && (bytes[0] == 0xF4 ==> bytes[1] < 0x90)
  {
  }

  lemma ScalarIsUtf8(c: Scalar, rest: Bytes)
    ensures Utf8(EncodeScalar(c) + rest) == Utf8(rest)
  {
    ScalarBytes(c);
    Utf8After(EncodeScalar(c), rest);
  }

  lemma Utf8After(head: Bytes, rest: Bytes)
    requires Utf8(head) && 0 < |head| <= 4
    requires var b := head[0]; |head| == if b < 0x80 then 1 else if b < 0xE0 then 2 else if b < 0xF0 then 3 else 4
    ensures Utf8(head + rest) == Utf8(rest)
  {
    assert (head + rest)[|head|..] == rest;
  }

  lemma TwoBytes(b0: byte, b1: byte) returns (c: Scalar)
    requires 0xC2 <= b0 < 0xE0 && Continuation(b1)
    ensures EncodeScalar(c) == [b0, b1]
  {
    var h0: nat, h1: nat := b0, b1;
    c := (h0 - 0xC0) * 0x40 + (h1 - 0x80);
    assert c / 0x40 == h0 - 0xC0 && c % 0x40 == h1 - 0x80;
  }

  lemma ThreeBytes(b0: byte, b1: byte, b2: byte) returns (c: Scalar)
    requires 0xE0 <= b0 < 0xF0 && Continuation(b1) && Continuation(b2)
    requires (b0 == 0xE0 ==> b1 >= 0xA0) && (b0 == 0xED ==> b1 < 0xA0)
    ensures EncodeScalar(c) == [b0, b1, b2]
  {
    var h0: nat, h1: nat, h2: nat := b0, b1, b2;
    c := (h0 - 0xE0) * 0x1000 + (h1 - 0x80) * 0x40 + (h2 - 0x80);
    assert c / 0x1000 == h0 - 0xE0 && c % 0x40 == h2 - 0x80;
    assert c / 0x40 == (h0 - 0xE0) * 0x40 + (h1 - 0x80);
  }

  lemma FourBytes(b0: byte, b1: byte, b2: byte, b3: byte) returns (c: Scalar)
    requires 0xF0 <= b0 < 0xF5 && Continuation(b1) && Continuation(b2) && Continuation(b3)
    requires (b0 == 0xF0 ==> b1 >= 0x90) && (b0 == 0xF4 ==> b1 < 0x90)
    ensures EncodeScalar(c) == [b0, b1, b2, b3]
  {
    var h0: nat, h1: nat, h2: nat, h3: nat := b0, b1, b2, b3;
    c := (h0 - 0xF0) * 0x4_0000 + (h1 - 0x80) * 0x1000 + (h2 - 0x80) * 0x40 + (h3 - 0x80);
    assert c / 0x4_0000 == h0 - 0xF0 && c % 0x40 == h3 - 0x80;
    assert c / 0x1000 == (h0 - 0xF0) * 0x40 + (h1 - 0x80);
    assert c / 0x40 == ((h0 - 0xF0) * 0x40 + (h1 - 0x80)) * 0x40 + (h2 - 0x80);
  }

  /** Well-formed bytes begin with the encoding of one scalar value. */
  lemma Utf8Begins(bytes: Bytes) returns (c: Scalar)
    requires Utf8(bytes) && bytes != []
    ensures var n := |EncodeScalar(c)|; n <= |bytes| && EncodeScalar(c) == bytes[..n] && Utf8(bytes[n..])
  {
    var b := bytes[0];
    if b < 0x80 {
      c := b;
    } else if b < 0xE0 {
      c := TwoBytes(b, bytes[1]);
    } else if b < 0xF0 {
      c := ThreeBytes(b, bytes[1], bytes[2]);
    } else {
      c := FourBytes(b, bytes[1], bytes[2], bytes[3]);
    }
  }

  /** The bytes accepted as text are exactly the encodings of sequences of scalar values. */
  lemma {:induction false} Utf8Iff(bytes: Bytes)
    ensures Utf8(bytes) <==> exists text: seq<Scalar> :: EncodeText(text) == bytes
    decreases |bytes|
  {
    if Utf8(bytes) {
      var text := Utf8Text(bytes);
    }
    forall text: seq<Scalar> | EncodeText(text) == bytes
      ensures Utf8(bytes)
    {
      TextIsUtf8(text);
    }
  }

  lemma {:induction false} TextIsUtf8(text: seq<Scalar>)
    ensures Utf8(EncodeText(text))
  {
    if text != [] {
      TextIsUtf8(text[1..]);
      ScalarIsUtf8(text[0], EncodeText(text[1..]));
    }
  }

  lemma {:induction false} Utf8Text(bytes: Bytes) returns (text: seq<Scalar>)
    requires Utf8(bytes)
    ensures EncodeText(text) == bytes
    decreases |bytes|
  {
    text := [];
    if bytes != [] {
      var c := Utf8Begins(bytes);
      var more := Utf8Text(bytes[|EncodeScalar(c)|..]);
      text := [c] + more;
      assert text[1..] == more;
    }
  }

  predicate Continuation(b: byte) {
    0x80 <= b < 0xC0
  }

  /** Well-formed UTF-8 (RFC 3629, section 4). */
  predicate Utf8(bytes: Bytes) {
    if bytes == [] then true
    else
      var b := bytes[0];
      if b < 0x80 then Utf8(bytes[1..])
      else if 0xC2 <= b < 0xE0 then |bytes| >= 2 && Continuation(bytes[1]) && Utf8(bytes[2..])
      else if 0xE0 <= b < 0xF0 then
        && |bytes| >= 3 && Continuation(bytes[1]) && Continuation(bytes[2])
        && (b == 0xE0 ==> bytes[1] >= 0xA0) && (b == 0xED ==> bytes[1] < 0xA0)
        && Utf8(bytes[3..])
      else
        && 0xF0 <= b < 0xF5
        && |bytes| >= 4 && Continuation(bytes[1]) && Continuation(bytes[2]) && Continuation(bytes[3])
        && (b == 0xF0 ==> bytes[1] >= 0x90) && (b == 0xF4 ==> bytes[1] < 0x90)
        && Utf8(bytes[4..])
  }

  // Messages. Both have an id in field 1 and two length-delimited fields.

  /** Which message a record is, and so which of its fields is text. */
  datatype Schema = RequestProto | ResponseProto

  /** `RequestProto`: id, method, payload. `ResponseProto`: id, payload, error. */
  datatype Record = Record(id: u64, second: Bytes, third: Bytes)

  const DEFAULT := Record(0, [], [])

  predicate IsText(schema: Schema, tag: nat) {
    if schema.RequestProto? then tag == 2 else tag == 3
  }

  predicate ValidText(schema: Schema, tag: nat, bytes: Bytes) {
    IsText(schema, tag) ==> Utf8(bytes)
  }

  /** A message that can exist: text fields are text, and lengths fit 64 bits. */
  predicate Valid(schema: Schema, m: Record) {
    && ValidText(schema, 2, m.second) && ValidText(schema, 3, m.third)
    && |m.second| < U64_MODULUS && |m.third| < U64_MODULUS
  }

  const VARINT: nat := 0
  const FIXED64: nat := 1
  const DELIMITED: nat := 2
  const START_GROUP: nat := 3
  const END_GROUP: nat := 4
  const FIXED32: nat := 5

  function Key(tag: nat, wire: nat): Bytes {
    EncodeVarint(tag * 8 + wire)
  }

  function EncodeId(id: u64): Bytes {
    if id == 0 then [] else Key(1, VARINT) + EncodeVarint(id)
  }

  function EncodeBytes(tag: nat, bytes: Bytes): Bytes {
    if bytes == [] then [] else Key(tag, DELIMITED) + EncodeVarint(|bytes|) + bytes
  }

  /** Fields that hold their default are omitted. */
  function Encode(m: Record): Bytes {
    EncodeId(m.id) + EncodeBytes(2, m.second) + EncodeBytes(3, m.third)
  }

  datatype FieldKey = FieldKey(tag: nat, wire: nat)

  function ReadKey(bytes: Bytes): (r: Read<FieldKey>)
    ensures r.Read? ==> |r.rest| < |bytes|
  {
    match ReadVarint(bytes)
    case Malformed => Malformed
    case Read(key, rest) =>
      if key >= 0x1_0000_0000 || key % 8 > 5 || key / 8 == 0 then Malformed
      else Read(FieldKey(key / 8, key % 8), rest)
  }

  function ReadDelimited(bytes: Bytes): (r: Read<Bytes>)
    ensures r.Read? ==> |r.rest| < |bytes|
  {
    match ReadVarint(bytes)
    case Malformed => Malformed
    case Read(n, rest) => if n > |rest| then Malformed else Read(rest[..n], rest[n..])
  }

  const MAX_DEPTH: nat := 100

  /** Skipping a field of an unknown tag; groups nest to a bounded depth. */
  function Skip(key: FieldKey, bytes: Bytes, depth: nat): (r: Read<()>)
    ensures r.Read? ==> |r.rest| <= |bytes|
    decreases |bytes|, 1
  {
    if depth == 0 then Malformed
    else if key.wire == VARINT then
      match ReadVarint(bytes) { case Read(_, rest) => Read((), rest) case Malformed => Malformed }
    else if key.wire == FIXED64 then if |bytes| < 8 then Malformed else Read((), bytes[8..])
    else if key.wire == DELIMITED then
      match ReadDelimited(bytes) { case Read(_, rest) => Read((), rest) case Malformed => Malformed }
    else if key.wire == START_GROUP then SkipGroup(key.tag, bytes, depth)
    else if key.wire == FIXED32 then if |bytes| < 4 then Malformed else Read((), bytes[4..])
    else Malformed
  }

  function SkipGroup(tag: nat, bytes: Bytes, depth: nat): (r: Read<()>)
    requires depth > 0
    ensures r.Read? ==> |r.rest| <= |bytes|
    decreases |bytes|, 0
  {
    match ReadKey(bytes)
    case Malformed => Malformed
    case Read(key, rest) =>
      if key.wire == END_GROUP then if key.tag == tag then Read((), rest) else Malformed
      else
        match Skip(key, rest, depth - 1)
        case Malformed => Malformed
        case Read(_, more) => SkipGroup(tag, more, depth)
  }

  /** One field, merged into the message read so far. */
  function ReadField(schema: Schema, m: Record, key: FieldKey, bytes: Bytes): (r: Read<Record>)
    ensures r.Read? ==> |r.rest| <= |bytes|
  {
    if key.tag == 1 then
      if key.wire != VARINT then Malformed
      else
        match ReadVarint(bytes)
        case Malformed => Malformed
        case Read(id, rest) => Read(m.(id := id), rest)
    else if key.tag == 2 || key.tag == 3 then
      if key.wire != DELIMITED then Malformed
      else
        match ReadDelimited(bytes)
        case Malformed => Malformed
        case Read(value, rest) =>
          if !ValidText(schema, key.tag, value) then Malformed
          else Read(if key.tag == 2 then m.(second := value) else m.(third := value), rest)
    else
      match Skip(key, bytes, MAX_DEPTH)
      case Malformed => Malformed
      case Read(_, rest) => Read(m, rest)
  }

  function ReadFields(schema: Schema, m: Record, bytes: Bytes): Option<Record>
    decreases |bytes|
  {
    if bytes == [] then Some(m)
    else
      match ReadKey(bytes)
      case Malformed => None
      case Read(key, rest) =>
        match ReadField(schema, m, key, rest)
        case Malformed => None
        case Read(m', more) => ReadFields(schema, m', more)
  }

  function Decode(schema: Schema, bytes: Bytes): Option<Record> {
    ReadFields(schema, DEFAULT, bytes)
  }

  // Round trips.

  lemma KeyRoundTrip(tag: nat, wire: nat, rest: Bytes)
    requires 0 < tag < 0x2000_0000 && wire <= 5
    ensures ReadKey(Key(tag, wire) + rest) == Read(FieldKey(tag, wire), rest)
  {
    VarintRoundTrip(tag * 8 + wire, rest);
  }

  lemma SplitAfterLength(head: Bytes, value: Bytes, rest: Bytes)
    ensures head + value + rest == head + (value + rest)
    ensures (value + rest)[..|value|] == value && (value + rest)[|value|..] == rest
  {
  }

  /** What a length prefix selects. */
  lemma DelimitedBy(bytes: Bytes, n: u64, tail: Bytes)
    requires ReadVarint(bytes) == Read(n, tail) && n <= |tail|
    ensures ReadDelimited(bytes) == Read(tail[..n], tail[n..])
  {
  }

  lemma DelimitedRoundTrip(value: Bytes, rest: Bytes)
    requires |value| < U64_MODULUS
    ensures ReadDelimited(EncodeVarint(|value|) + value + rest) == Read(value, rest)
  {
    var head := EncodeVarint(|value|);
    var tail := value + rest;
    SplitAfterLength(head, value, rest);
    VarintRoundTrip(|value|, tail);
    DelimitedBy(head + tail, |value|, tail);
  }

  /** Reading a field that starts with its key. */
  lemma ReadKeyed(schema: Schema, m: Record, key: FieldKey, body: Bytes, m': Record, rest: Bytes)
    requires 0 < key.tag < 0x2000_0000 && key.wire <= 5
    requires ReadField(schema, m, key, body + rest) == Read(m', rest)
    ensures ReadFields(schema, m, Key(key.tag, key.wire) + body + rest) == ReadFields(schema, m', rest)
  {
    assert Key(key.tag, key.wire) + body + rest == Key(key.tag, key.wire) + (body + rest);
    KeyRoundTrip(key.tag, key.wire, body + rest);
  }

  lemma ReadEncodedId(schema: Schema, m: Record, id: u64, rest: Bytes)
    ensures ReadFields(schema, m, EncodeId(id) + rest) ==
            ReadFields(schema, if id == 0 then m else m.(id := id), rest)
  {
    if id == 0 {
      assert EncodeId(id) + rest == rest;
    } else {
      VarintRoundTrip(id, rest);
      ReadKeyed(schema, m, FieldKey(1, VARINT), EncodeVarint(id), m.(id := id), rest);
    }
  }

  function WithBytes(m: Record, tag: nat, bytes: Bytes): Record {
    if bytes == [] then m else if tag == 2 then m.(second := bytes) else m.(third := bytes)
  }

  lemma ReadEncodedBytes(schema: Schema, m: Record, tag: nat, bytes: Bytes, rest: Bytes)
    requires (tag == 2 || tag == 3) && ValidText(schema, tag, bytes) && |bytes| < U64_MODULUS
    ensures ReadFields(schema, m, EncodeBytes(tag, bytes) + rest) == ReadFields(schema, WithBytes(m, tag, bytes), rest)
  {
    if bytes == [] {
      assert EncodeBytes(tag, bytes) + rest == rest;
    } else {
      var body := EncodeVarint(|bytes|) + bytes;
      DelimitedRoundTrip(bytes, rest);
      ReadKeyed(schema, m, FieldKey(tag, DELIMITED), body, WithBytes(m, tag, bytes), rest);
      assert Key(tag, DELIMITED) + EncodeVarint(|bytes|) + bytes == Key(tag, DELIMITED) + body;
    }
  }

  /** Field by field, a later value that is not the default wins. */
  function Merge(first: Record, second: Record): Record {
    Record(if second.id == 0 then first.id else second.id,
           if second.second == [] then first.second else second.second,
           if second.third == [] then first.third else second.third)
  }

  /** Reading an encoded message merges it into what was read before, whatever follows. */
  lemma ReadEncoded(schema: Schema, before: Record, m: Record, rest: Bytes)
    requires Valid(schema, m)
    ensures ReadFields(schema, before, Encode(m) + rest) == ReadFields(schema, Merge(before, m), rest)
  {
    var id, second, third := EncodeId(m.id), EncodeBytes(2, m.second), EncodeBytes(3, m.third);
    assert Encode(m) + rest == id + (second + (third + rest));
    ReadEncodedId(schema, before, m.id, second + (third + rest));
    var m1 := if m.id == 0 then before else before.(id := m.id);
    ReadEncodedBytes(schema, m1, 2, m.second, third + rest);
    ReadEncodedBytes(schema, WithBytes(m1, 2, m.second), 3, m.third, rest);
    assert WithBytes(WithBytes(m1, 2, m.second), 3, m.third) == Merge(before, m);
  }

  /** Decoding an encoded request or response gives it back: any 64-bit id, any text, any
      bytes, with defaults omitted on the wire. */
  lemma RoundTrip(schema: Schema, m: Record)
    requires Valid(schema, m)
    ensures Decode(schema, Encode(m)) == Some(m)
  {
    ReadEncoded(schema, DEFAULT, m, []);
    assert Encode(m) + [] == Encode(m);
  }

  lemma ReadBadText(schema: Schema, m: Record, tag: nat, bytes: Bytes, rest: Bytes)
    requires (tag == 2 || tag == 3) && IsText(schema, tag) && !Utf8(bytes) && |bytes| < U64_MODULUS
    ensures ReadFields(schema, m, EncodeBytes(tag, bytes) + rest) == None
  {
    var body := EncodeVarint(|bytes|) + bytes;
    BadTextRefused(schema, m, tag, bytes, rest);
    SplitAfterLength(Key(tag, DELIMITED), body, rest);
    KeyRoundTrip(tag, DELIMITED, body + rest);
    ReadRefused(schema, m, Key(tag, DELIMITED) + (body + rest), FieldKey(tag, DELIMITED), body + rest);
    SplitAfterLength(Key(tag, DELIMITED), EncodeVarint(|bytes|), bytes);
  }

  lemma BadTextRefused(schema: Schema, m: Record, tag: nat, bytes: Bytes, rest: Bytes)
    requires (tag == 2 || tag == 3) && IsText(schema, tag) && !Utf8(bytes) && |bytes| < U64_MODULUS
    ensures ReadField(schema, m, FieldKey(tag, DELIMITED), EncodeVarint(|bytes|) + bytes + rest) == Malformed
  {
    DelimitedRoundTrip(bytes, rest);
  }

  lemma ReadRefused(schema: Schema, m: Record, bytes: Bytes, key: FieldKey, body: Bytes)
    requires ReadKey(bytes) == Read(key, body) && ReadField(schema, m, key, body).Malformed?
    ensures ReadFields(schema, m, bytes) == None
  {
  }

  /** Every request - any 64-bit id, any method, any payload - survives exactly when its
      method is UTF-8; its payload is any bytes. */
  lemma RequestDecodesIff(id: u64, name: Bytes, payload: Bytes)
    requires |name| < U64_MODULUS && |payload| < U64_MODULUS
    ensures Decode(RequestProto, Encode(Record(id, name, payload))) ==
            if Utf8(name) then Some(Record(id, name, payload)) else None
  {
    if Utf8(name) {
      RoundTrip(RequestProto, Record(id, name, payload));
    } else {
      var third := EncodeBytes(3, payload);
      assert Encode(Record(id, name, payload)) == EncodeId(id) + (EncodeBytes(2, name) + third);
      ReadEncodedId(RequestProto, DEFAULT, id, EncodeBytes(2, name) + third);
      ReadBadText(RequestProto, if id == 0 then DEFAULT else DEFAULT.(id := id), 2, name, third);
    }
  }

  /** Every response - any 64-bit id, any payload, any error - survives exactly when its
      error is UTF-8. */
  lemma ResponseDecodesIff(id: u64, payload: Bytes, error: Bytes)
    requires |payload| < U64_MODULUS && |error| < U64_MODULUS
    ensures Decode(ResponseProto, Encode(Record(id, payload, error))) ==
            if Utf8(error) then Some(Record(id, payload, error)) else None
  {
    if Utf8(error) {
      RoundTrip(ResponseProto, Record(id, payload, error));
    } else {
      var third := EncodeBytes(3, error);
      assert Encode(Record(id, payload, error)) == EncodeId(id) + (EncodeBytes(2, payload) + third);
      assert third + [] == third;
      ReadEncodedId(ResponseProto, DEFAULT, id, EncodeBytes(2, payload) + third);
      var m := if id == 0 then DEFAULT else DEFAULT.(id := id);
      ReadEncodedBytes(ResponseProto, m, 2, payload, third);
      ReadBadText(ResponseProto, WithBytes(m, 2, payload), 3, error, []);
    }
  }

  /** The bytes on the wire: the id as field 1, a varint, and the other two as fields 2 and
      3, with their lengths; fields that hold their default are left out. */
  lemma WireFormat(m: Record)
    ensures Encode(m) ==
            (if m.id == 0 then [] else [0x08] + EncodeVarint(m.id))
            + (if m.second == [] then [] else [0x12] + EncodeVarint(|m.second|) + m.second)
            + (if m.third == [] then [] else [0x1A] + EncodeVarint(|m.third|) + m.third)
  {
    assert Key(1, VARINT) == [0x08] && Key(2, DELIMITED) == [0x12] && Key(3, DELIMITED) == [0x1A];
  }

  /** Two encodings back to back decode as one message, their merge ("Last One Wins"). */
  lemma ConcatenationMerges(schema: Schema, first: Record, second: Record)
    requires Valid(schema, first) && Valid(schema, second)
    ensures Decode(schema, Encode(first) + Encode(second)) == Some(Merge(first, second))
  {
    ReadEncoded(schema, DEFAULT, first, Encode(second));
    ReadEncoded(schema, first, second, []);
    assert Encode(second) + [] == Encode(second);
  }

  // Fields of tags the schema does not have.

  /** A well-formed field: a number, eight or four bytes, any bytes with their length, or a
      group of fields. */
  datatype Field =
    | Number(tag: nat, value: u64)
    | Eight(tag: nat, bytes: Bytes)
    | Chunk(tag: nat, bytes: Bytes)
    | Group(tag: nat, fields: seq<Field>)
    | Four(tag: nat, bytes: Bytes)
  {
    function Wire(): nat {
      match this
      case Number(_, _) => VARINT
      case Eight(_, _) => FIXED64
      case Chunk(_, _) => DELIMITED
      case Group(_, _) => START_GROUP
      case Four(_, _) => FIXED32
    }
  }

  predicate WellFormed(field: Field) {
    && 0 < field.tag < 0x2000_0000
    && match field
       case Number(_, _) => true
       case Eight(_, bytes) => |bytes| == 8
       case Chunk(_, bytes) => |bytes| < U64_MODULUS
       case Group(_, fields) => AllWellFormed(fields)
       case Four(_, bytes) => |bytes| == 4
  }

  predicate AllWellFormed(fields: seq<Field>) {
    fields == [] || (WellFormed(fields[0]) && AllWellFormed(fields[1..]))
  }

  function EncodeField(field: Field): Bytes
    decreases field, 1
  {
    Key(field.tag, field.Wire()) + Body(field)
  }

  function Body(field: Field): Bytes
    decreases field, 0
  {
    match field
    case Number(_, value) => EncodeVarint(value)
    case Eight(_, bytes) => bytes
    case Chunk(_, bytes) => EncodeVarint(|bytes|) + bytes
    case Group(tag, fields) => EncodeFields(fields) + Key(tag, END_GROUP)
    case Four(_, bytes) => bytes
  }

  function EncodeFields(fields: seq<Field>): Bytes
    decreases fields, 2
  {
    if fields == [] then [] else EncodeField(fields[0]) + EncodeFields(fields[1..])
  }

  /** How deep groups nest in a field, itself included. */
  function Depth(field: Field): nat {
    if field.Group? then 1 + DepthOfAll(field.fields) else 1
  }

  function DepthOfAll(fields: seq<Field>): nat {
    if fields == [] then 0 else Max(Depth(fields[0]), DepthOfAll(fields[1..]))
  }

  lemma SkipPlain(field: Field, rest: Bytes, depth: nat)
    requires WellFormed(field) && !field.Group? && depth > 0
    ensures Skip(FieldKey(field.tag, field.Wire()), Body(field) + rest, depth) == Read((), rest)
  {
    match field
    case Number(_, value) => VarintRoundTrip(value, rest);
    case Eight(_, bytes) => assert (bytes + rest)[8..] == rest;
    case Chunk(_, bytes) => DelimitedRoundTrip(bytes, rest);
    case Four(_, bytes) => assert (bytes + rest)[4..] == rest;
  }

  /** A well-formed field is skipped to its last byte exactly when it nests no deeper than
      the bound; a deeper one is refused, whatever follows. */
  lemma {:induction false} SkipExactly(field: Field, rest: Bytes, depth: nat)
    requires WellFormed(field)
    ensures Skip(FieldKey(field.tag, field.Wire()), Body(field) + rest, depth) ==
            if Depth(field) <= depth then Read((), rest) else Malformed
    decreases field
  {
    if depth > 0 {
      match field
      case Group(tag, fields) =>
        SkipGroupExactly(tag, fields, rest, depth);
        assert Body(field) + rest == EncodeFields(fields) + Key(tag, END_GROUP) + rest;
      case _ => SkipPlain(field, rest, depth);
    }
  }

  lemma FieldKeyRead(field: Field, rest: Bytes)
    requires WellFormed(field)
    ensures ReadKey(EncodeField(field) + rest) == Read(FieldKey(field.tag, field.Wire()), Body(field) + rest)
  {
    KeyRoundTrip(field.tag, field.Wire(), Body(field) + rest);
    SplitAfterLength(Key(field.tag, field.Wire()), Body(field), rest);
  }

  /** One turn of skipping a group. */
  lemma SkipGroupTurn(tag: nat, bytes: Bytes, key: FieldKey, body: Bytes, depth: nat)
    requires depth > 0 && ReadKey(bytes) == Read(key, body) && key.wire != END_GROUP
    ensures SkipGroup(tag, bytes, depth) ==
            if Skip(key, body, depth - 1).Malformed? then Malformed
            else SkipGroup(tag, Skip(key, body, depth - 1).rest, depth)
  {
  }

  /** The end of a group. */
  lemma SkipGroupEnd(tag: nat, bytes: Bytes, rest: Bytes, depth: nat)
    requires depth > 0 && ReadKey(bytes) == Read(FieldKey(tag, END_GROUP), rest)
    ensures SkipGroup(tag, bytes, depth) == Read((), rest)
  {
  }

  lemma NoFields(end: Bytes, rest: Bytes)
    ensures EncodeFields([]) + end + rest == end + rest
  {
  }

  lemma EncodeFieldsNext(fields: seq<Field>, end: Bytes, rest: Bytes)
    requires fields != []
    ensures EncodeFields(fields) + end + rest == EncodeField(fields[0]) + (EncodeFields(fields[1..]) + end + rest)
  {
  }

  lemma SkipGroupField(tag: nat, field: Field, after: Bytes, depth: nat)
    requires depth > 0 && WellFormed(field)
    requires Skip(FieldKey(field.tag, field.Wire()), Body(field) + after, depth - 1) ==
             if Depth(field) < depth then Read((), after) else Malformed
    ensures SkipGroup(tag, EncodeField(field) + after, depth) ==
            if Depth(field) < depth then SkipGroup(tag, after, depth) else Malformed
  {
    FieldKeyRead(field, after);
    SkipGroupTurn(tag, EncodeField(field) + after, FieldKey(field.tag, field.Wire()), Body(field) + after, depth);
  }

  lemma {:induction false} SkipGroupExactly(tag: nat, fields: seq<Field>, rest: Bytes, depth: nat)
    requires 0 < tag < 0x2000_0000 && AllWellFormed(fields) && depth > 0
    ensures SkipGroup(tag, EncodeFields(fields) + Key(tag, END_GROUP) + rest, depth) ==
            if DepthOfAll(fields) < depth then Read((), rest) else Malformed
    decreases fields
  {
    if fields == [] {
      KeyRoundTrip(tag, END_GROUP, rest);
      NoFields(Key(tag, END_GROUP), rest);
      SkipGroupEnd(tag, Key(tag, END_GROUP) + rest, rest, depth);
    } else {
      var after := EncodeFields(fields[1..]) + Key(tag, END_GROUP) + rest;
      EncodeFieldsNext(fields, Key(tag, END_GROUP), rest);
      SkipExactly(fields[0], after, depth - 1);
      SkipGroupField(tag, fields[0], after, depth);
      SkipGroupExactly(tag, fields[1..], rest, depth);
    }
  }

  lemma ReadUnknown(schema: Schema, m: Record, bytes: Bytes, key: FieldKey, body: Bytes)
    requires ReadKey(bytes) == Read(key, body) && key.tag > 3
    ensures ReadFields(schema, m, bytes) ==
            if Skip(key, body, MAX_DEPTH).Malformed? then None
            else ReadFields(schema, m, Skip(key, body, MAX_DEPTH).rest)
  {
  }

  /** A well-formed field of a tag this schema does not have, between any two messages'
      fields, changes nothing exactly when it nests at most a hundred deep; a deeper one
      makes the whole message undecodable. */
  lemma UnknownFieldSkipped(schema: Schema, m: Record, field: Field, n: Record)
    requires Valid(schema, m) && Valid(schema, n) && WellFormed(field) && field.tag > 3
    ensures Decode(schema, Encode(m) + (EncodeField(field) + Encode(n))) ==
            if Depth(field) <= MAX_DEPTH then Some(Merge(m, n)) else None
  {
    var key := FieldKey(field.tag, field.Wire());
    var bytes := EncodeField(field) + Encode(n);
    ReadEncoded(schema, DEFAULT, m, bytes);
    FieldKeyRead(field, Encode(n));
    ReadUnknown(schema, m, bytes, key, Body(field) + Encode(n));
    SkipExactly(field, Encode(n), MAX_DEPTH);
    ReadEncoded(schema, m, n, []);
    assert Encode(n) + [] == Encode(n);
  }

  // Fields in any number and order.

  /** What a message is after one more field: a field of the schema, of the right kind, is
      set; one of the wrong kind, or text that is not UTF-8, is refused; any other field is
      passed over unless it nests too deep. */
  function Absorb(schema: Schema, m: Record, field: Field): Option<Record> {
    match field.tag
    case 1 => if field.Number? then Some(m.(id := field.value)) else None
    case 2 =>
      if field.Chunk? && (schema == RequestProto ==> Utf8(field.bytes)) then Some(m.(second := field.bytes)) else None
    case 3 =>
      if field.Chunk? && (schema == ResponseProto ==> Utf8(field.bytes)) then Some(m.(third := field.bytes)) else None
    case _ => if Depth(field) <= 100 then Some(m) else None
  }

  function AbsorbAll(schema: Schema, m: Record, fields: seq<Field>): Option<Record>
    decreases fields
  {
    if fields == [] then Some(m)
    else
      match Absorb(schema, m, fields[0])
      case None => None
      case Some(m') => AbsorbAll(schema, m', fields[1..])
  }

  lemma ReadFieldAbsorbs(schema: Schema, m: Record, field: Field, rest: Bytes)
    requires WellFormed(field)
    ensures ReadField(schema, m, FieldKey(field.tag, field.Wire()), Body(field) + rest) ==
            match Absorb(schema, m, field)
            case None => Malformed
            case Some(m') => Read(m', rest)
  {
    if field.tag > 3 {
      SkipExactly(field, rest, MAX_DEPTH);
    } else if field.Number? {
      VarintRoundTrip(field.value, rest);
    } else if field.Chunk? {
      DelimitedRoundTrip(field.bytes, rest);
    }
  }

  lemma ReadFieldsTurn(schema: Schema, m: Record, bytes: Bytes, key: FieldKey, body: Bytes, m': Record, rest: Bytes)
    requires ReadKey(bytes) == Read(key, body) && ReadField(schema, m, key, body) == Read(m', rest)
    ensures ReadFields(schema, m, bytes) == ReadFields(schema, m', rest)
  {
  }

  lemma ReadFieldsNext(schema: Schema, m: Record, field: Field, rest: Bytes)
    requires WellFormed(field)
    ensures ReadFields(schema, m, EncodeField(field) + rest) ==
            if Absorb(schema, m, field).None? then None
            else ReadFields(schema, Absorb(schema, m, field).value, rest)
  {
    var key, body := FieldKey(field.tag, field.Wire()), Body(field) + rest;
    FieldKeyRead(field, rest);
    ReadFieldAbsorbs(schema, m, field, rest);
    if Absorb(schema, m, field).None? {
      ReadRefused(schema, m, EncodeField(field) + rest, key, body);
    } else {
      ReadFieldsTurn(schema, m, EncodeField(field) + rest, key, body, Absorb(schema, m, field).value, rest);
    }
  }

  lemma {:induction false} ReadFieldsAll(schema: Schema, m: Record, fields: seq<Field>)
    requires AllWellFormed(fields)
    ensures ReadFields(schema, m, EncodeFields(fields)) == AbsorbAll(schema, m, fields)
    decreases fields
  {
    if fields != [] {
      ReadFieldsNext(schema, m, fields[0], EncodeFields(fields[1..]));
      if Absorb(schema, m, fields[0]).Some? {
        ReadFieldsAll(schema, Absorb(schema, m, fields[0]).value, fields[1..]);
      }
    }
  }

  /** Any sequence of well-formed fields, in any order and with repetitions, decodes as its
      fields say, one after the other from the message of defaults. */
  lemma DecodesFields(schema: Schema, fields: seq<Field>)
    requires AllWellFormed(fields)
    ensures Decode(schema, EncodeFields(fields)) == AbsorbAll(schema, Record(0, [], []), fields)
  {
    ReadFieldsAll(schema, DEFAULT, fields);
  }

  /** Only the message of defaults has an empty encoding. */
  lemma EmptyIffDefault(m: Record)
    ensures Encode(m) == [] <==> m == DEFAULT
  {
    if m.id != 0 {
      assert EncodeId(m.id) != [];
    }
  }

  // The codec, which does not frame its messages.

  class ByteBuffer {
    var data: Bytes

    constructor ()
      ensures data == []
    {
      data := [];
    }
  }

  datatype Item = Nothing | Got(message: Record) | Failed

  /** `ProtobufCodec::encode`: appends to the buffer. */
  method EncodeItem(item: Record, dst: ByteBuffer)
    modifies dst
    ensures dst.data == old(dst.data) + Encode(item)
  {
    dst.data := dst.data + Encode(item);
  }

  /** `ProtobufCodec::decode`: the whole buffer is one message, and is consumed. */
  method DecodeItem(schema: Schema, src: ByteBuffer) returns (item: Item)
    modifies src
    ensures if old(src.data) == [] then item == Nothing && src.data == []
            else
              match Decode(schema, old(src.data))
              case Some(m) => item == Got(m) && src.data == []
              case None => item == Failed && src.data == old(src.data)
  {
    if src.data == [] {
      return Nothing;
    }
    match Decode(schema, src.data)
    case Some(m) =>
      src.data := [];
      item := Got(m);
    case None =>
      item := Failed;
  }

  function EncodeAll(messages: seq<Record>): Bytes {
    if messages == [] then [] else Encode(messages[0]) + EncodeAll(messages[1..])
  }

  function MergeAll(before: Record, messages: seq<Record>): Record
    decreases messages
  {
    if messages == [] then before else MergeAll(Merge(before, messages[0]), messages[1..])
  }

  lemma {:induction false} ReadAll(schema: Schema, before: Record, messages: seq<Record>)
    requires forall i | 0 <= i < |messages| :: Valid(schema, messages[i])
    ensures ReadFields(schema, before, EncodeAll(messages)) == Some(MergeAll(before, messages))
    decreases messages
  {
    if messages != [] {
      ReadEncoded(schema, before, messages[0], EncodeAll(messages[1..]));
      ReadAll(schema, Merge(before, messages[0]), messages[1..]);
    }
  }

  lemma {:induction false} EmptyIffAllDefault(messages: seq<Record>)
    ensures EncodeAll(messages) == [] <==> forall i | 0 <= i < |messages| :: messages[i] == DEFAULT
  {
    if messages != [] {
      EmptyIffDefault(messages[0]);
      EmptyIffAllDefault(messages[1..]);
      assert forall i | 1 <= i < |messages| :: messages[i] == messages[1..][i - 1];
      assert forall i | 0 <= i < |messages| - 1 :: messages[1..][i] == messages[i + 1];
    }
  }

  lemma EncodeAllNext(written: Bytes, messages: seq<Record>, i: nat)
    requires i < |messages|
    ensures written + EncodeAll(messages[i..]) == written + Encode(messages[i]) + EncodeAll(messages[i + 1..])
  {
    assert messages[i..][1..] == messages[i + 1..];
    assert messages[i..][0] == messages[i];
  }

  method EncodeList(messages: seq<Record>) returns (buffer: ByteBuffer)
    ensures fresh(buffer) && buffer.data == EncodeAll(messages)
  {
    buffer := new ByteBuffer();
    var i := 0;
    while i < |messages|
      invariant i <= |messages|
      invariant EncodeAll(messages) == buffer.data + EncodeAll(messages[i..])
    {
      EncodeAllNext(buffer.data, messages, i);
      EncodeItem(messages[i], buffer);
      i := i + 1;
    }
  }

  method DecodeList(schema: Schema, buffer: ByteBuffer) returns (received: seq<Record>)
    requires Decode(schema, buffer.data).Some?
    modifies buffer
    ensures received == if old(buffer.data) == [] then [] else [Decode(schema, old(buffer.data)).value]
  {
    received := [];
    var item := DecodeItem(schema, buffer);
    while item.Got?
      invariant item.Got? ==> received == [] && old(buffer.data) != [] && buffer.data == []
                              && item.message == Decode(schema, old(buffer.data)).value
      invariant !item.Got? ==>
          received == if old(buffer.data) == [] then [] else [Decode(schema, old(buffer.data)).value]
      decreases if item.Got? then 1 else 0
    {
      received := received + [item.message];
      item := DecodeItem(schema, buffer);
    }
  }

  /** When a list of messages survives being encoded into one buffer. */
  lemma CodecKeepsIff(schema: Schema, messages: seq<Record>)
    requires forall i | 0 <= i < |messages| :: Valid(schema, messages[i])
    ensures Decode(schema, EncodeAll(messages)) == Some(MergeAll(DEFAULT, messages))
    ensures (if EncodeAll(messages) == [] then [] else [MergeAll(DEFAULT, messages)]) == messages <==>
            messages == [] || (|messages| == 1 && messages[0] != DEFAULT)
  {
    ReadAll(schema, DEFAULT, messages);
    EmptyIffAllDefault(messages);
    if |messages| == 1 {
      assert messages[1..] == [];
      assert MergeAll(DEFAULT, messages) == Merge(DEFAULT, messages[0]);
      assert messages == [messages[0]];
    }
  }

  /** Encodes a list of messages into one buffer and decodes until nothing is left. At most
      one message comes back - the merge of them all - so the list survives exactly when it
      is empty or is a single message that is not all defaults. */
  method ThroughCodec(schema: Schema, messages: seq<Record>) returns (received: seq<Record>)
    requires forall i | 0 <= i < |messages| :: Valid(schema, messages[i])
    ensures received == if EncodeAll(messages) == [] then [] else [MergeAll(DEFAULT, messages)]
    ensures received == messages <==> messages == [] || (|messages| == 1 && messages[0] != DEFAULT)
  {
    CodecKeepsIff(schema, messages);
    var buffer := EncodeList(messages);
    received := DecodeList(schema, buffer);
  }
}
