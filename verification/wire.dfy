/** The wire format: a code byte, the length of the value as four bytes, least significant first, and
    the value, of at most one mebibyte. */
module Wire {

  type byte = b: int | 0 <= b < 256

  type Bytes = seq<byte>

  const MAX_SIZE: nat := 1024 * 1024
  const TWO_32: nat := 0x1_0000_0000

  /** The four bytes appendUint32 appends. */
  function Uint32Bytes(n: nat): (r: Bytes)
    requires n < TWO_32
    ensures |r| == 4
  {
    [n % 256, n / 256 % 256, n / 65536 % 256, n / 16777216 % 256]
  }

  /** bytes2Uint32 */
  function ToUint32(b: Bytes): nat
    requires |b| == 4
  {
    b[3] as int * 16777216 + b[2] as int * 65536 + b[1] as int * 256 + b[0] as int
  }

  lemma LowByte(q: nat, r: byte)
    ensures (q * 256 + r) % 256 == r && (q * 256 + r) / 256 == q
  {
  }

  lemma ByteByByte(n: nat)
    ensures n / 65536 == n / 256 / 256 && n / 16777216 == n / 256 / 256 / 256
  {
  }

  lemma Uint32RoundTrip(n: nat)
    requires n < TWO_32
    ensures ToUint32(Uint32Bytes(n)) == n
  {
    ByteByByte(n);
    var q1, q2, q3 := n / 256, n / 256 / 256, n / 256 / 256 / 256;
    assert n == q1 * 256 + n % 256 && q1 == q2 * 256 + q1 % 256 && q2 == q3 * 256 + q2 % 256;
    assert q3 % 256 == q3;
  }

  lemma BytesRoundTrip(b: Bytes)
    requires |b| == 4
    ensures ToUint32(b) < TWO_32 && Uint32Bytes(ToUint32(b)) == b
  {
    var n := ToUint32(b);
    var q2: nat := b[3] as int * 256 + b[2] as int;
    var q1: nat := q2 * 256 + b[1] as int;
    assert n == q1 * 256 + b[0] as int;
    LowByte(q1, b[0]);
    LowByte(q2, b[1]);
    LowByte(b[3], b[2]);
    ByteByByte(n);
  }

  /** The bytes of a length, the least significant first, add up to it. */
  lemma LittleEndian(n: nat)
    requires n < TWO_32
    ensures
      var b := Uint32Bytes(n);
      n == b[0] as int + 256 * b[1] as int + 65536 * b[2] as int + 16777216 * b[3] as int
  {
    Uint32RoundTrip(n);
  }

  /** One request or response as it travels: the code is a request name or a status. */
  datatype Message = Message(code: byte, value: Bytes)

  predicate Fits(m: Message) { |m.value| <= MAX_SIZE }

  function Frame(m: Message): Bytes
    requires Fits(m)
  {
    [m.code] + Uint32Bytes(|m.value|) + m.value
  }

  /** What reading a length-prefixed value from the input comes to. */
  datatype ValueRead =
    | Value(value: Bytes, rest: Bytes)
    | ShortSize
    | TooBig(size: nat, rest: Bytes)
    | ShortBody(size: nat, got: Bytes)

  function ReadValue(input: Bytes): ValueRead {
    if |input| < 4 then ShortSize
    else
      var size := ToUint32(input[..4]);
      var body := input[4..];
      if size > MAX_SIZE then TooBig(size, body)
      else if |body| < size then ShortBody(size, body)
      else Value(body[..size], body[size..])
  }

  datatype Parsed = Parsed(message: Message, rest: Bytes) | NoCode | BadValue(code: byte, why: ValueRead)

  function Parse(input: Bytes): Parsed {
    if input == [] then NoCode
    else
      match ReadValue(input[1..])
      case Value(value, rest) => Parsed(Message(input[0], value), rest)
      case why => BadValue(input[0], why)
  }

  /** What a frame looks like, byte by byte. */
  lemma FrameLayout(m: Message)
    requires |m.value| <= 1048576
    ensures
      var f := Frame(m);
      && |f| == 5 + |m.value| && f[0] == m.code && f[5..] == m.value
      && |m.value| == f[1] as int + 256 * f[2] as int + 65536 * f[3] as int + 16777216 * f[4] as int
  {
    var size := Uint32Bytes(|m.value|);
    LittleEndian(|m.value|);
    assert Frame(m)[1..5] == size;
    assert Frame(m)[1] == size[0] && Frame(m)[2] == size[1] && Frame(m)[3] == size[2] && Frame(m)[4] == size[3];
  }

  /** Reading any input, byte by byte: the code, the length, the refusal of more than a mebibyte before the value is
      looked at, and the value. */
  lemma ParseExactly(input: Bytes)
    ensures input == [] ==> Parse(input) == NoCode
    ensures 0 < |input| < 5 ==> Parse(input) == BadValue(input[0], ShortSize)
    ensures |input| >= 5 ==>
      var size := input[1] as int + 256 * input[2] as int + 65536 * input[3] as int + 16777216 * input[4] as int;
      Parse(input) ==
        if size > 1048576 then BadValue(input[0], TooBig(size, input[5..]))
        else if |input| < 5 + size then BadValue(input[0], ShortBody(size, input[5..]))
        else Parsed(Message(input[0], input[5..5 + size]), input[5 + size..])
  {
    if |input| >= 5 {
      var size := input[1] as int + 256 * input[2] as int + 65536 * input[3] as int + 16777216 * input[4] as int;
      assert ToUint32(input[1..][..4]) == size;
      assert input[1..][4..] == input[5..];
      if |input| >= 5 + size {
        assert input[5..][..size] == input[5..5 + size] && input[5..][size..] == input[5 + size..];
      }
    }
  }

  /** Reading what was written gives the message back and consumes exactly its frame. */
  lemma ParseOfFrame(m: Message, tail: Bytes)
    requires Fits(m)
    ensures Parse(Frame(m) + tail) == Parsed(m, tail)
  {
    var input := Frame(m) + tail;
    Uint32RoundTrip(|m.value|);
    assert input[1..][..4] == Uint32Bytes(|m.value|);
    assert input[1..][4..] == m.value + tail;
    assert (m.value + tail)[..|m.value|] == m.value && (m.value + tail)[|m.value|..] == tail;
  }

  /** Only frames are read: what was consumed is the frame of what was read. */
  lemma FrameOfParse(input: Bytes)
    requires Parse(input).Parsed?
    ensures
      var p := Parse(input);
      Fits(p.message) && input == Frame(p.message) + p.rest
  {
    var size, body := input[1..][..4], input[1..][4..];
    BytesRoundTrip(size);
    var p := Parse(input);
    assert body == p.message.value + p.rest;
    assert input[1..] == size + body;
    assert input == [input[0]] + input[1..];
  }

  /** A frame that is cut short anywhere is not read as a message. */
  lemma StrictPrefixFails(m: Message, cut: nat)
    requires Fits(m) && cut < |Frame(m)|
    ensures !Parse(Frame(m)[..cut]).Parsed?
  {
    var input := Frame(m)[..cut];
    if Parse(input).Parsed? {
      var p := Parse(input);
      FrameOfParse(input);
      var missing := Frame(m)[cut..];
      assert Frame(m) + [] == Frame(p.message) + (p.rest + missing) by {
        assert Frame(m) == input + missing;
      }
      ParseOfFrame(m, []);
      ParseOfFrame(p.message, p.rest + missing);
    }
  }

  function Encode(messages: seq<Message>): Bytes
    requires forall m :: m in messages ==> Fits(m)
  {
    if messages == [] then [] else Frame(messages[0]) + Encode(messages[1..])
  }

  /** Reads n messages, one after the other. */
  function Decode(n: nat, input: Bytes): (r: (seq<Message>, Bytes))
    ensures |r.0| <= n
  {
    if n == 0 then ([], input)
    else
      match Parse(input)
      case Parsed(m, rest) => var (more, left) := Decode(n - 1, rest); ([m] + more, left)
      case _ => ([], input)
  }

  /** What is left to read begins with the first message's frame. */
  lemma FirstFrame(messages: seq<Message>, tail: Bytes)
    requires messages != [] && forall m :: m in messages ==> Fits(m)
    ensures Encode(messages) + tail == Frame(messages[0]) + (Encode(messages[1..]) + tail)
  {
    assert Encode(messages) == Frame(messages[0]) + Encode(messages[1..]);
  }

  lemma DecodeFirst(m: Message, n: nat, more: Bytes)
    requires Fits(m)
    ensures Decode(n + 1, Frame(m) + more) == ([m] + Decode(n, more).0, Decode(n, more).1)
  {
    ParseOfFrame(m, more);
  }

  lemma {:induction false} DecodeOfEncode(messages: seq<Message>, tail: Bytes)
    requires forall m :: m in messages ==> Fits(m)
    ensures Decode(|messages|, Encode(messages) + tail) == (messages, tail)
  {
    if messages == [] {
      assert [] + tail == tail;
    } else {
      var rest := messages[1..];
      DecodeOfEncode(rest, tail);
      FirstFrame(messages, tail);
      DecodeMore(messages[0], rest, Encode(rest) + tail, tail, Encode(messages) + tail);
      assert messages == [messages[0]] + rest;
    }
  }

  lemma DecodeMore(m: Message, rest: seq<Message>, more: Bytes, tail: Bytes, input: Bytes)
    requires Fits(m) && Decode(|rest|, more) == (rest, tail) && input == Frame(m) + more
    ensures Decode(|rest| + 1, input) == ([m] + rest, tail)
  {
    DecodeFirst(m, |rest|, more);
  }

  /** Different sequences of messages never look the same on the wire. */
  lemma {:induction false} EncodeIsInjective(a: seq<Message>, b: seq<Message>)
    requires (forall m :: m in a ==> Fits(m)) && (forall m :: m in b ==> Fits(m))
    requires Encode(a) == Encode(b)
    ensures a == b
  {
    if a != [] && b != [] {
      ParseOfFrame(a[0], Encode(a[1..]));
      ParseOfFrame(b[0], Encode(b[1..]));
      EncodeIsInjective(a[1..], b[1..]);
      assert a == [a[0]] + a[1..] && b == [b[0]] + b[1..];
    }
  }

  lemma {:induction false} EncodeConcat(a: seq<Message>, m: Message)
    requires (forall x :: x in a ==> Fits(x)) && Fits(m)
    ensures Encode(a + [m]) == Encode(a) + Frame(m)
  {
    if a == [] {
      assert [m][1..] == [];
    } else {
      assert (a + [m])[1..] == a[1..] + [m];
      EncodeConcat(a[1..], m);
    }
  }

  // ---- Status codes ----

  /** The byte a 32-bit status code is cut down to. */
  function StatusByte(status: int): byte { status % 256 }

  /** A response comes back with its status exactly when the status is one byte. */
  lemma StatusRoundTripExactly(status: int, value: Bytes, tail: Bytes)
    requires |value| <= MAX_SIZE
    ensures
      var p := Parse(Frame(Message(StatusByte(status), value)) + tail);
      && p.Parsed? && p.message.value == value && p.rest == tail
      && (p.message.code == status <==> 0 <= status < 256)
  {
    ParseOfFrame(Message(StatusByte(status), value), tail);
  }
}
