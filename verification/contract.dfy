/** Requests and responses: their values live in growing buffers that are reused from message to message,
    and the objects themselves are pooled. */
module Contract {
  import opened Wrappers
  import opened Wire

  /** A buffered writer over a connection that takes room more bytes, any number when None, and
      fails for good on the first byte too many. */
  datatype Sink = Sink(out: Bytes, room: Option<nat>, failed: bool)

  function Put(s: Sink, p: Bytes): Sink {
    if s.failed then s
    else match s.room
         case None => s.(out := s.out + p)
         case Some(n) =>
           if |p| <= n then Sink(s.out + p, Some(n - |p|), false) else Sink(s.out + p[..n], Some(0), true)
  }

  lemma PutTwice(s: Sink, a: Bytes, b: Bytes)
    ensures Put(Put(s, a), b) == Put(s, a + b)
  {
    if !s.failed {
      assert s.out + a + b == s.out + (a + b);
      if s.room.Some? {
        var n := s.room.value;
        if n < |a| {
          assert (a + b)[..n] == a[..n];
        } else {
          assert s.out + a + b[..if n - |a| < |b| then n - |a| else |b|]
              == s.out + (a + b)[..if n < |a + b| then n else |a + b|];
        }
      }
    }
  }

  class Writer {
    var sink: Sink

    constructor (room: Option<nat>)
      ensures sink == Sink([], room, false)
    {
      sink := Sink([], room, false);
    }

    method Write(p: Bytes) returns (ok: bool)
      modifies this
      ensures sink == Put(old(sink), p) && ok == !sink.failed
      ensures ok <==> !old(sink.failed) && (old(sink.room) == None || |p| <= old(sink.room.value))
      ensures ok ==> sink.out == old(sink.out) + p
      ensures !ok ==> sink.out == old(sink.out) + (if old(sink.failed) then [] else p[..old(sink.room.value)])
    {
      sink := Put(sink, p);
      ok := !sink.failed;
    }
  }

  /** A buffered reader: what is left of a stream that then ends or breaks. */
  class Reader {
    var input: Bytes

    constructor (input: Bytes)
      ensures this.input == input
    {
      this.input := input;
    }

    method ReadByte() returns (r: Option<byte>)
      modifies this
      ensures if old(input) == [] then r == None && input == []
              else r == Some(old(input)[0]) && input == old(input)[1..]
    {
      if input == [] {
        return None;
      }
      r, input := Some(input[0]), input[1..];
    }

    /** io.ReadFull into the first n elements of b. */
    method ReadFull(b: array<byte>, n: nat) returns (ok: bool)
      requires n <= b.Length
      modifies this, b
      ensures ok == (n <= |old(input)|)
      ensures var got := if ok then n else |old(input)|;
              b[..got] == old(input)[..got] && b[got..] == old(b[got..]) && input == old(input)[got..]
    {
      var got := if n <= |input| then n else |input|;
      forall i | 0 <= i < got {
        b[i] := input[i];
      }
      ok, input := n <= |input|, input[got..];
    }
  }

  /** appendUint32(sizeBuf[:0], n): the four bytes go into the message's own size buffer. */
  method StoreUint32(sizeBuf: array<byte>, n: nat)
    requires sizeBuf.Length == 4 && n < TWO_32
    modifies sizeBuf
    ensures sizeBuf[..] == Uint32Bytes(n)
  {
    sizeBuf[0] := n % 256;
    sizeBuf[1] := n / 256 % 256;
    sizeBuf[2] := n / 65536 % 256;
    sizeBuf[3] := n / 16777216 % 256;
  }

  /** A value too big is refused before anything is written. */
  method WriteBytes(bw: Writer, b: array<byte>, len: nat, sizeBuf: array<byte>) returns (ok: bool)
    requires len <= b.Length && sizeBuf.Length == 4 && b != sizeBuf
    modifies bw, sizeBuf
    ensures ok == (len <= MAX_SIZE && !bw.sink.failed)
    ensures bw.sink == if len > MAX_SIZE then old(bw.sink) else Put(old(bw.sink), Uint32Bytes(len) + b[..len])
  {
    if len > MAX_SIZE {
      return false;
    }
    StoreUint32(sizeBuf, len);
    PutTwice(bw.sink, Uint32Bytes(len), b[..len]);
    ok := bw.Write(sizeBuf[..]);
    if ok {
      ok := bw.Write(b[..len]);
    }
  }

  /** Reads a value into b when it is big enough, into a new buffer otherwise. What is read depends on the
      stream alone, never on what b holds or how big it is. */
  method ReadBytes(br: Reader, b: array<byte>, sizeBuf: array<byte>) returns (r: array<byte>, len: nat, ok: bool)
    requires sizeBuf.Length == 4 && b != sizeBuf
    modifies br, b, sizeBuf
    ensures len <= r.Length && r != sizeBuf && (r == b || fresh(r))
    ensures match ReadValue(old(br.input))
            case Value(value, rest) => ok && r[..len] == value && br.input == rest
            case ShortSize => !ok && r == b && len == 0 && br.input == []
            case TooBig(_, rest) => !ok && r == b && len == 0 && br.input == rest
            case ShortBody(size, got) => !ok && len == size && r[..|got|] == got && br.input == []
  {
    ghost var input := br.input;
    r, len := b, 0;
    ok := br.ReadFull(sizeBuf, 4);
    if !ok {
      return;
    }
    assert sizeBuf[..] == sizeBuf[..4] == input[..4];
    var size := ToUint32(sizeBuf[..]);
    if size > MAX_SIZE {
      ok := false;
      return;
    }
    if b.Length < size {
      r := new byte[size](_ => 0);
    }
    len := size;
    ok := br.ReadFull(r, size);
  }

  /** append(value, p...): in place when there is room, in a bigger copy otherwise. */
  method AppendBytes(b: array<byte>, len: nat, p: Bytes, spare: nat) returns (r: array<byte>)
    requires len <= b.Length
    modifies b
    ensures r == b || fresh(r)
    ensures len + |p| <= r.Length && r[..len + |p|] == old(b[..len]) + p
  {
    r := b;
    if b.Length < len + |p| {
      r := new byte[len + |p| + spare](i requires 0 <= i reads b => if i < b.Length then b[i] else 0);
    }
    forall i | 0 <= i < |p| {
      r[len + i] := p[i];
    }
    assert r[..len] == old(b[..len]);
  }

  /** What becomes of a stream when a message is written: one frame, or the code byte when the value is too big. */
  function PutCall(s: Sink, m: Message): Sink { Put(s, if Fits(m) then Frame(m) else [m.code]) }

  class Request {
    var buf: array<byte>
    var len: nat
    var code: byte
    const sizeBuf: array<byte>

    ghost predicate Valid()
      reads this
    {
      len <= buf.Length && sizeBuf.Length == 4 && buf != sizeBuf
    }

    function Value(): Bytes
      requires Valid()
      reads this, buf
    {
      buf[..len]
    }

    /** &Request{} */
    constructor ()
      ensures Valid() && code == 0 && len == 0 && fresh(buf) && fresh(sizeBuf)
    {
      buf, len, code := new byte[0], 0, 0;
      sizeBuf := new byte[4](_ => 0);
    }

    method Reset()
      requires Valid()
      modifies this`code, this`len
      ensures Valid() && code == 0 && Value() == []
    {
      code, len := 0, 0;
    }

    method SetName(code: byte)
      requires Valid()
      modifies this`code
      ensures Valid() && this.code == code && Value() == old(Value())
    {
      this.code := code;
    }

    method Append(p: Bytes, spare: nat)
      requires Valid()
      modifies this`buf, this`len, buf
      ensures Valid() && code == old(code) && Value() == old(Value()) + p && (buf == old(buf) || fresh(buf))
    {
      buf := AppendBytes(buf, len, p, spare);
      len := len + |p|;
    }

    /** A request that fits is put as one frame; one that does not has its code byte out already when it fails. */
    method WriteRequest(bw: Writer) returns (ok: bool)
      requires Valid()
      modifies bw, sizeBuf
      ensures Valid() && Value() == old(Value())
      ensures ok == (Fits(Message(code, Value())) && !bw.sink.failed)
      ensures bw.sink == PutCall(old(bw.sink), Message(code, Value()))
      ensures bw.sink == Put(old(bw.sink), if len > 1048576 then [code] else [code] + Uint32Bytes(len) + Value())
    {
      ok := bw.Write([code]);
      ghost var start := old(bw.sink);
      PutTwice(start, [code], Uint32Bytes(if len < TWO_32 then len else 0) + Value());
      assert Fits(Message(code, Value())) ==> Frame(Message(code, Value())) == [code] + (Uint32Bytes(len) + Value());
      if ok {
        ok := WriteBytes(bw, buf, len, sizeBuf);
      }
    }

    /** Reads one request over whatever was in the buffer. */
    method ReadRequest(br: Reader) returns (ok: bool)
      requires Valid()
      modifies this`buf, this`len, this`code, buf, sizeBuf, br
      ensures Valid() && (buf == old(buf) || fresh(buf))
      ensures match Parse(old(br.input))
              case Parsed(m, rest) => ok && Message(code, Value()) == m && br.input == rest
              case NoCode => !ok && code == old(code) && len == old(len) && br.input == []
              case BadValue(c, why) =>
                && !ok && code == c
                && (why.ShortBody? ==> len == why.size && buf[..|why.got|] == why.got && br.input == [])
                && (!why.ShortBody? ==> Value() == [] && br.input == if why.TooBig? then why.rest else [])
    {
      var rc := br.ReadByte();
      if rc.None? {
        return false;
      }
      code := rc.value;
      buf, len, ok := ReadBytes(br, buf, sizeBuf);
    }
  }

  /** The status codes the SDK itself uses. */
  const UNKNOWN: int := 0
  const OK: int := 1
  const NETWORK_ERROR: int := 7

  class Response {
    var buf: array<byte>
    var len: nat
    var statusCode: int
    const sizeBuf: array<byte>

    ghost predicate Valid()
      reads this
    {
      len <= buf.Length && sizeBuf.Length == 4 && buf != sizeBuf
    }

    function Value(): Bytes
      requires Valid()
      reads this, buf
    {
      buf[..len]
    }

    /** &Response{}: the zero status is UNKNOWN. */
    constructor ()
      ensures Valid() && statusCode == UNKNOWN && len == 0 && fresh(buf) && fresh(sizeBuf)
    {
      buf, len, statusCode := new byte[0], 0, UNKNOWN;
      sizeBuf := new byte[4](_ => 0);
    }

    /** A response put back in the pool has the status OK, not UNKNOWN. */
    method Reset()
      requires Valid()
      modifies this`statusCode, this`len
      ensures Valid() && statusCode == OK && Value() == []
    {
      statusCode, len := OK, 0;
    }

    method SetStatusCode(code: int)
      requires Valid()
      modifies this`statusCode
      ensures Valid() && statusCode == code && Value() == old(Value())
    {
      statusCode := code;
    }

    method Append(p: Bytes, spare: nat)
      requires Valid()
      modifies this`buf, this`len, buf
      ensures Valid() && statusCode == old(statusCode) && Value() == old(Value()) + p && (buf == old(buf) || fresh(buf))
    {
      buf := AppendBytes(buf, len, p, spare);
      len := len + |p|;
    }

    method WriteResponse(bw: Writer) returns (ok: bool)
      requires Valid()
      modifies bw, sizeBuf
      ensures Valid() && Value() == old(Value())
      ensures var m := Message(StatusByte(statusCode), Value());
              ok == (Fits(m) && !bw.sink.failed) && bw.sink == PutCall(old(bw.sink), m)
      ensures var status := StatusByte(statusCode);
              bw.sink == Put(old(bw.sink), if len > 1048576 then [status] else [status] + Uint32Bytes(len) + Value())
    {
      var status := StatusByte(statusCode);
      ok := bw.Write([status]);
      ghost var m := Message(status, Value());
      PutTwice(old(bw.sink), [status], Uint32Bytes(if len < TWO_32 then len else 0) + Value());
      assert Fits(m) ==> Frame(m) == [status] + (Uint32Bytes(len) + Value());
      if ok {
        ok := WriteBytes(bw, buf, len, sizeBuf);
      }
    }

    method ReadResponse(br: Reader) returns (ok: bool)
      requires Valid()
      modifies this`buf, this`len, this`statusCode, buf, sizeBuf, br
      ensures Valid() && (buf == old(buf) || fresh(buf))
      ensures match Parse(old(br.input))
              case Parsed(m, rest) => ok && Message(m.code, Value()) == m && statusCode == m.code && br.input == rest
              case NoCode => !ok && statusCode == old(statusCode) && len == old(len) && br.input == []
              case BadValue(c, why) =>
                && !ok && statusCode == c
                && (why.ShortBody? ==> len == why.size && buf[..|why.got|] == why.got && br.input == [])
                && (!why.ShortBody? ==> Value() == [] && br.input == if why.TooBig? then why.rest else [])
    {
      var sc := br.ReadByte();
      if sc.None? {
        return false;
      }
      statusCode := sc.value;
      buf, len, ok := ReadBytes(br, buf, sizeBuf);
    }
  }

  /** sync.Pool of requests. owner says for every pooled request, and for both its buffers, whose they are. */
  class RequestPool {
    var items: set<Request>
    ghost var owner: map<object, Request>

    /** What the pool may change: itself and the requests in it with their buffers. */
    ghost function Repr(): set<object>
      reads this
    {
      {this} + owner.Keys
    }

    /** Every pooled request is blank, and no two share a buffer. */
    ghost predicate Valid()
      reads this, items
    {
      && this !in owner
      && forall r :: r in items ==>
           && r.Valid() && r.code == 0 && r.len == 0
           && r in owner && r.buf in owner && r.sizeBuf in owner
           && owner[r] == r && owner[r.buf] == r && owner[r.sizeBuf] == r
    }

    constructor ()
      ensures Valid() && Repr() == {this}
    {
      items, owner := {}, map[];
    }

    /** AcquireRequest: any pooled request, or a new one. Either way it is blank, and all its own. */
    method Acquire() returns (r: Request)
      requires Valid()
      modifies this
      ensures Valid() && r.Valid() && r.code == 0 && r.Value() == []
      ensures {r, r.buf, r.sizeBuf} !! Repr() && Repr() <= old(Repr())
      ensures || (r in old(Repr()) && r.buf in old(Repr()) && r.sizeBuf in old(Repr()))
              || (fresh(r) && fresh(r.buf) && fresh(r.sizeBuf))
    {
      var reuse: bool := *;
      if items != {} && reuse {
        r :| r in items;
        items := items - {r};
        owner := owner - {r, r.buf, r.sizeBuf};
      } else {
        r := new Request();
      }
    }

    /** ReleaseRequest: the request is reset and goes back in the pool. */
    method Release(r: Request)
      requires Valid() && r.Valid() && {r, r.buf, r.sizeBuf} !! Repr()
      modifies this, r`code, r`len
      ensures Valid() && Repr() == old(Repr()) + {r, r.buf, r.sizeBuf}
    {
      r.Reset();
      items := items + {r};
      owner := owner[r := r][r.buf := r][r.sizeBuf := r];
    }
  }

  /** The first part of doUnary: a request acquired, named and filled. Nobody else has it or its buffers. */
  method Prepare(pool: RequestPool, code: byte, raw: Bytes, spare: nat) returns (req: Request)
    requires pool.Valid()
    modifies pool.Repr()
    ensures pool.Valid() && pool.Repr() <= old(pool.Repr())
    ensures req.Valid() && Message(req.code, req.Value()) == Message(code, raw)
    ensures {req, req.buf, req.sizeBuf} !! pool.Repr()
    ensures forall o :: o in {req, req.buf, req.sizeBuf} ==> o in old(pool.Repr()) || fresh(o)
  {
    req := pool.Acquire();
    req.SetName(code);
    req.Append(raw, spare);
    assert [] + raw == raw;
  }

  /** A whole call on its own: the transport gets its frame, whatever calls came before. */
  method Send(pool: RequestPool, code: byte, raw: Bytes, spare: nat, bw: Writer) returns (ok: bool)
    requires pool.Valid() && bw !in pool.Repr()
    modifies pool.Repr(), bw
    ensures pool.Valid() && fresh(pool.Repr() - old(pool.Repr()))
    ensures ok == (Fits(Message(code, raw)) && !bw.sink.failed)
    ensures bw.sink == PutCall(old(bw.sink), Message(code, raw))
  {
    var req := Prepare(pool, code, raw, spare);
    ok := req.WriteRequest(bw);
    pool.Release(req);
  }

  /** The points at which a call touches what calls share: it acquires and fills its request, has it written, and
      releases it. */
  datatype Use = Opens(id: nat, message: Message) | Writes(id: nat) | Closes(id: nat)

  /** open has the calls between acquiring and releasing, each with what it filled in. */
  predicate Legal(uses: seq<Use>, open: map<nat, Message>) {
    uses == [] ||
    match uses[0]
    case Opens(id, m) => id !in open && Legal(uses[1..], open[id := m])
    case Writes(id) => id in open && Legal(uses[1..], open)
    case Closes(id) => id in open && Legal(uses[1..], open - {id})
  }

  /** What the calls write, if each writes what it filled in itself. */
  function Written(uses: seq<Use>, open: map<nat, Message>, s: Sink): Sink
    requires Legal(uses, open)
  {
    if uses == [] then s
    else match uses[0]
         case Opens(id, m) => Written(uses[1..], open[id := m], s)
         case Writes(id) => Written(uses[1..], open, PutCall(s, open[id]))
         case Closes(id) => Written(uses[1..], open - {id}, s)
  }

  /** A call that has the connection to itself between its own points writes what it filled in. */
  lemma OneCallWritesItsFrame(id: nat, m: Message, s: Sink)
    requires Fits(m)
    ensures Legal([Opens(id, m), Writes(id), Closes(id)], map[])
    ensures Written([Opens(id, m), Writes(id), Closes(id)], map[], s) == Put(s, Frame(m))
  {
    var uses, open := [Opens(id, m), Writes(id), Closes(id)], map[id := m];
    assert uses[1..] == [Writes(id), Closes(id)] && uses[1..][1..] == [Closes(id)] && [Closes(id)][1..] == [];
    assert Legal([], open - {id}) && Legal([Closes(id)], open) && Legal([Writes(id), Closes(id)], open);
    assert map[][id := m] == open;
    assert Written([Closes(id)], open, PutCall(s, m)) == Written([], open - {id}, PutCall(s, m));
    assert Written(uses[1..], open, s) == Written([Closes(id)], open, PutCall(s, m));
  }

  /** Request r and its buffers are call id's, and it holds what the call filled in. */
  ghost predicate Keeps(r: Request, m: Message, mine: map<object, nat>, id: nat)
    reads r, r.buf
  {
    && Owns(mine, id, r) && Owns(mine, id, r.buf) && Owns(mine, id, r.sizeBuf)
    && r.Valid() && Message(r.code, r.Value()) == m
  }

  predicate Owns(mine: map<object, nat>, id: nat, o: object) { o in mine && mine[o] == id }

  lemma StillKeeps(r: Request, m: Message, mine: map<object, nat>, mine': map<object, nat>, id: nat)
    requires Keeps(r, m, mine, id) && forall o :: Owns(mine, id, o) ==> Owns(mine', id, o)
    ensures Keeps(r, m, mine', id)
  {
  }

  /** mine says for every request that calls hold, and for its buffers, which call it is of. */
  ghost predicate AllKeep(held: map<nat, Request>, open: map<nat, Message>, mine: map<object, nat>)
    reads mine.Keys
  {
    && held.Keys == open.Keys
    && forall id :: id in held ==>
         held[id] in mine && held[id].buf in mine && held[id].sizeBuf in mine && Keeps(held[id], open[id], mine, id)
  }

  lemma Joined(held: map<nat, Request>, open: map<nat, Message>, mine: map<object, nat>, id: nat, r: Request,
               m: Message)
    returns (mine': map<object, nat>)
    requires AllKeep(held, open, mine) && id !in held && {r, r.buf, r.sizeBuf} !! mine.Keys
    requires r.Valid() && Message(r.code, r.Value()) == m
    ensures AllKeep(held[id := r], open[id := m], mine') && mine'.Keys == mine.Keys + {r, r.buf, r.sizeBuf}
  {
    var foot: set<object> := {r, r.buf, r.sizeBuf};
    mine' := map o | o in mine.Keys + foot :: if o in foot then id else mine[o];
    forall i | i in held ensures Keeps(held[i], open[i], mine', i) {
      StillKeeps(held[i], open[i], mine, mine', i);
    }
  }

  lemma Left(held: map<nat, Request>, open: map<nat, Message>, mine: map<object, nat>, id: nat)
    returns (mine': map<object, nat>)
    requires AllKeep(held, open, mine) && id in held
    ensures AllKeep(held - {id}, open - {id}, mine') && mine'.Keys <= mine.Keys
    ensures {held[id], held[id].buf, held[id].sizeBuf} !! mine'.Keys
    ensures {held[id], held[id].buf, held[id].sizeBuf} <= mine.Keys && held[id].Valid()
  {
    assert Keeps(held[id], open[id], mine, id);
    mine' := map o | o in mine && mine[o] != id :: mine[o];
    forall i | i in held && i != id ensures Keeps(held[i], open[i], mine', i) {
      StillKeeps(held[i], open[i], mine, mine', i);
    }
  }

  /** The pool has nothing of what the calls under way hold, and each of those has a request of its own. */
  ghost predicate Apart(pool: RequestPool, held: map<nat, Request>, open: map<nat, Message>, mine: map<object, nat>)
    reads pool, pool.items, mine.Keys
  {
    pool.Valid() && mine.Keys !! pool.Repr() && AllKeep(held, open, mine)
  }

  method OpenCall(pool: RequestPool, held: map<nat, Request>, ghost open: map<nat, Message>,
                  ghost mine: map<object, nat>, id: nat, m: Message, spare: nat)
    returns (held': map<nat, Request>, ghost mine': map<object, nat>)
    requires Apart(pool, held, open, mine) && id !in open
    modifies pool.Repr()
    ensures Apart(pool, held', open[id := m], mine') && pool.Repr() <= old(pool.Repr())
    ensures forall o :: o in mine' ==> o in mine || o in old(pool.Repr()) || fresh(o)
  {
    var req := Prepare(pool, m.code, m.value, spare);
    held' := held[id := req];
    mine' := Joined(held, open, mine, id, req, m);
  }

  method WriteCall(pool: RequestPool, held: map<nat, Request>, ghost open: map<nat, Message>,
                   ghost mine: map<object, nat>, id: nat, bw: Writer)
    requires Apart(pool, held, open, mine) && id in open && bw !in pool.Repr() && bw !in mine
    modifies mine.Keys, bw
    ensures Apart(pool, held, open, mine) && bw.sink == PutCall(old(bw.sink), open[id])
  {
    var _ := held[id].WriteRequest(bw);
  }

  method CloseCall(pool: RequestPool, held: map<nat, Request>, ghost open: map<nat, Message>,
                   ghost mine: map<object, nat>, id: nat)
    returns (held': map<nat, Request>, ghost mine': map<object, nat>)
    requires Apart(pool, held, open, mine) && id in open
    modifies pool, mine.Keys
    ensures Apart(pool, held', open - {id}, mine')
    ensures pool.Repr() <= old(pool.Repr()) + mine.Keys && mine'.Keys <= mine.Keys
  {
    held' := held - {id};
    mine' := Left(held, open, mine, id);
    pool.Release(held[id]);
  }

  /** However calls overlap on one pool and one connection, each writes exactly the frame of what it filled in. */
  method Overlap(pool: RequestPool, bw: Writer, uses: seq<Use>, spare: nat)
    requires pool.Valid() && bw !in pool.Repr() && Legal(uses, map[])
    modifies pool.Repr(), bw
    ensures bw.sink == Written(uses, map[], old(bw.sink))
  {
    var held: map<nat, Request> := map[];
    ghost var open: map<nat, Message>, mine: map<object, nat> := map[], map[];
    ghost var ours := old(pool.Repr());
    for i := 0 to |uses|
      invariant Apart(pool, held, open, mine) && bw !in pool.Repr() && bw !in mine
      invariant forall o :: o in pool.Repr() || o in mine ==> o in ours || fresh(o)
      invariant Legal(uses[i..], open) && Written(uses[i..], open, bw.sink) == Written(uses, map[], old(bw.sink))
    {
      assert uses[i..][1..] == uses[i + 1..];
      match uses[i]
      case Opens(id, m) =>
        held, mine := OpenCall(pool, held, open, mine, id, m, spare);
        open := open[id := m];
      case Writes(id) =>
        WriteCall(pool, held, open, mine, id, bw);
      case Closes(id) =>
        held, mine := CloseCall(pool, held, open, mine, id);
        open := open - {id};
    }
  }

  /** Any number of calls through one pool. */
  method SendAll(pool: RequestPool, messages: seq<Message>, bw: Writer)
    requires pool.Valid() && bw !in pool.Repr() && bw.sink == Sink([], None, false)
    requires forall m :: m in messages ==> Fits(m)
    modifies pool.Repr(), bw
    ensures pool.Valid()
    ensures bw.sink == Sink(Encode(messages), None, false)
  {
    for i := 0 to |messages|
      invariant pool.Valid() && fresh(pool.Repr() - old(pool.Repr()))
      invariant bw.sink == Sink(Encode(messages[..i]), None, false)
    {
      assert messages[..i + 1] == messages[..i] + [messages[i]];
      EncodeConcat(messages[..i], messages[i]);
      var _ := Send(pool, messages[i].code, messages[i].value, i, bw);
    }
    assert messages[..|messages|] == messages;
  }

  /** A reader with one reused request gets back exactly the messages that were written, then the rest of the stream. */
  method ReceiveAll(req: Request, br: Reader, ghost messages: seq<Message>, ghost tail: Bytes, n: nat)
    returns (got: seq<Message>)
    requires req.Valid() && n == |messages| && forall m :: m in messages ==> Fits(m)
    requires br.input == Encode(messages) + tail
    modifies req, req.buf, req.sizeBuf, br
    ensures got == messages && br.input == tail
  {
    got := [];
    for i := 0 to n
      invariant req.Valid() && (req.buf == old(req.buf) || fresh(req.buf))
      invariant got == messages[..i] && br.input == Encode(messages[i..]) + tail
    {
      FirstFrame(messages[i..], tail);
      assert messages[i..][1..] == messages[i + 1..];
      ParseOfFrame(messages[i], Encode(messages[i + 1..]) + tail);
      var _ := req.ReadRequest(br);
      got := got + [Message(req.code, req.Value())];
    }
    assert [] + tail == tail;
  }

  // ---- Responses ----

  /** What a server answers. */
  datatype Answer = Answer(status: int, value: Bytes)

  function OnWire(a: Answer): Message { Message(StatusByte(a.status), a.value) }

  function AllOnWire(answers: seq<Answer>): seq<Message> {
    seq(|answers|, i requires 0 <= i < |answers| => OnWire(answers[i]))
  }

  /** A server writes its answers with one reused response. */
  method SendAllResponses(resp: Response, answers: seq<Answer>, spare: nat, bw: Writer)
    requires resp.Valid() && bw.sink == Sink([], None, false)
    requires forall a :: a in answers ==> |a.value| <= MAX_SIZE
    modifies resp, resp.buf, resp.sizeBuf, bw
    ensures bw.sink == Sink(Encode(AllOnWire(answers)), None, false)
  {
    for i := 0 to |answers|
      invariant resp.Valid() && (resp.buf == old(resp.buf) || fresh(resp.buf))
      invariant bw.sink == Sink(Encode(AllOnWire(answers[..i])), None, false)
    {
      assert AllOnWire(answers[..i + 1]) == AllOnWire(answers[..i]) + [OnWire(answers[i])];
      EncodeConcat(AllOnWire(answers[..i]), OnWire(answers[i]));
      resp.Reset();
      resp.SetStatusCode(answers[i].status);
      resp.Append(answers[i].value, spare);
      assert [] + answers[i].value == answers[i].value;
      var _ := resp.WriteResponse(bw);
    }
    assert answers[..|answers|] == answers;
  }

  method ReceiveResponse(resp: Response, br: Reader, ghost m: Message, ghost more: Bytes) returns (got: Answer)
    requires resp.Valid() && Fits(m) && br.input == Frame(m) + more
    modifies resp, resp.buf, resp.sizeBuf, br
    ensures resp.Valid() && (resp.buf == old(resp.buf) || fresh(resp.buf))
    ensures got == Answer(m.code, m.value) && br.input == more
  {
    ParseOfFrame(m, more);
    var _ := resp.ReadResponse(br);
    got := Answer(resp.statusCode, resp.Value());
  }

  /** A reader with one reused response gets back every value, and every status cut down to a byte; so what was answered
      comes back exactly when every status is a byte. */
  method ReceiveAllResponses(resp: Response, br: Reader, ghost answers: seq<Answer>, ghost tail: Bytes, n: nat)
    returns (got: seq<Answer>)
    requires resp.Valid() && n == |answers| && forall a :: a in answers ==> |a.value| <= MAX_SIZE
    requires br.input == Encode(AllOnWire(answers)) + tail
    modifies resp, resp.buf, resp.sizeBuf, br
    ensures |got| == |answers| && br.input == tail
    ensures forall i :: 0 <= i < n ==> got[i] == Answer(answers[i].status % 256, answers[i].value)
    ensures got == answers <==> forall a :: a in answers ==> 0 <= a.status < 256
  {
    got := [];
    ghost var messages := AllOnWire(answers);
    for i := 0 to n
      invariant resp.Valid() && (resp.buf == old(resp.buf) || fresh(resp.buf))
      invariant |got| == i && forall k :: 0 <= k < i ==> got[k] == Answer(answers[k].status % 256, answers[k].value)
      invariant br.input == Encode(messages[i..]) + tail
    {
      FirstFrame(messages[i..], tail);
      assert messages[i..][1..] == messages[i + 1..];
      var answer := ReceiveResponse(resp, br, messages[i], Encode(messages[i + 1..]) + tail);
      got := got + [answer];
    }
    assert [] + tail == tail;
    BytesExactly(answers, got);
  }

  lemma BytesExactly(answers: seq<Answer>, got: seq<Answer>)
    requires |got| == |answers|
    requires forall i :: 0 <= i < |got| ==> got[i] == Answer(answers[i].status % 256, answers[i].value)
    ensures got == answers <==> forall a :: a in answers ==> 0 <= a.status < 256
  {
    if got == answers {
      forall a | a in answers ensures 0 <= a.status < 256 {
        var i :| 0 <= i < |answers| && answers[i] == a;
        assert got[i] == a;
      }
    }
  }
}
