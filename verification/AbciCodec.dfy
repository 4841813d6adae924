/**
 The length-delimited framing of ABCI messages (abci/src/codec.rs) on values:
 what reading and sending amount to, whatever way the stream cuts the bytes.
 `AbciCodecImpl.dfy` has the codec with its buffers.
 */
module AbciCodec {
  import opened Common

  const MAX_VARINT_LENGTH: nat := 16

  datatype IoError = IoError(code: nat)

  /** The message encoding, which is the protobuf library's. */
  datatype Schema<!M> = Schema(encode: M -> Option<seq<Byte>>, decode: seq<Byte> -> Option<M>)

  // ---- Length prefixes -----------------------------------------------------

  function EncodeVarint(v: nat): (r: seq<Byte>)
    ensures r != []
  {
    if v < 0x80 then [v] else [v % 0x80 + 0x80] + EncodeVarint(v / 0x80)
  }

  /** Decodes a varint of which `k` bytes have been read; the tenth byte has room for one bit. */
  function DecodeVarintFrom(s: seq<Byte>, k: nat): (r: Option<(nat, seq<Byte>)>)
    ensures r.Some? ==> |r.value.1| < |s|
    decreases |s|
  {
    if s == [] || k >= 10 then None
    else if s[0] < 0x80 then
      if k == 9 && s[0] >= 2 then None else Some((s[0], s[1..]))
    else
      match DecodeVarintFrom(s[1..], k + 1)
      case None => None
      case Some((v, rest)) => Some((s[0] - 0x80 + 0x80 * v, rest))
  }

  function DecodeVarint(s: seq<Byte>): Option<(nat, seq<Byte>)> {
    DecodeVarintFrom(s, 0)
  }

  /** The values that fit when `k` bytes have been read, 64 bits in all. */
  function Room(k: nat): nat
    requires k <= 9
    decreases 9 - k
  {
    if k == 9 then 2 else 0x80 * Room(k + 1)
  }

  lemma RoomForU64()
    ensures Room(0) == TWO_64
  {
    assert Room(8) == 0x100 && Room(7) == 0x8000;
    assert Room(6) == 0x40_0000 && Room(5) == 0x2000_0000;
    assert Room(4) == 0x10_0000_0000 && Room(3) == 0x800_0000_0000;
    assert Room(2) == 0x4_0000_0000_0000 && Room(1) == 0x200_0000_0000_0000;
  }

  lemma {:induction false} VarintRoundTripFrom(v: nat, k: nat, more: seq<Byte>)
    requires k <= 9 && v < Room(k)
    ensures DecodeVarintFrom(EncodeVarint(v) + more, k) == Some((v, more))
    decreases v
  {
    var s := EncodeVarint(v) + more;
    if v < 0x80 {
      assert s[1..] == more;
    } else {
      assert k < 9;
      assert v / 0x80 < Room(k + 1);
      VarintRoundTripFrom(v / 0x80, k + 1, more);
      assert s[1..] == EncodeVarint(v / 0x80) + more;
      assert v == v % 0x80 + 0x80 * (v / 0x80);
    }
  }

  /** A length of 64 bits is decoded from its encoding, and what follows is left. */
  lemma VarintRoundTrip(v: nat, more: seq<Byte>)
    requires v < TWO_64
    ensures DecodeVarint(EncodeVarint(v) + more) == Some((v, more))
  {
    RoomForU64();
    VarintRoundTripFrom(v, 0, more);
  }

  lemma {:induction false} VarintExtends(s: seq<Byte>, k: nat, more: seq<Byte>)
    requires DecodeVarintFrom(s, k).Some?
    ensures var (v, rest) := DecodeVarintFrom(s, k).value;
            DecodeVarintFrom(s + more, k) == Some((v, rest + more))
    decreases |s|
  {
    assert (s + more)[1..] == s[1..] + more;
    if s[0] >= 0x80 {
      VarintExtends(s[1..], k + 1, more);
    }
  }

  /** A length that is not one after ten bytes never becomes one. */
  lemma {:induction false} VarintStaysBad(s: seq<Byte>, k: nat, more: seq<Byte>)
    requires DecodeVarintFrom(s, k).None? && |s| + k >= 10
    ensures DecodeVarintFrom(s + more, k).None?
    decreases |s|
  {
    if s != [] && k < 10 && s[0] >= 0x80 {
      assert (s + more)[1..] == s[1..] + more;
      VarintStaysBad(s[1..], k + 1, more);
    }
  }

  /** Less than a whole length is none. */
  lemma {:induction false} VarintCutShort(v: nat, k: nat, n: nat)
    requires n < |EncodeVarint(v)|
    ensures DecodeVarintFrom(EncodeVarint(v)[..n], k).None?
    decreases v
  {
    if v >= 0x80 && n > 0 && k < 10 {
      var s := EncodeVarint(v)[..n];
      assert s[1..] == EncodeVarint(v / 0x80)[..n - 1];
      VarintCutShort(v / 0x80, k + 1, n - 1);
    }
  }

  lemma {:induction false} VarintLength(v: nat, k: nat)
    requires k <= 9 && v < Room(k)
    ensures |EncodeVarint(v)| <= 10 - k
    decreases v
  {
    if v >= 0x80 {
      assert v / 0x80 < Room(k + 1);
      VarintLength(v / 0x80, k + 1);
    }
  }

  // ---- Frames --------------------------------------------------------------

  /** A message's bytes behind their length. */
  function Frame(bytes: seq<Byte>): (r: seq<Byte>)
    ensures r != []
  {
    EncodeVarint(|bytes|) + bytes
  }

  datatype Decoded<M> = NotYet | Message(message: M, rest: seq<Byte>) | Undecodable(rest: seq<Byte>) | BadLength

  /** What the bytes read so far start with. */
  function DecodeFrame<M>(schema: Schema<M>, src: seq<Byte>): (r: Decoded<M>)
    ensures r.Message? || r.Undecodable? ==> |r.rest| < |src|
  {
    match DecodeVarint(src)
    case None => if |src| <= MAX_VARINT_LENGTH then NotYet else BadLength
    case Some((len, tmp)) =>
      if |tmp| < len then NotYet
      else
        match schema.decode(tmp[..len])
        case None => Undecodable(tmp[len..])
        case Some(m) => Message(m, tmp[len..])
  }

  /** More bytes never change what has been decoded. */
  lemma DecodeExtends<M>(schema: Schema<M>, src: seq<Byte>, more: seq<Byte>)
    requires !DecodeFrame(schema, src).NotYet?
    ensures DecodeFrame(schema, src + more) ==
            match DecodeFrame(schema, src)
            case Message(m, rest) => Message(m, rest + more)
            case Undecodable(rest) => Undecodable(rest + more)
            case BadLength => BadLength
  {
    var v := DecodeVarint(src);
    if v.None? {
      VarintStaysBad(src, 0, more);
    } else {
      var (len, tmp) := v.value;
      VarintExtends(src, 0, more);
      assert (tmp + more)[..len] == tmp[..len];
      assert (tmp + more)[len..] == tmp[len..] + more;
    }
  }

  /** A whole frame is decoded to its message. */
  lemma FrameDecodes<M>(schema: Schema<M>, bytes: seq<Byte>, m: M, more: seq<Byte>)
    requires |bytes| < TWO_64 && schema.decode(bytes) == Some(m)
    ensures DecodeFrame(schema, Frame(bytes) + more) == Message(m, more)
  {
    VarintRoundTrip(|bytes|, bytes + more);
    assert Frame(bytes) + more == EncodeVarint(|bytes|) + (bytes + more);
    assert (bytes + more)[..|bytes|] == bytes;
    assert (bytes + more)[|bytes|..] == more;
  }

  /** Nothing is decoded before the frame is whole. */
  lemma CutFrameWaits<M>(schema: Schema<M>, bytes: seq<Byte>, n: nat)
    requires |bytes| < TWO_64 && n < |Frame(bytes)|
    ensures DecodeFrame(schema, Frame(bytes)[..n]) == NotYet
  {
    var prefix := EncodeVarint(|bytes|);
    RoomForU64();
    VarintLength(|bytes|, 0);
    if n < |prefix| {
      assert Frame(bytes)[..n] == prefix[..n];
      VarintCutShort(|bytes|, 0, n);
    } else {
      assert Frame(bytes)[..n] == prefix + bytes[..n - |prefix|];
      VarintRoundTrip(|bytes|, bytes[..n - |prefix|]);
    }
  }

  // ---- Reading -------------------------------------------------------------

  /** What the stream has in store for its reader; after the last event it has ended. */
  datatype ReadEvent = Data(bytes: seq<Byte>) | Broken(error: IoError)

  /** One read into a window of the given size. */
  function ReadOnce(size: nat, incoming: seq<ReadEvent>): (Result<seq<Byte>, IoError>, seq<ReadEvent>) {
    if incoming == [] then (Ok([]), [])
    else
      match incoming[0]
      case Broken(e) => (Err(e), incoming[1..])
      case Data(bytes) =>
        if |bytes| <= size then (Ok(bytes), incoming[1..])
        else (Ok(bytes[..size]), [Data(bytes[size..])] + incoming[1..])
  }

  /** All bytes that are still to come. */
  function Bytes(incoming: seq<ReadEvent>): seq<Byte> {
    if incoming == [] then []
    else (if incoming[0].Data? then incoming[0].bytes else []) + Bytes(incoming[1..])
  }

  /** A read takes bytes off the front of those to come. */
  lemma ReadTakes(size: nat, incoming: seq<ReadEvent>)
    ensures var (r, incoming') := ReadOnce(size, incoming);
            Bytes(incoming) == (if r.Ok? then r.value else []) + Bytes(incoming')
  {
    if incoming != [] && incoming[0].Data? && |incoming[0].bytes| > size {
      var bytes, later := incoming[0].bytes, incoming[1..];
      var incoming' := [Data(bytes[size..])] + later;
      assert incoming'[1..] == later;
      assert bytes == bytes[..size] + bytes[size..];
    }
  }

  datatype CodecError = Io(io: IoError) | Decode | Encode | WriteZero

  /** What iterating a codec gives. */
  datatype Item<M> = End | Received(message: M) | Failed(error: CodecError)

  /** The reader: its buffer and what is to come. */
  datatype Reader = Reader(buf: seq<Byte>, incoming: seq<ReadEvent>) {
    /** The bytes that have not been consumed. */
    function Pending(): seq<Byte> {
      buf + Bytes(incoming)
    }
  }

  /** The codec's `next`: decode what is in the buffer, or else read some more. */
  function Next<M>(schema: Schema<M>, size: nat, r: Reader): (Item<M>, Reader)
    decreases |Bytes(r.incoming)|
  {
    match DecodeFrame(schema, r.buf)
    case Message(m, rest) => (Received(m), r.(buf := rest))
    case Undecodable(rest) => (Failed(Decode), r.(buf := rest))
    case BadLength => (Failed(Decode), r)
    case NotYet =>
      var (got, incoming') := ReadOnce(size, r.incoming);
      ReadTakes(size, r.incoming);
      match got
      case Err(e) => (Failed(Io(e)), Reader(r.buf, incoming'))
      case Ok(bytes) =>
        if bytes == [] then (End, Reader(r.buf, incoming'))
        else Next(schema, size, Reader(r.buf + bytes, incoming'))
  }

  /** The stream delivers its bytes in pieces, none of them empty, and does not break. */
  ghost predicate Pieces(incoming: seq<ReadEvent>) {
    forall i :: 0 <= i < |incoming| ==> incoming[i].Data? && incoming[i].bytes != []
  }

  lemma ReadKeepsPieces(size: nat, incoming: seq<ReadEvent>)
    requires Pieces(incoming) && size > 0
    ensures var (r, incoming') := ReadOnce(size, incoming);
            && Pieces(incoming') && r.Ok? && (r.value == [] <==> incoming == [])
  {
  }

  /** What `next` gives for the bytes that are pending, however they arrive. */
  function Meaning<M>(d: Decoded<M>, pending: seq<Byte>): (Item<M>, seq<Byte>) {
    match d
    case Message(m, rest) => (Received(m), rest)
    case Undecodable(rest) => (Failed(Decode), rest)
    case BadLength => (Failed(Decode), pending)
    case NotYet => (End, pending)
  }

  /**
   Reading does not depend on the cuts: for any bytes at all, valid or not, the
   item and the bytes left are those of decoding everything at once.
   */
  lemma {:induction false} NextIsCutFree<M>(schema: Schema<M>, size: nat, r: Reader)
    requires Pieces(r.incoming) && size > 0
    ensures var (item, r') := Next(schema, size, r);
            && Pieces(r'.incoming)
            && (item, r'.Pending()) == Meaning(DecodeFrame(schema, r.Pending()), r.Pending())
    decreases |Bytes(r.incoming)|
  {
    var d := DecodeFrame(schema, r.buf);
    if d.NotYet? {
      var (got, incoming') := ReadOnce(size, r.incoming);
      ReadTakes(size, r.incoming);
      ReadKeepsPieces(size, r.incoming);
      if got.value == [] {
        assert r.Pending() == r.buf;
      } else {
        var r1 := Reader(r.buf + got.value, incoming');
        assert r1.Pending() == r.Pending();
        NextIsCutFree(schema, size, r1);
      }
    } else {
      DecodeExtends(schema, r.buf, Bytes(r.incoming));
    }
  }

  /** Whatever the stream does, a byte is only consumed as part of a whole frame at the front. */
  lemma {:induction false} NextConsumesWholeFrames<M>(schema: Schema<M>, size: nat, r: Reader)
    ensures var (item, r') := Next(schema, size, r);
            if item.Received? || (item == Failed(Decode) && r'.Pending() != r.Pending())
            then var d := DecodeFrame(schema, r.Pending());
                 (d.Message? || d.Undecodable?) && r'.Pending() == d.rest
                 && (item.Received? ==> d == Message(item.message, d.rest))
            else r'.Pending() == r.Pending()
    decreases |Bytes(r.incoming)|
  {
    if DecodeFrame(schema, r.buf).NotYet? {
      var (got, incoming') := ReadOnce(size, r.incoming);
      ReadTakes(size, r.incoming);
      if got.Ok? && got.value != [] {
        var r1 := Reader(r.buf + got.value, incoming');
        assert r1.Pending() == r.Pending();
        NextConsumesWholeFrames(schema, size, r1);
      }
    } else {
      DecodeExtends(schema, r.buf, Bytes(r.incoming));
    }
  }

  // ---- Message lists -------------------------------------------------------

  /** The messages can be encoded, and their encodings are read back. */
  ghost predicate Faithful<M>(schema: Schema<M>, messages: seq<M>) {
    forall i :: 0 <= i < |messages| ==> FaithfulFor(schema, messages[i])
  }

  ghost predicate FaithfulFor<M>(schema: Schema<M>, m: M) {
    var bytes := schema.encode(m);
    bytes.Some? && |bytes.value| < TWO_64 && schema.decode(bytes.value) == Some(m)
  }

  /** The frames of the messages that can be encoded, one after the other. */
  function Frames<M>(schema: Schema<M>, messages: seq<M>): seq<Byte> {
    if messages == [] then []
    else
      var bytes := schema.encode(messages[0]);
      (if bytes.Some? then Frame(bytes.value) else []) + Frames(schema, messages[1..])
  }

  /** The first `n` items of iterating a codec. */
  function Items<M>(schema: Schema<M>, size: nat, r: Reader, n: nat): seq<Item<M>>
    decreases n
  {
    if n == 0 then [] else
    var (item, r') := Next(schema, size, r);
    [item] + Items(schema, size, r', n - 1)
  }

  function Receiveds<M>(messages: seq<M>): seq<Item<M>> {
    seq(|messages|, i requires 0 <= i < |messages| => Received(messages[i]))
  }

  lemma FirstMessageArrives<M>(schema: Schema<M>, size: nat, r: Reader, m: M, more: seq<Byte>)
    requires Pieces(r.incoming) && size > 0 && FaithfulFor(schema, m)
    requires r.Pending() == Frame(schema.encode(m).value) + more
    ensures var (item, r') := Next(schema, size, r);
            item == Received(m) && Pieces(r'.incoming) && r'.Pending() == more
  {
    NextIsCutFree(schema, size, r);
    FrameDecodes(schema, schema.encode(m).value, m, more);
  }

  lemma ReceivedsOfFirst<M>(messages: seq<M>)
    requires messages != []
    ensures Receiveds(messages) == [Received(messages[0])] + Receiveds(messages[1..])
  {
  }

  lemma FramesOfFirst<M>(schema: Schema<M>, messages: seq<M>, tail: seq<Byte>)
    requires messages != [] && FaithfulFor(schema, messages[0])
    ensures Frames(schema, messages) + tail
         == Frame(schema.encode(messages[0]).value) + (Frames(schema, messages[1..]) + tail)
  {
  }

  /**
   However the frames of any messages are cut into pieces, iterating gives
   exactly those messages in order and then the end of the stream, also when
   part of a frame is left over.
   */
  lemma {:induction false} MessagesArriveInOrder<M>(
    schema: Schema<M>, size: nat, r: Reader, messages: seq<M>, tail: seq<Byte>)
    requires Pieces(r.incoming) && size > 0
    requires Faithful(schema, messages) && DecodeFrame(schema, tail).NotYet?
    requires r.Pending() == Frames(schema, messages) + tail
    ensures Items(schema, size, r, |messages| + 1) == Receiveds(messages) + [End]
    decreases |messages|
  {
    var (item, r') := Next(schema, size, r);
    if messages == [] {
      NextIsCutFree(schema, size, r);
      assert r.Pending() == tail;
      assert Items(schema, size, r', 0) == [];
    } else {
      assert FaithfulFor(schema, messages[0]);
      FramesOfFirst(schema, messages, tail);
      FirstMessageArrives(schema, size, r, messages[0], Frames(schema, messages[1..]) + tail);
      MessagesArriveInOrder(schema, size, r', messages[1..], tail);
      assert Items(schema, size, r, |messages| + 1) == [item] + Items(schema, size, r', |messages|);
      ReceivedsOfFirst(messages);
    }
  }

  // ---- Sending -------------------------------------------------------------

  /** How the stream takes bytes: how many at each write, and whether flushing works. */
  datatype Sink = Sink(accept: nat -> Result<nat, IoError>, flush: nat -> Option<IoError>)

  /** The writer: its buffer, what is on the stream, and the calls made on the stream. */
  datatype Writer = Writer(buf: seq<Byte>, sent: seq<Byte>, tick: nat)

  /** A stream takes no more bytes than it is offered. */
  function Accepted(sink: Sink, tick: nat, buf: seq<Byte>): Result<nat, IoError> {
    match sink.accept(tick)
    case Err(e) => Err(e)
    case Ok(n) => Ok(if n < |buf| then n else |buf|)
  }

  /** Writes until the buffer is empty, then flushes. */
  function Drain(sink: Sink, w: Writer): (Result<(), CodecError>, Writer)
    decreases |w.buf|
  {
    if w.buf == [] then
      (match sink.flush(w.tick) case None => Ok(()) case Some(e) => Err(Io(e)), w.(tick := w.tick + 1))
    else
      match Accepted(sink, w.tick, w.buf)
      case Err(e) => (Err(Io(e)), w.(tick := w.tick + 1))
      case Ok(n) =>
        if n == 0 then (Err(WriteZero), w.(tick := w.tick + 1))
        else Drain(sink, Writer(w.buf[n..], w.sent + w.buf[..n], w.tick + 1))
  }

  /** The codec's `send`. */
  function Send<M>(schema: Schema<M>, sink: Sink, w: Writer, m: M): (Result<(), CodecError>, Writer) {
    match schema.encode(m)
    case None => (Err(Encode), w)
    case Some(bytes) => Drain(sink, w.(buf := w.buf + Frame(bytes)))
  }

  /** Sending messages in turn, whether or not each succeeds. */
  function SendAll<M>(schema: Schema<M>, sink: Sink, w: Writer, messages: seq<M>): Writer
    decreases |messages|
  {
    if messages == [] then w
    else SendAll(schema, sink, Send(schema, sink, w, messages[0]).1, messages[1..])
  }

  lemma {:induction false} DrainConserves(sink: Sink, w: Writer)
    ensures var (r, w') := Drain(sink, w);
            && w'.sent + w'.buf == w.sent + w.buf
            && w.sent <= w'.sent
            && (r.Ok? ==> w'.buf == [])
    decreases |w.buf|
  {
    if w.buf != [] {
      var n := Accepted(sink, w.tick, w.buf);
      if n.Ok? && n.value > 0 {
        var w1 := Writer(w.buf[n.value..], w.sent + w.buf[..n.value], w.tick + 1);
        assert w1.sent + w1.buf == w.sent + w.buf;
        DrainConserves(sink, w1);
      }
    }
  }

  /** One send puts its frame behind all earlier bytes, and if it succeeds they are all on the stream. */
  lemma SendConserves<M>(schema: Schema<M>, sink: Sink, w: Writer, m: M)
    ensures var (r, w') := Send(schema, sink, w, m);
            && w'.sent + w'.buf == w.sent + w.buf + Frames(schema, [m])
            && w.sent <= w'.sent
            && (r.Ok? ==> w'.buf == [])
  {
    var bytes := schema.encode(m);
    assert [m][1..] == [];
    assert Frames(schema, [m]) == if bytes.Some? then Frame(bytes.value) else [];
    if bytes.Some? {
      var w1 := w.(buf := w.buf + Frame(bytes.value));
      DrainConserves(sink, w1);
      assert w.sent + w1.buf == w.sent + w.buf + Frame(bytes.value);
    }
  }

  /**
   Across any sends, with partial writes and failures: the bytes on the stream
   followed by the write buffer are the frames of all messages so far, in order.
   */
  lemma {:induction false} SendsConserve<M>(schema: Schema<M>, sink: Sink, w: Writer, messages: seq<M>)
    ensures var w' := SendAll(schema, sink, w, messages);
            && w'.sent + w'.buf == w.sent + w.buf + Frames(schema, messages)
            && w.sent <= w'.sent
    decreases |messages|
  {
    if messages != [] {
      var w1 := Send(schema, sink, w, messages[0]).1;
      var first, later := Frames(schema, [messages[0]]), Frames(schema, messages[1..]);
      SendConserves(schema, sink, w, messages[0]);
      SendsConserve(schema, sink, w1, messages[1..]);
      assert [messages[0]][1..] == [];
      assert Frames(schema, messages) == first + later;
      assert (w.sent + w.buf + first) + later == w.sent + w.buf + (first + later);
    }
  }

  /** Any first part of frames is whole frames and less than one more. */
  lemma {:induction false} CutPoint<M>(schema: Schema<M>, messages: seq<M>, n: nat) returns (k: nat, tail: seq<Byte>)
    requires Faithful(schema, messages) && n <= |Frames(schema, messages)|
    ensures k <= |messages| && (n == |Frames(schema, messages)| ==> k == |messages|)
    ensures Frames(schema, messages)[..n] == Frames(schema, messages[..k]) + tail
    ensures DecodeFrame(schema, tail).NotYet?
    decreases |messages|
  {
    k, tail := 0, [];
    if messages != [] {
      assert FaithfulFor(schema, messages[0]);
      var bytes := schema.encode(messages[0]).value;
      var frame, later := Frame(bytes), messages[1..];
      if n < |frame| {
        tail := frame[..n];
        CutFrameWaits(schema, bytes, n);
      } else {
        k, tail := CutPoint(schema, later, n - |frame|);
        assert messages[..k + 1][1..] == later[..k];
        assert Frames(schema, messages)[..n] == frame + Frames(schema, later)[..n - |frame|];
        assert Frames(schema, messages[..k + 1]) == frame + Frames(schema, later[..k]);
        k := k + 1;
      }
    }
  }

  /**
   From sender to receiver: after any sends, a receiver gets the first messages
   in order and nothing else, however the bytes are cut, and all messages if the
   write buffer has been emptied.
   */
  lemma SentMessagesArrive<M>(
    schema: Schema<M>, sink: Sink, messages: seq<M>, size: nat, incoming: seq<ReadEvent>) returns (k: nat)
    requires Faithful(schema, messages) && size > 0 && Pieces(incoming)
    requires Bytes(incoming) == SendAll(schema, sink, Writer([], [], 0), messages).sent
    ensures k <= |messages|
    ensures Items(schema, size, Reader([], incoming), k + 1) == Receiveds(messages[..k]) + [End]
    ensures SendAll(schema, sink, Writer([], [], 0), messages).buf == [] ==> k == |messages|
  {
    var w := SendAll(schema, sink, Writer([], [], 0), messages);
    SendsConserve(schema, sink, Writer([], [], 0), messages);
    assert w.sent + w.buf == Frames(schema, messages);
    var tail;
    k, tail := CutPoint(schema, messages, |w.sent|);
    assert w.sent == Frames(schema, messages)[..|w.sent|];
    MessagesArriveInOrder(schema, size, Reader([], incoming), messages[..k], tail);
  }
}
