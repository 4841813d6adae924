/** The codec of abci/src/codec.rs with its stream, its read and write buffers and its loops. */
module AbciCodecImpl {
  import opened Common
  import opened AbciCodec

  /** A stream that follows a script, which may be any. */
  class Stream {
    const sink: Sink
    var incoming: seq<ReadEvent>
    var sent: seq<Byte>
    var tick: nat

    constructor (sink: Sink, incoming: seq<ReadEvent>)
      ensures this.sink == sink && this.incoming == incoming && sent == [] && tick == 0
    {
      this.sink := sink;
      this.incoming := incoming;
      sent := [];
      tick := 0;
    }

    /** Fills the front of the window and gives the number of bytes. */
    method Read(window: array<Byte>) returns (r: Result<nat, IoError>)
      modifies this`incoming, window
      ensures var (got, incoming') := ReadOnce(window.Length, old(incoming));
              && incoming == incoming'
              && (if got.Ok? then r == Ok(|got.value|) && |got.value| <= window.Length
                                  && window[..|got.value|] == got.value
                  else r == Err(got.error))
    {
      var (got, rest) := ReadOnce(window.Length, incoming);
      incoming := rest;
      if got.Err? {
        return Err(got.error);
      }
      forall i | 0 <= i < |got.value| {
        window[i] := got.value[i];
      }
      return Ok(|got.value|);
    }

    /** Takes some of the offered bytes, or none. */
    method Write(offered: seq<Byte>) returns (r: Result<nat, IoError>)
      modifies this`sent, this`tick
      ensures tick == old(tick) + 1
      ensures r == Accepted(sink, old(tick), offered)
      ensures sent == if r.Ok? && r.value > 0 then old(sent) + offered[..r.value] else old(sent)
    {
      r := Accepted(sink, tick, offered);
      tick := tick + 1;
      if r.Ok? && r.value > 0 {
        sent := sent + offered[..r.value];
      }
    }

    method Flush() returns (r: Option<IoError>)
      modifies this`tick
      ensures r == sink.flush(old(tick)) && tick == old(tick) + 1
    {
      r := sink.flush(tick);
      tick := tick + 1;
    }
  }

  class Codec<I, O> {
    const incoming: Schema<I>
    const outgoing: Schema<O>
    const stream: Stream
    var readBuf: seq<Byte>
    const readWindow: array<Byte>
    var writeBuf: seq<Byte>

    constructor (incoming: Schema<I>, outgoing: Schema<O>, stream: Stream, readBufSize: nat)
      ensures this.incoming == incoming && this.outgoing == outgoing && this.stream == stream
      ensures readBuf == [] && writeBuf == [] && fresh(readWindow) && readWindow.Length == readBufSize
    {
      this.incoming := incoming;
      this.outgoing := outgoing;
      this.stream := stream;
      readBuf := [];
      readWindow := new Byte[readBufSize](_ => 0);
      writeBuf := [];
    }

    ghost function ReaderView(): Reader
      reads this, stream
    {
      Reader(readBuf, stream.incoming)
    }

    ghost function WriterView(): Writer
      reads this, stream
    {
      Writer(writeBuf, stream.sent, stream.tick)
    }

    /** Decodes one message off the read buffer, which is only advanced over a whole frame. */
    method DecodeLengthDelimited() returns (r: Result<Option<I>, CodecError>)
      modifies this`readBuf
      ensures match DecodeFrame(incoming, old(readBuf))
              case NotYet => r == Ok(None) && readBuf == old(readBuf)
              case Message(m, rest) => r == Ok(Some(m)) && readBuf == rest
              case Undecodable(rest) => r == Err(Decode) && readBuf == rest
              case BadLength => r == Err(Decode) && readBuf == old(readBuf)
    {
      var length := DecodeVarint(readBuf);
      if length.None? {
        return if |readBuf| <= MAX_VARINT_LENGTH then Ok(None) else Err(Decode);
      }
      var (encodedLen, tmp) := length.value;
      if |tmp| < encodedLen {
        return Ok(None);
      }
      VarintTakesPrefix(readBuf, 0);
      var delimLen := |readBuf| - |tmp|;
      readBuf := readBuf[delimLen + encodedLen..];
      assert readBuf == tmp[encodedLen..];
      var message := incoming.decode(tmp[..encodedLen]);
      return if message.None? then Err(Decode) else Ok(message);
    }

    /** The next message of the stream, or the end. */
    method NextItem() returns (item: Item<I>)
      modifies this`readBuf, stream`incoming, readWindow
      ensures (item, ReaderView()) == Next(incoming, readWindow.Length, old(ReaderView()))
    {
      while true
        invariant Next(incoming, readWindow.Length, ReaderView())
               == Next(incoming, readWindow.Length, old(ReaderView()))
        decreases |Bytes(stream.incoming)|
      {
        ghost var before := stream.incoming;
        var decoded := DecodeLengthDelimited();
        if decoded.Err? {
          return Failed(decoded.error);
        }
        if decoded.value.Some? {
          return Received(decoded.value.value);
        }
        var bytesRead := stream.Read(readWindow);
        ReadTakes(readWindow.Length, before);
        if bytesRead.Err? {
          return Failed(Io(bytesRead.error));
        }
        if bytesRead.value == 0 {
          return End;
        }
        readBuf := readBuf + readWindow[..bytesRead.value];
      }
    }

    /** Sends a message: its frame goes behind what is left of earlier ones. */
    method SendMessage(message: O) returns (r: Result<(), CodecError>)
      modifies this`writeBuf, stream`sent, stream`tick
      ensures (r, WriterView()) == Send(outgoing, stream.sink, old(WriterView()), message)
    {
      var bytes := outgoing.encode(message);
      if bytes.None? {
        return Err(Encode);
      }
      writeBuf := writeBuf + Frame(bytes.value);
      ghost var start := WriterView();
      while writeBuf != []
        invariant Drain(stream.sink, WriterView()) == Drain(stream.sink, start)
        decreases |writeBuf|
      {
        var bytesWritten := stream.Write(writeBuf);
        if bytesWritten.Err? {
          return Err(Io(bytesWritten.error));
        }
        if bytesWritten.value == 0 {
          return Err(WriteZero);
        }
        writeBuf := writeBuf[bytesWritten.value..];
      }
      var failure := stream.Flush();
      return if failure.Some? then Err(Io(failure.value)) else Ok(());
    }
  }

  lemma {:induction false} VarintTakesPrefix(s: seq<Byte>, k: nat)
    requires DecodeVarintFrom(s, k).Some?
    ensures var tmp := DecodeVarintFrom(s, k).value.1;
            s[|s| - |tmp|..] == tmp
    decreases |s|
  {
    if s[0] >= 0x80 {
      VarintTakesPrefix(s[1..], k + 1);
      var tmp := DecodeVarintFrom(s, k).value.1;
      assert s[|s| - |tmp|..] == s[1..][|s[1..]| - |tmp|..];
    }
  }
}
