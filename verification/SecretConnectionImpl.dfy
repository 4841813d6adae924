/**
 Secret connections as p2p/src/secret_connection.rs runs them: nonces, frames and
 destinations are arrays that are filled in place.
 */
module SecretConnectionImpl {
  import opened Common
  import opened SecretConnection

  class NonceCounter {
    const bytes: array<Byte>

    constructor ()
      ensures fresh(bytes) && bytes[..] == NonceAt(0)
    {
      bytes := new Byte[NONCE_SIZE](_ => 0);
      new;
      FirstNonce(bytes[..]);
    }

    /** Adds one to the counter in the last eight bytes; false stands for a panic. */
    method Advance() returns (ok: bool)
      modifies bytes
      ensures ok <==> Increment(old(bytes[..])).Some?
      ensures bytes[..] == if ok then Increment(old(bytes[..])).value else old(bytes[..])
    {
      if bytes.Length != NONCE_SIZE {
        return false;
      }
      var counter := LeValue(bytes[4..]);
      if counter + 1 >= TWO_64 {
        return false;
      }
      var next := LeBytes(|bytes[4..]|, counter + 1);
      forall i | 0 <= i < |next| {
        bytes[4 + i] := next[i];
      }
      assert bytes[..] == old(bytes[..4]) + next;
      return true;
    }
  }

  lemma FirstNonce(s: seq<Byte>)
    requires |s| == NONCE_SIZE && forall i :: 0 <= i < |s| ==> s[i] == 0
    ensures s == NonceAt(0)
  {
    ZeroBytes(|FIRST_COUNTER|);
  }

  lemma {:induction false} ZeroBytes(n: nat)
    ensures forall i :: 0 <= i < n ==> LeBytes(n, 0)[i] == 0
  {
    if n > 0 {
      ZeroBytes(n - 1);
    }
  }

  /** Fills a frame that starts out as zeros and seals it in place; false stands for a panic. */
  method EncryptFrame(cipher: Cipher, nonce: Nonce, chunk: seq<Byte>, sealed: array<Byte>) returns (ok: bool)
    requires Inverse(cipher)
    requires sealed[..] == Padding(SEALED_SIZE)
    modifies sealed
    ensures ok <==> Encrypt(cipher, nonce, chunk).Some?
    ensures ok ==> sealed[..] == Encrypt(cipher, nonce, chunk).value
  {
    if chunk == [] || |chunk| > TOTAL_FRAME_SIZE - DATA_LEN_SIZE {
      return false;
    }
    var length := U32Bytes(|chunk|);
    forall i | 0 <= i < DATA_LEN_SIZE {
      sealed[i] := length[i];
    }
    forall i | 0 <= i < |chunk| {
      sealed[DATA_LEN_SIZE + i] := chunk[i];
    }
    assert sealed[..TOTAL_FRAME_SIZE] == FrameOf(chunk);
    assert SealsAndOpens(cipher, nonce, FrameOf(chunk));
    var (text, tag) := cipher.seal(nonce, sealed[..TOTAL_FRAME_SIZE]);
    forall i | 0 <= i < TOTAL_FRAME_SIZE {
      sealed[i] := text[i];
    }
    forall i | 0 <= i < TAG_SIZE {
      sealed[TOTAL_FRAME_SIZE + i] := tag[i];
    }
    assert sealed[..] == text + tag;
    return true;
  }

  /** The stream under the writing end. */
  class OutStream {
    const faults: Faults
    var sent: seq<Byte>
    var tick: nat

    constructor (faults: Faults)
      ensures this.faults == faults && sent == [] && tick == 0
    {
      this.faults := faults;
      sent := [];
      tick := 0;
    }

    /** Writes all bytes, or some of them and fails. */
    method WriteAll(bytes: seq<Byte>) returns (failure: Option<nat>)
      modifies this
      ensures var fault := faults(old(tick));
              && sent == old(sent) + Written(fault, bytes) && tick == old(tick) + 1
              && failure == if fault.Some? then Some(fault.value.1) else None
    {
      var fault := faults(tick);
      sent := sent + Written(fault, bytes);
      tick := tick + 1;
      return if fault.Some? then Some(fault.value.1) else None;
    }
  }

  class SendingEnd {
    const cipher: Cipher
    const nonce: NonceCounter
    const stream: OutStream
    var terminate: bool
    ghost var log: seq<Entry>

    constructor (cipher: Cipher, stream: OutStream)
      requires stream.sent == [] && stream.tick == 0
      ensures this.cipher == cipher && this.stream == stream && fresh(nonce) && fresh(nonce.bytes)
      ensures View() == NEW_SENDER
    {
      this.cipher := cipher;
      this.stream := stream;
      nonce := new NonceCounter();
      terminate := false;
      log := [];
    }

    ghost function View(): Sender
      reads this, nonce, nonce.bytes, stream
    {
      Sender(nonce.bytes[..], stream.sent, log, terminate, stream.tick)
    }

    /** Seals and writes one chunk. */
    method SendChunk(chunk: seq<Byte>) returns (r: Outcome<nat>)
      requires Inverse(cipher)
      modifies this`log, nonce.bytes, stream
      ensures (r, View()) == WriteChunk(cipher, stream.faults, old(View()), chunk)
    {
      var sealed := new Byte[SEALED_SIZE](_ => 0);
      assert sealed[..] == Padding(SEALED_SIZE);
      var ok := EncryptFrame(cipher, nonce.bytes[..], chunk, sealed);
      if !ok {
        return Panicked;
      }
      log := log + [Entry(nonce.bytes[..], chunk)];
      ok := nonce.Advance();
      if !ok {
        return Panicked;
      }
      var failure := stream.WriteAll(sealed[..]);
      return if failure.Some? then Failed(Io(failure.value)) else Done(|chunk|);
    }

    /** Writes the data in chunks, up to the first failure. */
    method EncryptAndWrite(data: seq<Byte>) returns (r: Outcome<nat>)
      requires Inverse(cipher)
      modifies this`log, nonce.bytes, stream
      ensures (r, View()) == WriteChunks(WriteStepOf(cipher, stream.faults), old(View()), data, 0)
    {
      var rest := data;
      var n: nat := 0;
      ghost var step := WriteStepOf(cipher, stream.faults);
      while rest != []
        invariant WriteChunks(step, View(), rest, n) == WriteChunks(step, old(View()), data, 0)
        decreases |rest|
      {
        var chunk := FirstChunk(rest);
        ghost var before := View();
        r := SendChunk(chunk);
        assert step(before, chunk) == (r, View());
        if !r.Done? {
          return;
        }
        n := n + |chunk|;
        rest := rest[|chunk|..];
      }
      return Done(n);
    }

    /** One write, refused after an error; an error ends the connection. */
    method WriteData(data: seq<Byte>) returns (r: Outcome<nat>)
      requires Inverse(cipher)
      modifies this`log, this`terminate, nonce.bytes, stream
      ensures (r, View()) == Write(cipher, stream.faults, old(View()), data)
    {
      if terminate {
        return Failed(TerminatedElsewhere);
      }
      r := EncryptAndWrite(data);
      terminate := r.Failed?;
    }
  }

  /** The stream under the reading end. */
  class InStream {
    var incoming: seq<Byte>

    constructor (incoming: seq<Byte>)
      ensures this.incoming == incoming
    {
      this.incoming := incoming;
    }

    /** Fills the buffer, or fails and uses the stream up. */
    method ReadExact(buf: array<Byte>) returns (ok: bool)
      modifies this, buf
      ensures ok <==> |old(incoming)| >= buf.Length
      ensures ok ==> buf[..] == old(incoming)[..buf.Length] && incoming == old(incoming)[buf.Length..]
      ensures !ok ==> incoming == []
    {
      if |incoming| < buf.Length {
        incoming := [];
        return false;
      }
      forall i | 0 <= i < buf.Length {
        buf[i] := incoming[i];
      }
      incoming := incoming[buf.Length..];
      return true;
    }
  }

  class ReceivingEnd {
    const cipher: Cipher
    const nonce: NonceCounter
    const stream: InStream
    var buffer: seq<Byte>
    var terminate: bool

    constructor (cipher: Cipher, stream: InStream)
      ensures this.cipher == cipher && this.stream == stream && fresh(nonce) && fresh(nonce.bytes)
      ensures View() == NewReceiver(stream.incoming)
    {
      this.cipher := cipher;
      this.stream := stream;
      nonce := new NonceCounter();
      buffer := [];
      terminate := false;
    }

    ghost function View(): Receiver
      reads this, nonce, nonce.bytes, stream
    {
      Receiver(nonce.bytes[..], buffer, stream.incoming, terminate)
    }

    /** Reads, opens and unpacks one frame. */
    method ReceiveChunk() returns (r: Outcome<seq<Byte>>)
      requires InPlace(cipher)
      modifies nonce.bytes, stream
      ensures (r, View()) == ReadFrame(cipher, old(View()))
    {
      var sealed := new Byte[SEALED_SIZE](_ => 0);
      var ok := stream.ReadExact(sealed);
      if !ok {
        return Failed(UnexpectedEof);
      }
      var frame := Decrypt(cipher, nonce.bytes[..], sealed[..], TOTAL_FRAME_SIZE);
      if frame.Err? {
        return Failed(frame.error);
      }
      ok := nonce.Advance();
      if !ok {
        return Panicked;
      }
      var chunk := ChunkIn(frame.value);
      return if chunk.None? then Failed(ChunkTooBig) else Done(chunk.value);
    }

    /** Fills the front of the destination with what is buffered, or else with the next chunk. */
    method ReadBuffered(data: array<Byte>) returns (r: Outcome<nat>)
      requires InPlace(cipher) && data != nonce.bytes
      modifies this`buffer, nonce.bytes, stream, data
      ensures var (o, after) := ReadAndDecrypt(cipher, old(View()), data.Length);
              && View() == after
              && match o
                 case Done(bytes) => r == Done(|bytes|) && |bytes| <= data.Length && data[..|bytes|] == bytes
                 case Failed(e) => r == Failed(e)
                 case Panicked => r == Panicked
    {
      if buffer != [] {
        var n := Min(data.Length, |buffer|);
        if data.Length != n {
          return Panicked;
        }
        forall i | 0 <= i < n {
          data[i] := buffer[i];
        }
        buffer := buffer[n..];
        return Done(n);
      }
      var received := ReceiveChunk();
      match received {
        case Failed(e) => return Failed(e);
        case Panicked => return Panicked;
        case Done(chunk) =>
          var n := Min(data.Length, |chunk|);
          forall i | 0 <= i < n {
            data[i] := chunk[i];
          }
          if |buffer| != |chunk| - n {
            return Panicked;
          }
          buffer := chunk[n..];
          return Done(n);
      }
    }

    /** One read, refused after an error. */
    method ReadData(data: array<Byte>) returns (r: Outcome<nat>)
      requires InPlace(cipher) && data != nonce.bytes
      modifies this`buffer, this`terminate, nonce.bytes, stream, data
      ensures var (o, after) := Read(cipher, old(View()), data.Length);
              && View() == after
              && match o
                 case Done(bytes) => r == Done(|bytes|) && |bytes| <= data.Length && data[..|bytes|] == bytes
                 case Failed(e) => r == Failed(e)
                 case Panicked => r == Panicked
    {
      if terminate {
        return Failed(TerminatedElsewhere);
      }
      r := ReadBuffered(data);
      terminate := r.Failed?;
    }
  }
}
