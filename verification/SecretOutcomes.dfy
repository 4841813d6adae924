/**
 Secret connections byte by byte, and how writing and reading end: what each
 error and each panic is caused by.
 */
module SecretOutcomes {
  import opened Common
  import opened SecretConnection

  // ---- Nonces and frames ---------------------------------------------------

  /** The digits of a number to the base 256, the least significant first. */
  function DigitAt(v: nat, i: nat): nat {
    if i == 0 then v % 256 else DigitAt(v / 256, i - 1)
  }

  lemma {:induction false} LittleEndian(n: nat, v: nat, i: nat)
    requires i < n
    ensures LeBytes(n, v)[i] as nat == DigitAt(v, i)
    decreases n
  {
    if i > 0 {
      LittleEndian(n - 1, v / 256, i - 1);
    }
  }

  /** The nonce of a frame: four zero bytes, and the frame's number in eight bytes. */
  lemma NonceIs(k: nat, i: nat)
    requires i < 12
    ensures |NonceAt(k)| == 12
    ensures i < 4 ==> NonceAt(k)[i] == 0
    ensures i >= 4 ==> NonceAt(k)[i] as nat == DigitAt(k, i - 4)
  {
    if i >= 4 {
      LittleEndian(8, k, i - 4);
    }
  }

  /** A frame: the length of the chunk in four bytes, the chunk, and zeros up to 1028 bytes. */
  lemma FrameIs(chunk: seq<Byte>, i: nat)
    requires 0 < |chunk| <= 1024 && i < 1028
    ensures |FrameOf(chunk)| == 1028
    ensures i == 0 ==> FrameOf(chunk)[i] as nat == |chunk| % 256
    ensures i == 1 ==> FrameOf(chunk)[i] as nat == |chunk| / 256
    ensures 2 <= i < 4 ==> FrameOf(chunk)[i] == 0
    ensures 4 <= i < 4 + |chunk| ==> FrameOf(chunk)[i] == chunk[i - 4]
    ensures 4 + |chunk| <= i ==> FrameOf(chunk)[i] == 0
  {
  }

  // ---- Reading -------------------------------------------------------------

  /** The counter in the last eight bytes of a nonce. */
  function CounterIn(nonce: Nonce): nat
    requires |nonce| == 12
  {
    LeValue(nonce[4..])
  }

  /** Counting up fails for a nonce of another size, and at the last count. */
  lemma IncrementIs(nonce: Nonce)
    ensures Increment(nonce).Some? <==> |nonce| == 12 && CounterIn(nonce) + 1 < TWO_64
    ensures Increment(nonce).Some? ==>
              var next := Increment(nonce).value;
              |next| == 12 && next[..4] == nonce[..4] && CounterIn(next) == CounterIn(nonce) + 1
  {
    if |nonce| == 12 && CounterIn(nonce) + 1 < TWO_64 {
      var next := Increment(nonce).value;
      CounterFits();
      LeRoundTrip(8, CounterIn(nonce) + 1);
      assert next[4..] == LeBytes(8, CounterIn(nonce) + 1);
    }
  }

  /** Opening fails for want of a tag, or of room, or because the cipher refuses. */
  lemma DecryptIs(c: Cipher, nonce: Nonce, ciphertext: seq<Byte>, room: nat)
    ensures var r, n := Decrypt(c, nonce, ciphertext, room), |ciphertext| - 16;
            if n < 0 then r == Err(ShortCiphertext)
            else if n > room then r == Err(SmallOutputBuffer)
            else r == match c.open(nonce, ciphertext[..n], ciphertext[n..])
                      case None => Err(Aead)
                      case Some(plain) => Ok(plain)
  {
  }

  /** With room for it, whatever was sealed is opened. */
  lemma DecryptOpens(c: Cipher, nonce: Nonce, chunk: seq<Byte>, room: nat)
    requires SealsAndOpens(c, nonce, FrameOf(chunk)) && room >= |FrameOf(chunk)|
    ensures Decrypt(c, nonce, SealedFrame(c, nonce, chunk), room) == Ok(FrameOf(chunk))
  {
    var (text, tag) := c.seal(nonce, FrameOf(chunk));
    assert (text + tag)[..|text|] == text && (text + tag)[|text|..] == tag;
  }

  /** The number in the first four bytes of a frame. */
  function LengthIn(frame: seq<Byte>): nat
    requires |frame| == 1028
  {
    frame[0] as nat + 256 * (frame[1] as nat + 256 * (frame[2] as nat + 256 * frame[3] as nat))
  }

  /**
   What reading a frame gives: the stream ends too early, the frame does not
   open, the counter is at its end, the length is impossible, or the chunk.
   */
  lemma ReadFrameIs(c: Cipher, r: Receiver)
    requires InPlace(c) && |r.nonce| == 12
    ensures var (o, r') := ReadFrame(c, r);
            && r'.buffer == r.buffer && r'.terminated == r.terminated
            && if |r.incoming| < 1044 then o == Failed(UnexpectedEof) && r'.incoming == [] && r'.nonce == r.nonce
               else
                 var plain := c.open(r.nonce, r.incoming[..1028], r.incoming[1028..1044]);
                 && r'.incoming == r.incoming[1044..]
                 && if plain.None? then o == Failed(Aead) && r'.nonce == r.nonce
                    else if CounterIn(r.nonce) + 1 >= TWO_64 then o == Panicked && r'.nonce == r.nonce
                    else
                      && Increment(r.nonce) == Some(r'.nonce)
                      && var len := LengthIn(plain.value);
                         o == if len > 1024 then Failed(ChunkTooBig) else Done(plain.value[4..4 + len])
  {
    IncrementIs(r.nonce);
    if |r.incoming| >= 1044 {
      var sealed := r.incoming[..1044];
      assert sealed[..1028] == r.incoming[..1028] && sealed[1028..] == r.incoming[1028..1044];
      var plain := c.open(r.nonce, r.incoming[..1028], r.incoming[1028..1044]);
      if plain.Some? {
        var head := plain.value[..4];
        assert U32Value(head) == LengthIn(plain.value);
      }
    }
  }

  /** A read with nothing buffered: the chunk if there is room for it, and a panic if not. */
  lemma ReadIs(c: Cipher, r: Receiver, size: nat)
    requires InPlace(c) && |r.nonce| == 12 && r.buffer == []
    ensures var (o, r') := Read(c, r, size);
            if r.terminated then o == Failed(TerminatedElsewhere) && r' == r
            else
              var (f, r1) := ReadFrame(c, r);
              && r' == r1.(terminated := f.Failed?)
              && o == if f.Done? && size < |f.value| then Panicked else f
  {
    var (f, _) := ReadFrame(c, r);
    if f.Done? && |f.value| <= size {
      assert f.value[..|f.value|] == f.value && f.value[|f.value|..] == [];
    }
  }

  /** A read with something buffered, which never happens: it panics unless the destination is full afterwards. */
  lemma BufferedReadIs(c: Cipher, r: Receiver, size: nat)
    requires InPlace(c) && r.buffer != [] && !r.terminated
    ensures var (o, r') := Read(c, r, size);
            if size > |r.buffer| then o == Panicked && r' == r
            else o == Done(r.buffer[..size]) && r' == r.(buffer := r.buffer[size..])
  {
  }

  // ---- Writing -------------------------------------------------------------

  /** The number of chunks that data are cut into. */
  function ChunkCount(n: nat): nat {
    (n + 1023) / 1024
  }

  /** The `i`-th chunk: all have 1024 bytes but the last. */
  function ChunkAt(data: seq<Byte>, i: nat): seq<Byte>
    requires i < ChunkCount(|data|)
  {
    data[1024 * i..if 1024 * (i + 1) <= |data| then 1024 * (i + 1) else |data|]
  }

  /** The log goes on with the first `k` chunks of the data. */
  ghost predicate LogsChunks(log: seq<Entry>, log': seq<Entry>, data: seq<Byte>, k: nat) {
    && k <= ChunkCount(|data|) && |log'| == |log| + k && log'[..|log|] == log
    && forall i :: 0 <= i < k ==> log'[|log| + i].chunk == ChunkAt(data, i)
  }

  ghost predicate NoFaults(faults: Faults, since: nat, until: nat) {
    forall t :: since <= t < until ==> faults(t).None?
  }

  /**
   How a write ends after `k` chunks have been sealed: all chunks have gone out,
   or the write of the last one fails, or there is no nonce left after it.
   */
  ghost predicate WriteEnds(
    faults: Faults, s: Sender, data: seq<Byte>, n: nat, k: nat, r: Outcome<nat>, s': Sender)
  {
    && LogsChunks(s.log, s'.log, data, k)
    && match r
       case Done(m) =>
         k == ChunkCount(|data|) && m == n + |data| && s'.tick == s.tick + k && NoFaults(faults, s.tick, s'.tick)
       case Failed(e) =>
         && k > 0 && s'.tick == s.tick + k && NoFaults(faults, s.tick, s'.tick - 1)
         && faults(s'.tick - 1).Some? && e == Io(faults(s'.tick - 1).value.1)
       case Panicked =>
         && k > 0 && s'.tick == s.tick + k - 1 && NoFaults(faults, s.tick, s'.tick)
         && |s'.nonce| == 12 && CounterIn(s'.nonce) + 1 >= TWO_64
  }

  /** One chunk: it is sealed and logged, then the nonce moves on, then its frame is written. */
  lemma WriteChunkIs(c: Cipher, faults: Faults, s: Sender, chunk: seq<Byte>)
    requires |s.nonce| == 12 && 0 < |chunk| <= 1024
    ensures var (r, s') := WriteChunk(c, faults, s, chunk);
            var frame, fault := SealedFrame(c, s.nonce, chunk), faults(s.tick);
            && s'.log == s.log + [Entry(s.nonce, chunk)] && s'.terminated == s.terminated && |s'.nonce| == 12
            && if CounterIn(s.nonce) + 1 >= TWO_64
               then r == Panicked && s'.nonce == s.nonce && s'.tick == s.tick && s'.sent == s.sent
               else
                 && Increment(s.nonce) == Some(s'.nonce) && s'.tick == s.tick + 1
                 && (fault.None? ==> r == Done(|chunk|) && s'.sent == s.sent + frame)
                 && (fault.Some? ==>
                       && r == Failed(Io(fault.value.1))
                       && s'.sent == s.sent + frame[..if fault.value.0 < |frame| then fault.value.0 else |frame|])
  {
    IncrementIs(s.nonce);
    var frame := SealedFrame(c, s.nonce, chunk);
    assert frame[..|frame|] == frame;
  }

  lemma ChunksOfRest(data: seq<Byte>, i: nat)
    requires data != [] && i + 1 < ChunkCount(|data|)
    ensures var rest := data[|FirstChunk(data)|..];
            && ChunkCount(|rest|) == ChunkCount(|data|) - 1 && ChunkAt(data, i + 1) == ChunkAt(rest, i)
  {
    var rest := data[1024..];
    SliceOfRest(data, 1024, 1024 * i, if 1024 * (i + 1) <= |rest| then 1024 * (i + 1) else |rest|);
  }

  lemma SliceOfRest(data: seq<Byte>, n: nat, from: nat, to: nat)
    requires n <= |data| && from <= to <= |data| - n
    ensures data[n..][from..to] == data[n + from..n + to]
  {
  }

  lemma FirstChunkIs(data: seq<Byte>)
    requires data != []
    ensures ChunkCount(|data|) > 0 && FirstChunk(data) == ChunkAt(data, 0)
    ensures ChunkCount(|data[|FirstChunk(data)|..]|) == ChunkCount(|data|) - 1
  {
    if |data| <= 1024 {
      assert data[..|data|] == data;
    }
  }

  lemma LogsOneMore(log: seq<Entry>, log1: seq<Entry>, log': seq<Entry>, data: seq<Byte>, k: nat)
    requires data != [] && |log1| == |log| + 1 && log1[..|log|] == log && log1[|log|].chunk == FirstChunk(data)
    requires LogsChunks(log1, log', data[|FirstChunk(data)|..], k)
    ensures LogsChunks(log, log', data, k + 1)
  {
    FirstChunkIs(data);
    assert log'[..|log|] == log1[..|log|] && log'[|log|] == log'[..|log1|][|log|];
    forall i | 0 <= i < k + 1
      ensures log'[|log| + i].chunk == ChunkAt(data, i)
    {
      if i > 0 {
        ChunksOfRest(data, i - 1);
        assert log'[|log1| + (i - 1)].chunk == ChunkAt(data[|FirstChunk(data)|..], i - 1);
      }
    }
  }

  lemma LogsFirst(log: seq<Entry>, entry: Entry, data: seq<Byte>)
    requires data != [] && entry.chunk == FirstChunk(data)
    ensures LogsChunks(log, log + [entry], data, 1)
  {
    FirstChunkIs(data);
  }

  lemma EndsNow(c: Cipher, faults: Faults, s: Sender, data: seq<Byte>, n: nat)
    requires |s.nonce| == 12 && data != []
    requires !WriteChunk(c, faults, s, FirstChunk(data)).0.Done?
    ensures var (r, s') := WriteChunk(c, faults, s, FirstChunk(data)); WriteEnds(faults, s, data, n, 1, r, s')
  {
    WriteChunkIs(c, faults, s, FirstChunk(data));
    LogsFirst(s.log, Entry(s.nonce, FirstChunk(data)), data);
    IncrementIs(s.nonce);
  }

  lemma EndsLater(
    faults: Faults, s: Sender, s1: Sender, data: seq<Byte>, n: nat, k: nat, r: Outcome<nat>, s': Sender)
    requires data != [] && s1.tick == s.tick + 1 && faults(s.tick).None?
    requires |s1.log| == |s.log| + 1 && s1.log[..|s.log|] == s.log && s1.log[|s.log|].chunk == FirstChunk(data)
    requires WriteEnds(faults, s1, data[|FirstChunk(data)|..], n + |FirstChunk(data)|, k, r, s')
    ensures WriteEnds(faults, s, data, n, k + 1, r, s')
  {
    FirstChunkIs(data);
    LogsOneMore(s.log, s1.log, s'.log, data, k);
  }

  lemma WriteChunksNext(c: Cipher, faults: Faults, s: Sender, data: seq<Byte>, n: nat)
    requires data != []
    ensures var chunk := FirstChunk(data);
            var (r1, s1) := WriteChunk(c, faults, s, chunk);
            WriteChunks(WriteStepOf(c, faults), s, data, n)
            == if r1.Done? then WriteChunks(WriteStepOf(c, faults), s1, data[|chunk|..], n + |chunk|) else (r1, s1)
  {
  }

  lemma DoneGoesOn(c: Cipher, faults: Faults, s: Sender, data: seq<Byte>)
    requires |s.nonce| == 12 && data != [] && WriteChunk(c, faults, s, FirstChunk(data)).0.Done?
    ensures var s1 := WriteChunk(c, faults, s, FirstChunk(data)).1;
            && |s1.nonce| == 12 && s1.tick == s.tick + 1 && faults(s.tick).None?
            && |s1.log| == |s.log| + 1 && s1.log[..|s.log|] == s.log && s1.log[|s.log|].chunk == FirstChunk(data)
  {
    WriteChunkIs(c, faults, s, FirstChunk(data));
  }

  /** Data are cut into chunks of 1024 bytes, and written up to the first failure. */
  lemma {:induction false} WriteChunksIs(c: Cipher, faults: Faults, s: Sender, data: seq<Byte>, n: nat)
    returns (k: nat)
    requires |s.nonce| == 12
    ensures var (r, s') := WriteChunks(WriteStepOf(c, faults), s, data, n); WriteEnds(faults, s, data, n, k, r, s')
    decreases |data|
  {
    k := 0;
    if data != [] {
      var chunk := FirstChunk(data);
      var (r1, s1) := WriteChunk(c, faults, s, chunk);
      WriteChunksNext(c, faults, s, data, n);
      if r1.Done? {
        DoneGoesOn(c, faults, s, data);
        var later := WriteChunksIs(c, faults, s1, data[|chunk|..], n + |chunk|);
        var (r, s') := WriteChunks(WriteStepOf(c, faults), s1, data[|chunk|..], n + |chunk|);
        EndsLater(faults, s, s1, data, n, later, r, s');
        k := later + 1;
      } else {
        EndsNow(c, faults, s, data, n);
        k := 1;
      }
    }
  }

  /** A call to write: refused after an error, and an error ends the connection. */
  lemma WriteIs(c: Cipher, faults: Faults, s: Sender, data: seq<Byte>) returns (k: nat)
    requires |s.nonce| == 12
    ensures var (r, s') := Write(c, faults, s, data);
            if s.terminated then r == Failed(TerminatedElsewhere) && s' == s
            else WriteEnds(faults, s, data, 0, k, r, s') && (s'.terminated <==> r.Failed?)
  {
    k := WriteChunksIs(c, faults, s, data, 0);
  }
}
