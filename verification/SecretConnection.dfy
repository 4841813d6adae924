/**
 The framing of secret connections (p2p/src/secret_connection.rs, nonce.rs) on
 values: what one end writes, what the other end reads, and the nonces of both.
 `SecretConnectionImpl.dfy` has the buffers and arrays.

 The cipher is an authenticated encryption as in section 2.8 of RFC 8439; all
 that is used of it is that opening undoes sealing.  A panic of the source is an
 outcome here, and ends the run.
 */
module SecretConnection {
  import opened Common

  const TAG_SIZE: nat := 16
  const DATA_MAX_SIZE: nat := 1024
  const DATA_LEN_SIZE: nat := 4
  const TOTAL_FRAME_SIZE: nat := DATA_MAX_SIZE + DATA_LEN_SIZE
  const SEALED_SIZE: nat := TAG_SIZE + TOTAL_FRAME_SIZE
  const NONCE_SIZE: nat := 12

  // ---- Numbers in little-endian order --------------------------------------

  function LeBytes(n: nat, v: nat): (r: seq<Byte>)
    ensures |r| == n
  {
    if n == 0 then [] else [v % 256] + LeBytes(n - 1, v / 256)
  }

  function LeValue(s: seq<Byte>): nat {
    if s == [] then 0 else s[0] + 256 * LeValue(s[1..])
  }

  function Pow256(n: nat): nat {
    if n == 0 then 1 else 256 * Pow256(n - 1)
  }

  lemma {:induction false} LeRoundTrip(n: nat, v: nat)
    requires v < Pow256(n)
    ensures LeValue(LeBytes(n, v)) == v
    decreases n
  {
    if n > 0 {
      LeRoundTrip(n - 1, v / 256);
      assert LeBytes(n, v)[1..] == LeBytes(n - 1, v / 256);
    }
  }

  lemma CounterFits()
    ensures Pow256(8) == TWO_64
  {
    assert Pow256(2) == 0x1_0000;
    assert Pow256(4) == 0x1_0000_0000;
    assert Pow256(6) == 0x1_0000_0000_0000;
  }

  /** The four bytes of a 32-bit number. */
  function U32Bytes(v: nat): (r: seq<Byte>)
    ensures |r| == DATA_LEN_SIZE
  {
    [v % 256, v / 256 % 256, v / 0x1_0000 % 256, v / 0x100_0000 % 256]
  }

  function U32Value(s: seq<Byte>): nat
    requires |s| == DATA_LEN_SIZE
  {
    var (a: int, b: int, c: int, d: int) := (s[0], s[1], s[2], s[3]);
    a + 256 * b + 0x1_0000 * c + 0x100_0000 * d
  }

  // ---- Nonces --------------------------------------------------------------

  type Nonce = seq<Byte>

  /** The nonce after this one; the source panics after the last, and for a nonce of another size. */
  function Increment(nonce: Nonce): Option<Nonce> {
    if |nonce| != NONCE_SIZE then None
    else
      var counter := LeValue(nonce[4..]);
      if counter + 1 >= TWO_64 then None else Some(nonce[..4] + LeBytes(|nonce[4..]|, counter + 1))
  }

  const FIRST_COUNTER: seq<Byte> := [0, 0, 0, 0, 0, 0, 0, 0]

  /** The nonce of the `k`-th frame. */
  function NonceAt(k: nat): (r: Nonce)
    ensures |r| == NONCE_SIZE
  {
    [0, 0, 0, 0] + LeBytes(|FIRST_COUNTER|, k)
  }

  lemma CounterOf(k: nat)
    requires k < TWO_64
    ensures LeValue(NonceAt(k)[4..]) == k
  {
    CounterFits();
    LeRoundTrip(|FIRST_COUNTER|, k);
    assert NonceAt(k)[4..] == LeBytes(|FIRST_COUNTER|, k);
  }

  /** Counting up goes through the nonces in turn, and stops instead of wrapping around. */
  lemma IncrementCounts(k: nat)
    requires k < TWO_64
    ensures Increment(NonceAt(k)) == if k + 1 < TWO_64 then Some(NonceAt(k + 1)) else None
  {
    CounterOf(k);
    assert NonceAt(k)[..4] == [0, 0, 0, 0];
  }

  /** No two frames of a connection share a nonce. */
  lemma NoncesDiffer(j: nat, k: nat)
    requires j < TWO_64 && k < TWO_64 && j != k
    ensures NonceAt(j) != NonceAt(k)
  {
    CounterOf(j);
    CounterOf(k);
  }

  // ---- Frames --------------------------------------------------------------

  /** Sealing gives the ciphertext and the tag; opening may refuse. */
  datatype Cipher = Cipher(
    seal: (Nonce, seq<Byte>) -> (seq<Byte>, seq<Byte>),
    open: (Nonce, seq<Byte>, seq<Byte>) -> Option<seq<Byte>>)

  ghost predicate SealsAndOpens(c: Cipher, nonce: Nonce, plain: seq<Byte>) {
    var (text, tag) := c.seal(nonce, plain);
    |text| == |plain| && |tag| == TAG_SIZE && c.open(nonce, text, tag) == Some(plain)
  }

  /** Opening works in place. */
  ghost predicate InPlace(c: Cipher) {
    forall nonce, text, tag :: c.open(nonce, text, tag).Some? ==> |c.open(nonce, text, tag).value| == |text|
  }

  /** Opening is the inverse of sealing. */
  ghost predicate Inverse(c: Cipher) {
    InPlace(c) && forall nonce, plain :: SealsAndOpens(c, nonce, plain)
  }

  /** What a frame can carry. */
  predicate IsChunk(s: seq<Byte>) {
    0 < |s| <= DATA_MAX_SIZE
  }

  function Padding(n: nat): (r: seq<Byte>)
    ensures |r| == n
  {
    seq(n, _ => 0)
  }

  /** The length of the chunk, the chunk, and zeros up to the fixed size. */
  function FrameOf(chunk: seq<Byte>): (r: seq<Byte>)
    ensures IsChunk(chunk) ==> |r| == TOTAL_FRAME_SIZE
  {
    U32Bytes(|chunk|) + chunk + Padding(if |chunk| <= DATA_MAX_SIZE then DATA_MAX_SIZE - |chunk| else 0)
  }

  /** The chunk in a frame, if the length is possible. */
  function ChunkIn(frame: seq<Byte>): Option<seq<Byte>>
    requires |frame| == TOTAL_FRAME_SIZE
  {
    var len := U32Value(frame[..DATA_LEN_SIZE]);
    if len > DATA_MAX_SIZE then None else Some(frame[DATA_LEN_SIZE..DATA_LEN_SIZE + len])
  }

  lemma FrameRoundTrip(chunk: seq<Byte>)
    requires IsChunk(chunk)
    ensures ChunkIn(FrameOf(chunk)) == Some(chunk)
  {
    var frame := FrameOf(chunk);
    assert frame[..DATA_LEN_SIZE] == U32Bytes(|chunk|);
    assert U32Value(U32Bytes(|chunk|)) == |chunk|;
    assert frame[DATA_LEN_SIZE..DATA_LEN_SIZE + |chunk|] == chunk;
  }

  function SealedFrame(c: Cipher, nonce: Nonce, chunk: seq<Byte>): seq<Byte> {
    var (text, tag) := c.seal(nonce, FrameOf(chunk));
    text + tag
  }

  /** The sealed frame; the source asserts that the chunk fits. */
  function Encrypt(c: Cipher, nonce: Nonce, chunk: seq<Byte>): Option<seq<Byte>> {
    if IsChunk(chunk) then Some(SealedFrame(c, nonce, chunk)) else None
  }

  datatype ConnectionError =
    | Io(code: nat)
    | UnexpectedEof
    | ShortCiphertext
    | SmallOutputBuffer
    | Aead
    | ChunkTooBig
    | TerminatedElsewhere

  datatype Outcome<T> = Done(value: T) | Failed(error: ConnectionError) | Panicked

  /** Splits off the tag and opens the rest, if the output has room for it. */
  function Decrypt(c: Cipher, nonce: Nonce, ciphertext: seq<Byte>, room: nat): Result<seq<Byte>, ConnectionError> {
    if |ciphertext| < TAG_SIZE then Err(ShortCiphertext)
    else
      var n := |ciphertext| - TAG_SIZE;
      if room < n then Err(SmallOutputBuffer)
      else
        match c.open(nonce, ciphertext[..n], ciphertext[n..])
        case None => Err(Aead)
        case Some(plain) => Ok(plain)
  }

  // ---- The writing end -----------------------------------------------------

  datatype Entry = Entry(nonce: Nonce, chunk: seq<Byte>)

  /**
   The writing end.  `log` lists the chunks that were sealed and the nonce of
   each; it is not part of the program's state.  `tick` counts the writes.
   */
  datatype Sender = Sender(
    nonce: Nonce, sent: seq<Byte>, log: seq<Entry>, terminated: bool, tick: nat)

  const NEW_SENDER := Sender(NonceAt(0), [], [], false, 0)

  /** For each write of a frame: nothing if all of it goes out, or else how much and the error. */
  type Faults = nat -> Option<(nat, nat)>

  function FirstChunk(data: seq<Byte>): (r: seq<Byte>)
    ensures r <= data && (data != [] ==> IsChunk(r))
  {
    if |data| <= DATA_MAX_SIZE then data else data[..DATA_MAX_SIZE]
  }

  /** Seals one chunk, moves the nonce on and writes the frame. */
  function WriteChunk(c: Cipher, faults: Faults, s: Sender, chunk: seq<Byte>): (Outcome<nat>, Sender) {
    match Encrypt(c, s.nonce, chunk)
    case None => (Panicked, s)
    case Some(frame) =>
      var log := s.log + [Entry(s.nonce, chunk)];
      match Increment(s.nonce)
      case None => (Panicked, s.(log := log))
      case Some(nonce) =>
        var fault := faults(s.tick);
        var s' := Sender(nonce, s.sent + Written(fault, frame), log, s.terminated, s.tick + 1);
        (if fault.None? then Done(|chunk|) else Failed(Io(fault.value.1)), s')
  }

  /** How much of a frame goes out. */
  function Written(fault: Option<(nat, nat)>, frame: seq<Byte>): (r: seq<Byte>)
    ensures r <= frame
  {
    if fault.None? || fault.value.0 >= |frame| then frame else frame[..fault.value.0]
  }

  /** What writing a chunk does to the sender. */
  type WriteStep = (Sender, seq<Byte>) -> (Outcome<nat>, Sender)

  function WriteStepOf(c: Cipher, faults: Faults): WriteStep {
    (s: Sender, chunk: seq<Byte>) => WriteChunk(c, faults, s, chunk)
  }

  /** Writes the data chunk by chunk, up to the first failure; `n` bytes have been written before. */
  function WriteChunks(step: WriteStep, s: Sender, data: seq<Byte>, n: nat): (Outcome<nat>, Sender)
    decreases |data|
  {
    if data == [] then (Done(n), s)
    else
      var chunk := FirstChunk(data);
      var (r, s') := step(s, chunk);
      if r.Done? then WriteChunks(step, s', data[|chunk|..], n + |chunk|) else (r, s')
  }

  /** One call to `write`: refused after an error, and an error ends the connection. */
  function Write(c: Cipher, faults: Faults, s: Sender, data: seq<Byte>): (Outcome<nat>, Sender) {
    if s.terminated then (Failed(TerminatedElsewhere), s)
    else
      var (r, s') := WriteChunks(WriteStepOf(c, faults), s, data, 0);
      (r, s'.(terminated := r.Failed?))
  }

  /** Writes in turn, until one panics. */
  function Writes(c: Cipher, faults: Faults, s: Sender, datas: seq<seq<Byte>>): Sender
    decreases |datas|
  {
    if datas == [] then s
    else
      var (r, s') := Write(c, faults, s, datas[0]);
      if r.Panicked? then s' else Writes(c, faults, s', datas[1..])
  }

  /** The bytes in the logged chunks. */
  function Plain(log: seq<Entry>): seq<Byte> {
    if log == [] then [] else Plain(log[..|log| - 1]) + log[|log| - 1].chunk
  }

  /** The frames of the logged chunks. */
  function Wire(c: Cipher, log: seq<Entry>): seq<Byte> {
    if log == [] then []
    else Wire(c, log[..|log| - 1]) + SealedFrame(c, log[|log| - 1].nonce, log[|log| - 1].chunk)
  }

  function Flatten(datas: seq<seq<Byte>>): seq<Byte> {
    if datas == [] then [] else datas[0] + Flatten(datas[1..])
  }

  /** Every frame has the nonce of its place. */
  ghost predicate Numbered(log: seq<Entry>) {
    && |log| <= TWO_64
    && forall i :: 0 <= i < |log| ==> log[i].nonce == NonceAt(i) && IsChunk(log[i].chunk)
  }

  /**
   What writing leaves: the nonce counts the frames, and the stream holds them in
   order, the last one perhaps in part if its write has failed.
   */
  ghost predicate Left(c: Cipher, r: Outcome<nat>, s: Sender) {
    && Numbered(s.log)
    && s.sent <= Wire(c, s.log)
    && (!r.Panicked? ==> |s.log| < TWO_64 && s.nonce == NonceAt(|s.log|))
    && (r.Done? ==> s.sent == Wire(c, s.log))
  }

  /** A sender between two calls. */
  ghost predicate SenderOk(c: Cipher, s: Sender) {
    Left(c, if s.terminated then Failed(TerminatedElsewhere) else Done(0), s)
  }

  lemma LogOneMore(c: Cipher, log: seq<Entry>, nonce: Nonce, chunk: seq<Byte>)
    ensures var more := log + [Entry(nonce, chunk)];
            Plain(more) == Plain(log) + chunk && Wire(c, more) == Wire(c, log) + SealedFrame(c, nonce, chunk)
  {
    var more := log + [Entry(nonce, chunk)];
    assert more[..|more| - 1] == log;
  }

  lemma NumberedOneMore(log: seq<Entry>, chunk: seq<Byte>)
    requires Numbered(log) && |log| < TWO_64 && IsChunk(chunk)
    ensures Numbered(log + [Entry(NonceAt(|log|), chunk)])
  {
  }

  lemma SentMore(sent: seq<Byte>, written: seq<Byte>, frame: seq<Byte>)
    requires written <= frame
    ensures sent <= sent + written <= sent + frame
  {
  }

  /** What sealing a chunk and writing some of its frame leaves. */
  lemma FrameLeaves(c: Cipher, s: Sender, chunk: seq<Byte>, written: seq<Byte>, r: Outcome<nat>, s': Sender)
    requires Left(c, Done(0), s) && IsChunk(chunk)
    requires s'.log == s.log + [Entry(s.nonce, chunk)] && s'.sent == s.sent + written
    requires var frame := SealedFrame(c, s.nonce, chunk); written <= frame && (r.Done? ==> written == frame)
    requires !r.Panicked? ==> |s'.log| < TWO_64 && s'.nonce == NonceAt(|s'.log|)
    ensures Left(c, r, s') && Plain(s'.log) == Plain(s.log) + chunk
  {
    LogOneMore(c, s.log, s.nonce, chunk);
    NumberedOneMore(s.log, chunk);
    SentMore(s.sent, written, SealedFrame(c, s.nonce, chunk));
  }

  /** The frame is written with the next nonce in place, or the counter is at its end. */
  lemma WriteChunkSteps(c: Cipher, faults: Faults, s: Sender, chunk: seq<Byte>) returns (written: seq<Byte>)
    requires |s.log| < TWO_64 && s.nonce == NonceAt(|s.log|) && IsChunk(chunk)
    ensures var (r, s') := WriteChunk(c, faults, s, chunk);
            && s'.log == s.log + [Entry(s.nonce, chunk)] && s'.sent == s.sent + written
            && (var frame := SealedFrame(c, s.nonce, chunk); written <= frame && (r.Done? ==> written == frame))
            && (!r.Panicked? ==> |s'.log| < TWO_64 && s'.nonce == NonceAt(|s'.log|))
            && s'.terminated == s.terminated
  {
    IncrementCounts(|s.log|);
    if |s.log| + 1 < TWO_64 {
      written := Written(faults(s.tick), SealedFrame(c, s.nonce, chunk));
    } else {
      written := [];
      assert s.sent + [] == s.sent;
    }
  }

  lemma WriteChunkLeaves(c: Cipher, faults: Faults, s: Sender, chunk: seq<Byte>)
    requires Left(c, Done(0), s) && IsChunk(chunk)
    ensures ChunkLeaves(LeftOn(c), Plain, s, chunk, WriteChunk(c, faults, s, chunk))
  {
    var written := WriteChunkSteps(c, faults, s, chunk);
    var (r, s') := WriteChunk(c, faults, s, chunk);
    FrameLeaves(c, s, chunk, written, r, s');
  }

  lemma PlainGrows(before: seq<Byte>, data: seq<Byte>, later: seq<Byte>, after: seq<Byte>)
    requires before <= after <= before + data
    ensures before <= after <= before + (data + later)
    ensures after == before + data ==> after + later == before + (data + later)
  {
    assert before + (data + later) == before + data + later;
  }

  /** Of an outcome and the sender it leaves. */
  type WriteProperty = (Outcome<nat>, Sender) -> bool

  /** After one chunk: the property again, and the chunk behind all earlier ones. */
  ghost predicate ChunkLeaves(
    left: WriteProperty, plain: seq<Entry> -> seq<Byte>, s: Sender, chunk: seq<Byte>, after: (Outcome<nat>, Sender))
  {
    var (r, s') := after;
    && left(r, s') && s'.terminated == s.terminated && plain(s'.log) == plain(s.log) + chunk
    && (r.Done? ==> left(Done(0), s'))
  }

  ghost predicate EveryChunkLeaves(step: WriteStep, left: WriteProperty, plain: seq<Entry> -> seq<Byte>) {
    forall s, chunk {:trigger step(s, chunk)} ::
      left(Done(0), s) && IsChunk(chunk) ==> ChunkLeaves(left, plain, s, chunk, step(s, chunk))
  }

  /** The chunks of a write are its data in order, all of it if the write succeeds. */
  ghost predicate DataLeaves(
    left: WriteProperty, plain: seq<Entry> -> seq<Byte>, s: Sender, data: seq<Byte>, n: nat,
    after: (Outcome<nat>, Sender))
  {
    var (r, s') := after;
    && (r.Done? || left(r, s')) && s'.terminated == s.terminated
    && plain(s.log) <= plain(s'.log) <= plain(s.log) + data
    && (r.Done? ==> left(Done(0), s') && r.value == n + |data| && plain(s'.log) == plain(s.log) + data)
  }

  lemma {:induction false} ChunksLeave(
    step: WriteStep, left: WriteProperty, plain: seq<Entry> -> seq<Byte>, s: Sender, data: seq<Byte>, n: nat)
    requires EveryChunkLeaves(step, left, plain) && left(Done(0), s)
    ensures DataLeaves(left, plain, s, data, n, WriteChunks(step, s, data, n))
    decreases |data|
  {
    if data == [] {
      assert plain(s.log) + data == plain(s.log);
    } else {
      var chunk := FirstChunk(data);
      var rest := data[|chunk|..];
      var (r, s1) := step(s, chunk);
      assert ChunkLeaves(left, plain, s, chunk, step(s, chunk));
      assert data == chunk + rest;
      PlainGrows(plain(s.log), chunk, rest, plain(s1.log));
      if r.Done? {
        ChunksLeave(step, left, plain, s1, rest, n + |chunk|);
      }
    }
  }

  ghost function LeftOn(c: Cipher): WriteProperty {
    (r: Outcome<nat>, s: Sender) => Left(c, r, s)
  }

  lemma WriteStepLeaves(c: Cipher, faults: Faults)
    ensures EveryChunkLeaves(WriteStepOf(c, faults), LeftOn(c), Plain)
  {
    forall s, chunk | Left(c, Done(0), s) && IsChunk(chunk)
      ensures ChunkLeaves(LeftOn(c), Plain, s, chunk, WriteStepOf(c, faults)(s, chunk))
    {
      WriteChunkLeaves(c, faults, s, chunk);
    }
  }

  lemma WriteLeaves(c: Cipher, faults: Faults, s: Sender, data: seq<Byte>)
    requires SenderOk(c, s)
    ensures var (r, s') := Write(c, faults, s, data);
            && (if r.Panicked? then Left(c, r, s') else SenderOk(c, s'))
            && Plain(s.log) <= Plain(s'.log) <= Plain(s.log) + data
            && (r.Done? ==> r.value == |data| && Plain(s'.log) == Plain(s.log) + data && !s'.terminated)
            && (r.Failed? ==> s'.terminated)
            && (s.terminated ==> s' == s)
  {
    if !s.terminated {
      WriteStepLeaves(c, faults);
      ChunksLeave(WriteStepOf(c, faults), LeftOn(c), Plain, s, data, 0);
    }
  }

  /** The writes have not panicked. */
  predicate WritesGoOn(c: Cipher, faults: Faults, s: Sender, datas: seq<seq<Byte>>)
    decreases |datas|
  {
    datas == [] ||
    var (r, s') := Write(c, faults, s, datas[0]);
    !r.Panicked? && WritesGoOn(c, faults, s', datas[1..])
  }

  /** Everything that has been sealed is a first part of what was to be written, frame by frame on the stream. */
  lemma {:induction false} WritesLeave(c: Cipher, faults: Faults, s: Sender, datas: seq<seq<Byte>>)
    requires SenderOk(c, s)
    ensures var s' := Writes(c, faults, s, datas);
            && Numbered(s'.log) && s'.sent <= Wire(c, s'.log)
            && Plain(s.log) <= Plain(s'.log) <= Plain(s.log) + Flatten(datas)
            && (WritesGoOn(c, faults, s, datas) ==>
                  SenderOk(c, s') && (!s'.terminated ==> Plain(s'.log) == Plain(s.log) + Flatten(datas)))
            && (s.terminated ==> s'.terminated)
    decreases |datas|
  {
    if datas == [] {
      assert Plain(s.log) + Flatten(datas) == Plain(s.log);
    } else {
      var (r, s1) := Write(c, faults, s, datas[0]);
      WriteLeaves(c, faults, s, datas[0]);
      PlainGrows(Plain(s.log), datas[0], Flatten(datas[1..]), Plain(s1.log));
      if !r.Panicked? {
        WritesLeave(c, faults, s1, datas[1..]);
        if s1.terminated {
          TerminatedWrites(c, faults, s1, datas[1..]);
        }
      }
    }
  }

  lemma {:induction false} TerminatedWrites(c: Cipher, faults: Faults, s: Sender, datas: seq<seq<Byte>>)
    requires s.terminated
    ensures Writes(c, faults, s, datas) == s
    decreases |datas|
  {
    if datas != [] {
      TerminatedWrites(c, faults, s, datas[1..]);
    }
  }

  // ---- The reading end -----------------------------------------------------

  datatype Receiver = Receiver(nonce: Nonce, buffer: seq<Byte>, incoming: seq<Byte>, terminated: bool)

  /** Takes a sealed frame off the stream and gives the chunk in it. */
  function ReadFrame(c: Cipher, r: Receiver): (Outcome<seq<Byte>>, Receiver)
    requires InPlace(c)
  {
    if |r.incoming| < SEALED_SIZE then (Failed(UnexpectedEof), r.(incoming := []))
    else
      var r1 := r.(incoming := r.incoming[SEALED_SIZE..]);
      match Decrypt(c, r.nonce, r.incoming[..SEALED_SIZE], TOTAL_FRAME_SIZE)
      case Err(e) => (Failed(e), r1)
      case Ok(frame) =>
        match Increment(r.nonce)
        case None => (Panicked, r1)
        case Some(nonce) =>
          match ChunkIn(frame)
          case None => (Failed(ChunkTooBig), r1.(nonce := nonce))
          case Some(chunk) => (Done(chunk), r1.(nonce := nonce))
  }

  function Min(a: nat, b: nat): nat {
    if a <= b then a else b
  }

  /**
   Reads into a destination of the given size, first what is buffered.  Copying
   into a slice of another length panics: the destination from the buffer, and
   the buffer from what is left of the chunk.
   */
  function ReadAndDecrypt(c: Cipher, r: Receiver, size: nat): (Outcome<seq<Byte>>, Receiver)
    requires InPlace(c)
  {
    if r.buffer != [] then
      var n := Min(size, |r.buffer|);
      if size != n then (Panicked, r) else (Done(r.buffer[..n]), r.(buffer := r.buffer[n..]))
    else
      var (f, r') := ReadFrame(c, r);
      match f
      case Failed(e) => (Failed(e), r')
      case Panicked => (Panicked, r')
      case Done(chunk) =>
        var n := Min(size, |chunk|);
        if |r'.buffer| != |chunk| - n then (Panicked, r')
        else (Done(chunk[..n]), r'.(buffer := chunk[n..]))
  }

  /** One call to `read`. */
  function Read(c: Cipher, r: Receiver, size: nat): (Outcome<seq<Byte>>, Receiver)
    requires InPlace(c)
  {
    if r.terminated then (Failed(TerminatedElsewhere), r)
    else
      var (o, r') := ReadAndDecrypt(c, r, size);
      (o, r'.(terminated := o.Failed?))
  }

  type ReadStep = (Receiver, nat) -> (Outcome<seq<Byte>>, Receiver)

  function ReadStepOf(c: Cipher): ReadStep
    requires InPlace(c)
  {
    (r: Receiver, size: nat) => Read(c, r, size)
  }

  /**
   Reads in turn, until one panics: the bytes read, the number of successful
   reads, the state, and whether one has panicked.
   */
  function Reads(step: ReadStep, r: Receiver, sizes: seq<nat>): (seq<Byte>, nat, Receiver, bool)
    decreases |sizes|
  {
    if sizes == [] then ([], 0, r, false)
    else
      var (o, r') := step(r, sizes[0]);
      if o.Panicked? then ([], 0, r', true)
      else
        var (bytes, n, end, panicked) := Reads(step, r', sizes[1..]);
        if o.Done? then (o.value + bytes, n + 1, end, panicked) else (bytes, n, end, panicked)
  }

  // ---- Both ends in step ---------------------------------------------------

  /** What the stream offers as a frame opens with the `k`-th nonce. */
  predicate Opens(c: Cipher, k: nat, incoming: seq<Byte>)
    requires |incoming| >= SEALED_SIZE
  {
    c.open(NonceAt(k), incoming[..TOTAL_FRAME_SIZE], incoming[TOTAL_FRAME_SIZE..SEALED_SIZE]).Some?
  }

  /** From the `k`-th frame on, up to the last nonce, whatever opens is the frame of that number. */
  ghost predicate Genuine(c: Cipher, log: seq<Entry>, k: nat, incoming: seq<Byte>)
    decreases |incoming|
  {
    k < TWO_64 && |incoming| >= SEALED_SIZE && Opens(c, k, incoming) ==>
      && k < |log|
      && c.open(NonceAt(k), incoming[..TOTAL_FRAME_SIZE], incoming[TOTAL_FRAME_SIZE..SEALED_SIZE])
         == Some(FrameOf(log[k].chunk))
      && Genuine(c, log, k + 1, incoming[SEALED_SIZE..])
  }

  /** A receiver that has read `k` frames, with nothing buffered. */
  ghost predicate ReceiverOk(c: Cipher, log: seq<Entry>, k: nat, r: Receiver) {
    && k <= |log| && Numbered(log)
    && r.buffer == []
    && k < TWO_64 && r.nonce == NonceAt(k)
    && (!r.terminated ==> Genuine(c, log, k, r.incoming))
  }

  lemma ReadFrameKeeps(c: Cipher, log: seq<Entry>, k: nat, r: Receiver)
    requires InPlace(c) && ReceiverOk(c, log, k, r) && !r.terminated
    ensures var (o, r') := ReadFrame(c, r);
            && r'.buffer == [] && r'.terminated == r.terminated
            && (o.Done? ==> k < |log| && o.value == log[k].chunk && ReceiverOk(c, log, k + 1, r'))
            && (o.Failed? ==> r'.nonce == r.nonce)
            && (o.Panicked? ==> k + 1 == TWO_64)
  {
    if |r.incoming| >= SEALED_SIZE {
      var sealed := r.incoming[..SEALED_SIZE];
      assert sealed[..TOTAL_FRAME_SIZE] == r.incoming[..TOTAL_FRAME_SIZE];
      assert sealed[TOTAL_FRAME_SIZE..] == r.incoming[TOTAL_FRAME_SIZE..SEALED_SIZE];
      IncrementCounts(k);
      if Opens(c, k, r.incoming) {
        FrameRoundTrip(log[k].chunk);
      }
    }
  }

  /**
   A read gives the next chunk whole and leaves nothing buffered, so the branch
   that reads from the buffer is never taken.  It panics exactly if the
   destination is shorter than the chunk, or the counter is at its end.
   */
  lemma ReadKeeps(c: Cipher, log: seq<Entry>, k: nat, r: Receiver, size: nat)
    requires InPlace(c) && ReceiverOk(c, log, k, r)
    ensures var (o, r') := Read(c, r, size);
            && (o.Done? ==> k < |log| && o.value == log[k].chunk && ReceiverOk(c, log, k + 1, r'))
            && (o.Failed? ==> r'.terminated && ReceiverOk(c, log, k, r'))
            && (o.Panicked? ==> k + 1 == TWO_64 || (k < |log| && size < |log[k].chunk|))
            && (k < |log| && size < |log[k].chunk| ==> !o.Done?)
  {
    if !r.terminated {
      ReadFrameKeeps(c, log, k, r);
    }
  }

  lemma PlainStep(log: seq<Entry>, k: nat)
    requires k < |log|
    ensures Plain(log[..k + 1]) == Plain(log[..k]) + log[k].chunk
  {
    assert log[..k + 1][..k] == log[..k];
  }

  lemma Associative(a: seq<Byte>, b: seq<Byte>, c: seq<Byte>)
    ensures a + (b + c) == a + b + c
  {
  }

  /** The bytes of the first `k` frames, and whether a receiver has read just these. */
  type Prefixes = nat -> seq<Byte>
  type HasRead = (nat, Receiver) -> bool

  /** A successful read gives the bytes of the next frame. */
  ghost predicate ReadsNext(total: Prefixes, ok: HasRead, k: nat, o: Outcome<seq<Byte>>, r: Receiver) {
    && (o.Done? ==> ok(k + 1, r) && total(k + 1) == total(k) + o.value)
    && (o.Failed? ==> ok(k, r))
  }

  ghost predicate EveryReadIsNext(step: ReadStep, total: Prefixes, ok: HasRead) {
    forall k: nat, r, size: nat {:trigger ok(k, r), step(r, size)} ::
      ok(k, r) ==> ReadsNext(total, ok, k, step(r, size).0, step(r, size).1)
  }

  lemma {:induction false} ReadsAreNextFrames(
    step: ReadStep, total: Prefixes, ok: HasRead, k: nat, r: Receiver, sizes: seq<nat>) returns (last: Receiver)
    requires EveryReadIsNext(step, total, ok) && ok(k, r)
    ensures var (bytes, n, end, panicked) := Reads(step, r, sizes);
            && total(k) + bytes == total(k + n)
            && ok(k + n, last) && (!panicked ==> last == end)
    decreases |sizes|
  {
    last := r;
    if sizes == [] {
      assert total(k) + [] == total(k);
    } else {
      var (o, r') := step(r, sizes[0]);
      assert ReadsNext(total, ok, k, o, r');
      if o.Done? {
        last := ReadsAreNextFrames(step, total, ok, k + 1, r', sizes[1..]);
        Associative(total(k), o.value, Reads(step, r', sizes[1..]).0);
      } else if o.Failed? {
        last := ReadsAreNextFrames(step, total, ok, k, r', sizes[1..]);
      } else {
        assert total(k) + [] == total(k);
      }
    }
  }

  ghost function PlainUpTo(log: seq<Entry>): Prefixes {
    (k: nat) => Plain(log[..Min(k, |log|)])
  }

  ghost function ReceiverOn(c: Cipher, log: seq<Entry>): HasRead {
    (k: nat, r: Receiver) => ReceiverOk(c, log, k, r)
  }

  lemma ReadStepIsNext(c: Cipher, log: seq<Entry>)
    requires InPlace(c)
    ensures EveryReadIsNext(ReadStepOf(c), PlainUpTo(log), ReceiverOn(c, log))
  {
    forall k: nat, r, size: nat | ReceiverOk(c, log, k, r)
      ensures var (o, r') := ReadStepOf(c)(r, size);
              ReadsNext(PlainUpTo(log), ReceiverOn(c, log), k, o, r')
    {
      ReadKeeps(c, log, k, r, size);
      if k < |log| {
        PlainStep(log, k);
      }
    }
  }

  /** A receiver at the start of a connection. */
  function NewReceiver(incoming: seq<Byte>): Receiver {
    Receiver(NonceAt(0), [], incoming, false)
  }

  lemma StartOk(c: Cipher, log: seq<Entry>, incoming: seq<Byte>)
    requires Numbered(log) && Genuine(c, log, 0, incoming)
    ensures ReceiverOn(c, log)(0, NewReceiver(incoming))
    ensures forall bytes :: PlainUpTo(log)(0) + bytes == bytes
  {
    assert log[..0] == [];
    forall bytes
      ensures PlainUpTo(log)(0) + bytes == bytes
    {
      assert [] + bytes == bytes;
    }
  }

  lemma ReadSoFar(c: Cipher, log: seq<Entry>, k: nat, r: Receiver)
    requires ReceiverOn(c, log)(k, r)
    ensures k <= |log| && PlainUpTo(log)(k) == Plain(log[..k]) && r.nonce == NonceAt(k) && r.buffer == []
  {
  }

  /**
   If whatever opens is genuine, the bytes read are those of the first frames, one
   frame for each successful read, and the nonce counts them.
   */
  lemma GenuineReads(c: Cipher, log: seq<Entry>, incoming: seq<Byte>, sizes: seq<nat>)
    requires InPlace(c) && Numbered(log) && Genuine(c, log, 0, incoming)
    ensures var (bytes, n, end, panicked) := Reads(ReadStepOf(c), NewReceiver(incoming), sizes);
            && n <= |log| && bytes == Plain(log[..n])
            && (!panicked ==> end.nonce == NonceAt(n) && end.buffer == [])
  {
    var step, total, ok := ReadStepOf(c), PlainUpTo(log), ReceiverOn(c, log);
    ReadStepIsNext(c, log);
    StartOk(c, log, incoming);
    var last := ReadsAreNextFrames(step, total, ok, 0, NewReceiver(incoming), sizes);
    ReadSoFar(c, log, Reads(step, NewReceiver(incoming), sizes).1, last);
  }

  // ---- Which streams are genuine -------------------------------------------

  lemma {:induction false} WirePrefix(c: Cipher, log: seq<Entry>, k: nat)
    requires k <= |log|
    ensures Wire(c, log[..k]) <= Wire(c, log)
    decreases |log|
  {
    if k == |log| {
      assert log[..k] == log;
    } else {
      var shorter := log[..|log| - 1];
      assert shorter[..k] == log[..k];
      WirePrefix(c, shorter, k);
    }
  }

  lemma SealedSize(c: Cipher, nonce: Nonce, chunk: seq<Byte>)
    requires Inverse(c) && IsChunk(chunk)
    ensures var sealed := SealedFrame(c, nonce, chunk);
            && |sealed| == SEALED_SIZE
            && c.open(nonce, sealed[..TOTAL_FRAME_SIZE], sealed[TOTAL_FRAME_SIZE..]) == Some(FrameOf(chunk))
  {
    assert SealsAndOpens(c, nonce, FrameOf(chunk));
    var (text, tag) := c.seal(nonce, FrameOf(chunk));
    assert (text + tag)[..TOTAL_FRAME_SIZE] == text && (text + tag)[TOTAL_FRAME_SIZE..] == tag;
  }

  /** The stream starts after `k` frames and may end early. */
  ghost predicate Honest(c: Cipher, log: seq<Entry>, k: nat, incoming: seq<Byte>) {
    k <= |log| && Numbered(log) && Wire(c, log[..k]) + incoming <= Wire(c, log)
  }

  lemma PrefixesAgree(before: seq<Byte>, incoming: seq<Byte>, frame: seq<Byte>, all: seq<Byte>)
    requires before + incoming <= all && before + frame <= all && |incoming| >= |frame|
    ensures incoming[..|frame|] == frame
    ensures before + frame + incoming[|frame|..] == before + incoming
  {
    assert (before + incoming)[|before|..][..|frame|] == (before + frame)[|before|..];
    assert incoming == frame + incoming[|frame|..];
  }

  /** A whole frame on an honest stream is the next one. */
  lemma HonestFrame(c: Cipher, log: seq<Entry>, k: nat, incoming: seq<Byte>)
    requires Inverse(c) && Honest(c, log, k, incoming) && |incoming| >= SEALED_SIZE
    ensures k < |log| && incoming[..SEALED_SIZE] == SealedFrame(c, log[k].nonce, log[k].chunk)
    ensures Honest(c, log, k + 1, incoming[SEALED_SIZE..])
  {
    assert log[..|log|] == log;
    var frame := SealedFrame(c, log[k].nonce, log[k].chunk);
    SealedSize(c, log[k].nonce, log[k].chunk);
    WirePrefix(c, log, k + 1);
    assert log[..k + 1][..k] == log[..k];
    PrefixesAgree(Wire(c, log[..k]), incoming, frame, Wire(c, log));
  }

  lemma {:induction false} HonestIsGenuine(c: Cipher, log: seq<Entry>, k: nat, incoming: seq<Byte>)
    requires Inverse(c) && Honest(c, log, k, incoming)
    ensures Genuine(c, log, k, incoming)
    decreases |incoming|
  {
    if |incoming| >= SEALED_SIZE {
      HonestFrame(c, log, k, incoming);
      SealedSize(c, log[k].nonce, log[k].chunk);
      var sealed := incoming[..SEALED_SIZE];
      assert sealed[..TOTAL_FRAME_SIZE] == incoming[..TOTAL_FRAME_SIZE];
      assert sealed[TOTAL_FRAME_SIZE..] == incoming[TOTAL_FRAME_SIZE..SEALED_SIZE];
      HonestIsGenuine(c, log, k + 1, incoming[SEALED_SIZE..]);
    }
  }

  /** The stream from its `j`-th frame on. */
  function FromFrame(incoming: seq<Byte>, j: nat): seq<Byte> {
    if j * SEALED_SIZE <= |incoming| then incoming[j * SEALED_SIZE..] else []
  }

  /** Nobody else has made a frame that opens: each that does is the writer's, at its own number. */
  ghost predicate Unforged(c: Cipher, log: seq<Entry>, incoming: seq<Byte>) {
    forall j: nat, k: nat :: k < TWO_64 ==> UnforgedAt(c, log, k, FromFrame(incoming, j))
  }

  ghost predicate UnforgedAt(c: Cipher, log: seq<Entry>, k: nat, incoming: seq<Byte>) {
    |incoming| >= SEALED_SIZE && Opens(c, k, incoming) ==>
      && k < |log|
      && c.open(NonceAt(k), incoming[..TOTAL_FRAME_SIZE], incoming[TOTAL_FRAME_SIZE..SEALED_SIZE])
         == Some(FrameOf(log[k].chunk))
  }

  lemma {:induction false} UnforgedIsGenuine(c: Cipher, log: seq<Entry>, incoming: seq<Byte>, j: nat, k: nat)
    requires Unforged(c, log, incoming)
    ensures Genuine(c, log, k, FromFrame(incoming, j))
    decreases |incoming| - j
  {
    var here := FromFrame(incoming, j);
    if k < TWO_64 && |here| >= SEALED_SIZE && Opens(c, k, here) {
      assert UnforgedAt(c, log, k, here);
      UnforgedIsGenuine(c, log, incoming, j + 1, k + 1);
      assert here[SEALED_SIZE..] == FromFrame(incoming, j + 1);
    }
  }

  /** What somebody on the way can put on the stream: the writer's frames, and others of the same size. */
  datatype Piece = Own(i: nat) | Foreign(bytes: seq<Byte>)

  ghost predicate NeverOpens(c: Cipher, bytes: seq<Byte>) {
    |bytes| == SEALED_SIZE && forall k: nat :: k < TWO_64 ==> !Opens(c, k, bytes)
  }

  ghost predicate Unforging(c: Cipher, log: seq<Entry>, p: Piece) {
    match p
    case Own(i) => i < |log|
    case Foreign(bytes) => NeverOpens(c, bytes)
  }

  ghost predicate AllUnforging(c: Cipher, log: seq<Entry>, pieces: seq<Piece>) {
    forall i :: 0 <= i < |pieces| ==> Unforging(c, log, pieces[i])
  }

  /** A frame of the writer opens with no nonce but its own. */
  ghost predicate OwnNonceOnly(c: Cipher, log: seq<Entry>) {
    forall i: nat, k: nat :: i < |log| && k < TWO_64 && i != k ==> ClosedTo(c, log[i], k)
  }

  ghost predicate ClosedTo(c: Cipher, e: Entry, k: nat) {
    var sealed := SealedFrame(c, e.nonce, e.chunk);
    |sealed| == SEALED_SIZE && !Opens(c, k, sealed)
  }

  function PieceBytes(c: Cipher, log: seq<Entry>, p: Piece): seq<Byte> {
    match p
    case Own(i) => if i < |log| then SealedFrame(c, log[i].nonce, log[i].chunk) else []
    case Foreign(bytes) => bytes
  }

  /** The pieces one after the other, and part of one at the end. */
  function Tampered(c: Cipher, log: seq<Entry>, pieces: seq<Piece>, tail: seq<Byte>): seq<Byte> {
    if pieces == [] then tail else PieceBytes(c, log, pieces[0]) + Tampered(c, log, pieces[1..], tail)
  }

  lemma PieceIsUnforged(c: Cipher, log: seq<Entry>, p: Piece, more: seq<Byte>, k: nat)
    requires Inverse(c) && Numbered(log) && OwnNonceOnly(c, log) && Unforging(c, log, p) && k < TWO_64
    ensures |PieceBytes(c, log, p)| == SEALED_SIZE
    ensures UnforgedAt(c, log, k, PieceBytes(c, log, p) + more)
  {
    var bytes := PieceBytes(c, log, p);
    if p.Own? {
      SealedSize(c, log[p.i].nonce, log[p.i].chunk);
      assert p.i != k ==> ClosedTo(c, log[p.i], k);
    } else {
      assert !Opens(c, k, bytes);
    }
    assert (bytes + more)[..TOTAL_FRAME_SIZE] == bytes[..TOTAL_FRAME_SIZE];
    assert (bytes + more)[TOTAL_FRAME_SIZE..SEALED_SIZE] == bytes[TOTAL_FRAME_SIZE..SEALED_SIZE];
    assert bytes[TOTAL_FRAME_SIZE..SEALED_SIZE] == bytes[TOTAL_FRAME_SIZE..];
  }

  lemma {:induction false} PiecesAreUnforgedAt(
    c: Cipher, log: seq<Entry>, pieces: seq<Piece>, tail: seq<Byte>, j: nat, k: nat)
    requires Inverse(c) && Numbered(log) && OwnNonceOnly(c, log) && k < TWO_64
    requires AllUnforging(c, log, pieces) && |tail| < SEALED_SIZE
    ensures UnforgedAt(c, log, k, FromFrame(Tampered(c, log, pieces, tail), j))
    decreases |pieces|
  {
    var all := Tampered(c, log, pieces, tail);
    if pieces != [] {
      var first, rest := PieceBytes(c, log, pieces[0]), Tampered(c, log, pieces[1..], tail);
      PieceIsUnforged(c, log, pieces[0], rest, k);
      if j == 0 {
        assert FromFrame(all, 0) == all;
      } else {
        PiecesAreUnforgedAt(c, log, pieces[1..], tail, j - 1, k);
        LaterFrames(first, rest, j);
      }
    }
  }

  lemma LaterFrames(first: seq<Byte>, rest: seq<Byte>, j: nat)
    requires |first| == SEALED_SIZE && j > 0
    ensures FromFrame(first + rest, j) == FromFrame(rest, j - 1)
  {
  }

  /** A stream that drops, repeats and reorders frames, and adds others that do not open, is unforged. */
  lemma TamperedIsUnforged(c: Cipher, log: seq<Entry>, pieces: seq<Piece>, tail: seq<Byte>)
    requires Inverse(c) && Numbered(log) && OwnNonceOnly(c, log)
    requires AllUnforging(c, log, pieces) && |tail| < SEALED_SIZE
    ensures Unforged(c, log, Tampered(c, log, pieces, tail))
  {
    forall j: nat, k: nat | k < TWO_64
      ensures UnforgedAt(c, log, k, FromFrame(Tampered(c, log, pieces, tail), j))
    {
      PiecesAreUnforgedAt(c, log, pieces, tail, j, k);
    }
  }

  function NonceTag(nonce: Nonce): (r: seq<Byte>)
    ensures |r| == TAG_SIZE
  {
    if |nonce| == NONCE_SIZE then nonce + Padding(TAG_SIZE - NONCE_SIZE) else Padding(TAG_SIZE)
  }

  /** Nothing is hidden, but every frame is bound to its nonce. */
  const TAGGING_CIPHER := Cipher(
    (nonce: Nonce, plain: seq<Byte>) => (plain, NonceTag(nonce)),
    (nonce: Nonce, text: seq<Byte>, tag: seq<Byte>) => if tag == NonceTag(nonce) then Some(text) else None)

  lemma TagsDiffer(j: nat, k: nat)
    requires j < TWO_64 && k < TWO_64 && j != k
    ensures NonceTag(NonceAt(j)) != NonceTag(NonceAt(k))
  {
    NoncesDiffer(j, k);
    assert NonceTag(NonceAt(j))[..NONCE_SIZE] == NonceAt(j);
    assert NonceTag(NonceAt(k))[..NONCE_SIZE] == NonceAt(k);
  }

  /** Ciphers that meet both demands exist. */
  lemma SuchCiphersExist(log: seq<Entry>)
    requires Numbered(log)
    ensures Inverse(TAGGING_CIPHER) && OwnNonceOnly(TAGGING_CIPHER, log)
  {
    var c := TAGGING_CIPHER;
    forall i: nat, k: nat | i < |log| && k < TWO_64 && i != k
      ensures ClosedTo(c, log[i], k)
    {
      var frame := FrameOf(log[i].chunk);
      var sealed := frame + NonceTag(log[i].nonce);
      assert sealed[TOTAL_FRAME_SIZE..SEALED_SIZE] == NonceTag(log[i].nonce);
      TagsDiffer(i, k);
    }
  }

  // ---- Main results --------------------------------------------------------

  /** The nonces of the frames are all different. */
  lemma NoNonceRepeats(log: seq<Entry>, i: nat, j: nat)
    requires Numbered(log) && i < j < |log|
    ensures log[i].nonce != log[j].nonce
  {
    NoncesDiffer(i, j);
  }

  lemma NewSenderOk(c: Cipher)
    ensures SenderOk(c, NEW_SENDER)
  {
  }

  lemma {:induction false} PlainPrefix(log: seq<Entry>, k: nat)
    requires k <= |log|
    ensures Plain(log[..k]) <= Plain(log)
    decreases |log|
  {
    if k == |log| {
      assert log[..k] == log;
    } else {
      var shorter := log[..|log| - 1];
      assert shorter[..k] == log[..k];
      PlainPrefix(shorter, k);
    }
  }

  /**
   The bytes read are a first part of the bytes written, those of one frame for
   each successful read, both nonces count the frames of their end, and each
   frame has the nonce of its place.
   */
  ghost predicate InStep(c: Cipher, faults: Faults, datas: seq<seq<Byte>>, incoming: seq<Byte>, sizes: seq<nat>)
    requires InPlace(c)
  {
    var s := Writes(c, faults, NEW_SENDER, datas);
    var (bytes, n, end, panicked) := Reads(ReadStepOf(c), NewReceiver(incoming), sizes);
    && bytes <= Flatten(datas)
    && n <= |s.log| && bytes == Plain(s.log[..n])
    && (!panicked ==> end.nonce == NonceAt(n))
    && (WritesGoOn(c, faults, NEW_SENDER, datas) ==> s.nonce == NonceAt(|s.log|))
    && Numbered(s.log)
  }

  lemma GenuineIsInStep(c: Cipher, faults: Faults, datas: seq<seq<Byte>>, incoming: seq<Byte>, sizes: seq<nat>)
    requires InPlace(c) && Genuine(c, Writes(c, faults, NEW_SENDER, datas).log, 0, incoming)
    ensures InStep(c, faults, datas, incoming, sizes)
  {
    var s := Writes(c, faults, NEW_SENDER, datas);
    NewSenderOk(c);
    WritesLeave(c, faults, NEW_SENDER, datas);
    assert [] + Flatten(datas) == Flatten(datas);
    GenuineReads(c, s.log, incoming, sizes);
    PlainPrefix(s.log, Reads(ReadStepOf(c), NewReceiver(incoming), sizes).1);
  }

  /** Any writes against any reads over an honest stream, cut anywhere, are in step. */
  lemma Lockstep(c: Cipher, faults: Faults, datas: seq<seq<Byte>>, incoming: seq<Byte>, sizes: seq<nat>)
    requires Inverse(c)
    requires incoming <= Writes(c, faults, NEW_SENDER, datas).sent
    ensures InStep(c, faults, datas, incoming, sizes)
  {
    var s := Writes(c, faults, NEW_SENDER, datas);
    NewSenderOk(c);
    WritesLeave(c, faults, NEW_SENDER, datas);
    StartIsHonest(c, s.log, incoming);
    HonestIsGenuine(c, s.log, 0, incoming);
    GenuineIsInStep(c, faults, datas, incoming, sizes);
  }

  lemma StartIsHonest(c: Cipher, log: seq<Entry>, incoming: seq<Byte>)
    requires Numbered(log) && incoming <= Wire(c, log)
    ensures Honest(c, log, 0, incoming)
  {
    assert log[..0] == [] && [] + incoming == incoming;
  }

  /** So they are over any other stream, as long as nothing on it is forged. */
  lemma UnforgedLockstep(c: Cipher, faults: Faults, datas: seq<seq<Byte>>, incoming: seq<Byte>, sizes: seq<nat>)
    requires InPlace(c)
    requires Unforged(c, Writes(c, faults, NEW_SENDER, datas).log, incoming)
    ensures InStep(c, faults, datas, incoming, sizes)
  {
    UnforgedIsGenuine(c, Writes(c, faults, NEW_SENDER, datas).log, incoming, 0, 0);
    assert FromFrame(incoming, 0) == incoming;
    GenuineIsInStep(c, faults, datas, incoming, sizes);
  }

  /**
   Whoever drops, repeats or reorders frames, or adds some that do not open, only
   makes the reader stop early.
   */
  lemma TamperedLockstep(
    c: Cipher, faults: Faults, datas: seq<seq<Byte>>, pieces: seq<Piece>, tail: seq<Byte>, sizes: seq<nat>)
    requires Inverse(c) && |tail| < SEALED_SIZE
    requires var log := Writes(c, faults, NEW_SENDER, datas).log; OwnNonceOnly(c, log) && AllUnforging(c, log, pieces)
    ensures InStep(c, faults, datas, Tampered(c, Writes(c, faults, NEW_SENDER, datas).log, pieces, tail), sizes)
  {
    var log := Writes(c, faults, NEW_SENDER, datas).log;
    WrittenIsNumbered(c, faults, datas);
    TamperedIsUnforged(c, log, pieces, tail);
    UnforgedLockstep(c, faults, datas, Tampered(c, log, pieces, tail), sizes);
  }

  lemma WrittenIsNumbered(c: Cipher, faults: Faults, datas: seq<seq<Byte>>)
    ensures Numbered(Writes(c, faults, NEW_SENDER, datas).log)
  {
    NewSenderOk(c);
    WritesLeave(c, faults, NEW_SENDER, datas);
  }

  /** With a whole frame there, a read gives its chunk if the destination has room for it, and panics if not. */
  lemma HonestReadIff(c: Cipher, log: seq<Entry>, k: nat, r: Receiver, size: nat)
    requires Inverse(c) && ReceiverOk(c, log, k, r) && !r.terminated && k + 1 < TWO_64
    requires Honest(c, log, k, r.incoming) && |r.incoming| >= SEALED_SIZE
    ensures k < |log|
    ensures var o := Read(c, r, size).0;
            && (o.Panicked? <==> size < |log[k].chunk|)
            && (o == Done(log[k].chunk) <==> size >= |log[k].chunk|)
  {
    HonestFrame(c, log, k, r.incoming);
    SealedSize(c, log[k].nonce, log[k].chunk);
    FrameRoundTrip(log[k].chunk);
    IncrementCounts(k);
    assert log[k].chunk[..|log[k].chunk|] == log[k].chunk;
  }

  /** The stream holds all frames from the `k`-th on. */
  ghost predicate Whole(c: Cipher, log: seq<Entry>, k: nat, incoming: seq<Byte>) {
    k <= |log| && Numbered(log) && Wire(c, log[..k]) + incoming == Wire(c, log)
  }

  lemma WholeHasFrame(c: Cipher, log: seq<Entry>, k: nat, incoming: seq<Byte>)
    requires Inverse(c) && Whole(c, log, k, incoming) && k < |log|
    ensures |incoming| >= SEALED_SIZE && Whole(c, log, k + 1, incoming[SEALED_SIZE..])
  {
    var frame := SealedFrame(c, log[k].nonce, log[k].chunk);
    SealedSize(c, log[k].nonce, log[k].chunk);
    WirePrefix(c, log, k + 1);
    assert log[..k + 1][..k] == log[..k];
    PrefixesAgree(Wire(c, log[..k]), incoming, frame, Wire(c, log));
  }

  /** A reader with room for any chunk gets the next one, and the stream moves on by a frame. */
  lemma RoomyRead(c: Cipher, log: seq<Entry>, k: nat, r: Receiver, size: nat)
    requires Inverse(c) && ReceiverOk(c, log, k, r) && !r.terminated && Whole(c, log, k, r.incoming)
    requires k < |log| < TWO_64 && size >= DATA_MAX_SIZE
    ensures var (o, r') := Read(c, r, size);
            o.Done? && !r'.terminated && ReceiverOk(c, log, k + 1, r') && Whole(c, log, k + 1, r'.incoming)
  {
    WholeHasFrame(c, log, k, r.incoming);
    HonestReadIff(c, log, k, r, size);
    ReadKeeps(c, log, k, r, size);
  }

  lemma {:induction false} RoomyReadsSucceed(c: Cipher, log: seq<Entry>, k: nat, r: Receiver, sizes: seq<nat>)
    requires Inverse(c) && ReceiverOk(c, log, k, r) && !r.terminated && Whole(c, log, k, r.incoming)
    requires k + |sizes| <= |log| < TWO_64 && forall i :: 0 <= i < |sizes| ==> sizes[i] >= DATA_MAX_SIZE
    ensures var (_, n, _, panicked) := Reads(ReadStepOf(c), r, sizes); n == |sizes| && !panicked
    decreases |sizes|
  {
    if sizes != [] {
      RoomyRead(c, log, k, r, sizes[0]);
      var (o, r') := ReadStepOf(c)(r, sizes[0]);
      RoomyReadsSucceed(c, log, k + 1, r', sizes[1..]);
    }
  }

  /**
   Everything arrives: while the connection is up, a reader with room for any
   chunk gets all bytes written with one read for each frame, and no read panics.
   */
  lemma EverythingArrives(c: Cipher, faults: Faults, datas: seq<seq<Byte>>, sizes: seq<nat>)
    requires Inverse(c) && WritesGoOn(c, faults, NEW_SENDER, datas)
    requires !Writes(c, faults, NEW_SENDER, datas).terminated
    requires |sizes| == |Writes(c, faults, NEW_SENDER, datas).log|
    requires forall i :: 0 <= i < |sizes| ==> sizes[i] >= DATA_MAX_SIZE
    ensures var s := Writes(c, faults, NEW_SENDER, datas);
            var (bytes, n, _, panicked) := Reads(ReadStepOf(c), NewReceiver(s.sent), sizes);
            bytes == Flatten(datas) && n == |sizes| && !panicked
  {
    var s := Writes(c, faults, NEW_SENDER, datas);
    NewSenderOk(c);
    WritesLeave(c, faults, NEW_SENDER, datas);
    assert [] + Flatten(datas) == Flatten(datas);
    StartIsWhole(c, s.log);
    HonestIsGenuine(c, s.log, 0, s.sent);
    GenuineReads(c, s.log, s.sent, sizes);
    RoomyReadsSucceed(c, s.log, 0, NewReceiver(s.sent), sizes);
    assert s.log[..|s.log|] == s.log;
  }

  lemma StartIsWhole(c: Cipher, log: seq<Entry>)
    requires Numbered(log)
    ensures Whole(c, log, 0, Wire(c, log)) && Honest(c, log, 0, Wire(c, log))
  {
    assert log[..0] == [] && [] + Wire(c, log) == Wire(c, log);
  }

  /** A single write of one chunk. */
  lemma SingleWrite(c: Cipher, faults: Faults, data: seq<Byte>)
    requires IsChunk(data) && faults(0).None?
    ensures var s := Write(c, faults, NEW_SENDER, data).1;
            s.log == [Entry(NonceAt(0), data)] && s.sent == SealedFrame(c, NonceAt(0), data)
  {
    IncrementCounts(0);
    var (r, s) := WriteStepOf(c, faults)(NEW_SENDER, data);
    assert FirstChunk(data) == data && data[|data|..] == [];
    assert [] + SealedFrame(c, NonceAt(0), data) == SealedFrame(c, NonceAt(0), data);
    assert WriteChunks(WriteStepOf(c, faults), s, [], |data|).1 == s;
  }

  /** Not every read succeeds: a chunk that was written panics a reader with less room. */
  lemma ShortReadPanics(c: Cipher, faults: Faults, data: seq<Byte>, size: nat)
    requires Inverse(c) && faults(0).None? && IsChunk(data) && size < |data|
    ensures Read(c, NewReceiver(Write(c, faults, NEW_SENDER, data).1.sent), size).0.Panicked?
  {
    var log, sent := [Entry(NonceAt(0), data)], SealedFrame(c, NonceAt(0), data);
    SingleWrite(c, faults, data);
    LogOneMore(c, [], NonceAt(0), data);
    assert [] + log == log && [] + sent == sent;
    SealedSize(c, NonceAt(0), data);
    StartIsHonest(c, log, sent);
    HonestIsGenuine(c, log, 0, sent);
    HonestReadIff(c, log, 0, NewReceiver(sent), size);
  }
}
