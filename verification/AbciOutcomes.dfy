/**
 The codec's lengths byte by byte, and how reading and sending end: what each
 error is caused by.
 */
module AbciOutcomes {
  import opened Common
  import opened AbciCodec

  // ---- Lengths -------------------------------------------------------------

  /** The number that seven bits of each byte make, the first ones the least significant. */
  function SevenBits(s: seq<Byte>): nat {
    if s == [] then 0 else s[0] as nat % 0x80 + 0x80 * SevenBits(s[1..])
  }

  /** All bytes but the last say that another follows. */
  ghost predicate Continued(s: seq<Byte>) {
    && s != [] && s[|s| - 1] < 0x80
    && forall i :: 0 <= i < |s| - 1 ==> s[i] >= 0x80
  }

  /** An encoded length is its number in groups of seven bits, and no shorter text is. */
  lemma {:induction false} VarintIs(v: nat)
    ensures var s := EncodeVarint(v);
            Continued(s) && SevenBits(s) == v && (|s| > 1 ==> s[|s| - 1] != 0)
    decreases v
  {
    if v >= 0x80 {
      var s, later := EncodeVarint(v), EncodeVarint(v / 0x80);
      VarintIs(v / 0x80);
      assert s[1..] == later;
      assert forall i :: 0 < i < |s| ==> s[i] == later[i - 1];
    }
  }

  /** The first `n` bytes are a length of at most 64 bits, if `k` bytes came before. */
  ghost predicate IsLength(s: seq<Byte>, k: nat, n: nat) {
    && 0 < n <= |s| && k + n <= 10 && Continued(s[..n])
    && (k + n == 10 ==> s[n - 1] < 2)
  }

  lemma ContinuedOneMore(s: seq<Byte>, n: nat)
    requires 0 < n < |s|
    ensures Continued(s[..n + 1]) <==> s[0] >= 0x80 && Continued(s[1..][..n])
  {
    var a, b := s[..n + 1], s[1..][..n];
    assert a[0] == s[0] && forall i :: 0 <= i < n ==> a[i + 1] == b[i];
    if Continued(a) {
      forall i | 0 <= i < n - 1
        ensures b[i] >= 0x80
      {
        assert a[i + 1] >= 0x80;
      }
    }
  }

  lemma LongerLength(s: seq<Byte>, k: nat, n: nat)
    requires s != [] && s[0] >= 0x80
    ensures IsLength(s, k, n) <==> n > 1 && IsLength(s[1..], k + 1, n - 1)
    ensures 1 < n <= |s| ==> SevenBits(s[..n]) == s[0] as nat - 0x80 + 0x80 * SevenBits(s[1..][..n - 1])
    ensures 1 < n <= |s| ==> s[n..] == s[1..][n - 1..]
  {
    if 1 < n <= |s| {
      ContinuedOneMore(s, n - 1);
      assert s[..n][1..] == s[1..][..n - 1];
    } else if n == 1 {
      assert s[..1][0] >= 0x80;
    }
  }

  /** A length is decoded as the number in its bytes. */
  lemma {:induction false} LengthDecodes(s: seq<Byte>, k: nat, n: nat)
    requires IsLength(s, k, n)
    ensures DecodeVarintFrom(s, k) == Some((SevenBits(s[..n]), s[n..]))
    decreases |s|
  {
    assert s[..n][0] == s[0];
    if s[0] < 0x80 {
      assert n == 1 && s[..1] == [s[0]] && [s[0]][1..] == [];
    } else {
      LongerLength(s, k, n);
      LengthDecodes(s[1..], k + 1, n - 1);
    }
  }

  /** Nothing else is decoded. */
  lemma {:induction false} DecodedIsLength(s: seq<Byte>, k: nat)
    requires DecodeVarintFrom(s, k).Some?
    ensures IsLength(s, k, |s| - |DecodeVarintFrom(s, k).value.1|)
    decreases |s|
  {
    if s[0] < 0x80 {
      assert s[..1] == [s[0]];
    } else {
      DecodedIsLength(s[1..], k + 1);
      LongerLength(s, k, |s| - |DecodeVarintFrom(s, k).value.1|);
    }
  }

  /** A buffer that starts with a length: a whole message, or one that cannot be decoded, or part of one. */
  lemma FrameWithLength<M>(schema: Schema<M>, src: seq<Byte>, n: nat)
    requires IsLength(src, 0, n)
    ensures var len, d := SevenBits(src[..n]), DecodeFrame(schema, src);
            if |src| < n + len then d == NotYet
            else match schema.decode(src[n..n + len])
                 case Some(m) => d == Message(m, src[n + len..])
                 case None => d == Undecodable(src[n + len..])
  {
    LengthDecodes(src, 0, n);
    var len := SevenBits(src[..n]);
    if n + len <= |src| {
      assert src[n..][..len] == src[n..n + len] && src[n..][len..] == src[n + len..];
    }
  }

  /** One that does not: it waits for up to sixteen bytes. */
  lemma FrameWithoutLength<M>(schema: Schema<M>, src: seq<Byte>)
    requires forall n: nat :: !IsLength(src, 0, n)
    ensures DecodeFrame(schema, src) == if |src| <= 16 then NotYet else BadLength
  {
    var r := DecodeVarint(src);
    if r.Some? {
      DecodedIsLength(src, 0);
      assert false;
    }
  }

  // ---- Reading -------------------------------------------------------------

  /** The stream delivers the first `i` events and is left with what follows the next one. */
  ghost predicate ReadUpTo(r: Reader, r': Reader, i: nat) {
    && i < |r.incoming| && r'.incoming == r.incoming[i + 1..]
    && (forall j :: 0 <= j < i ==> r.incoming[j].Data? && r.incoming[j].bytes != [])
    && r'.buf == r.buf + Bytes(r.incoming[..i])
  }

  /** Why iterating fails with the stream's error, or ends. */
  ghost predicate ReadEnds<M(!new)>(schema: Schema<M>, r: Reader, item: Item<M>, r': Reader) {
    && DecodeFrame(schema, r'.buf).NotYet?
    && match item
       case Failed(Io(e)) => exists i: nat :: ReadUpTo(r, r', i) && r.incoming[i] == Broken(e)
       case End =>
         || (r'.incoming == [] && r'.buf == r.buf + Bytes(r.incoming) && Pieces(r.incoming))
         || (exists i: nat :: ReadUpTo(r, r', i) && r.incoming[i] == Data([]))
       case _ => false
  }

  lemma ReadTakesEvent(size: nat, r: Reader)
    requires size > 0 && r.incoming != [] && r.incoming[0].Data? && r.incoming[0].bytes != []
    ensures var (got, incoming') := ReadOnce(size, r.incoming);
            && got.Ok? && got.value != []
            && if |r.incoming[0].bytes| <= size
               then got.value == r.incoming[0].bytes && incoming' == r.incoming[1..]
               else got.value == r.incoming[0].bytes[..size]
                    && incoming' == [Data(r.incoming[0].bytes[size..])] + r.incoming[1..]
  {
  }

  lemma BytesOfFirst(events: seq<ReadEvent>, i: nat)
    requires 0 < i <= |events| && events[0].Data?
    ensures Bytes(events[..i]) == events[0].bytes + Bytes(events[1..][..i - 1])
  {
    assert events[..i][1..] == events[1..][..i - 1];
  }

  /** What holds after one more whole event has been read. */
  lemma ReadUpToMore(r: Reader, r1: Reader, r': Reader, i: nat)
    requires r.incoming != [] && r.incoming[0].Data? && r.incoming[0].bytes != []
    requires r1 == Reader(r.buf + r.incoming[0].bytes, r.incoming[1..]) && ReadUpTo(r1, r', i)
    ensures ReadUpTo(r, r', i + 1) && r.incoming[i + 1] == r1.incoming[i]
  {
    BytesOfFirst(r.incoming, i + 1);
    assert r.incoming[1..][i + 1..] == r.incoming[i + 2..];
    forall j | 0 <= j < i + 1
      ensures r.incoming[j].Data? && r.incoming[j].bytes != []
    {
      if j > 0 {
        assert r.incoming[j] == r1.incoming[j - 1];
      }
    }
  }

  /** And after a part of it. */
  lemma ReadUpToPart(r: Reader, r1: Reader, r': Reader, i: nat, n: nat)
    requires i > 0 && r.incoming != [] && r.incoming[0].Data? && 0 < n < |r.incoming[0].bytes|
    requires var bytes := r.incoming[0].bytes;
             r1 == Reader(r.buf + bytes[..n], [Data(bytes[n..])] + r.incoming[1..])
    requires ReadUpTo(r1, r', i)
    ensures ReadUpTo(r, r', i) && r.incoming[i] == r1.incoming[i]
  {
    var bytes := r.incoming[0].bytes;
    BytesOfFirst(r.incoming, i);
    BytesOfFirst(r1.incoming, i);
    assert r1.incoming[1..] == r.incoming[1..];
    assert bytes[..n] + bytes[n..] == bytes;
    forall j | 0 <= j < i
      ensures r.incoming[j].Data? && r.incoming[j].bytes != []
    {
      if j > 0 {
        assert r.incoming[j] == r1.incoming[j];
      }
    }
  }

  lemma EndsMore<M(!new)>(schema: Schema<M>, r: Reader, r1: Reader, item: Item<M>, r': Reader)
    requires r.incoming != [] && r.incoming[0].Data? && r.incoming[0].bytes != []
    requires r1 == Reader(r.buf + r.incoming[0].bytes, r.incoming[1..]) && ReadEnds(schema, r1, item, r')
    ensures ReadEnds(schema, r, item, r')
  {
    if i: nat :| ReadUpTo(r1, r', i) && (r1.incoming[i].Broken? || r1.incoming[i] == Data([]))
                 && (item.Failed? ==> r1.incoming[i] == Broken(item.error.io))
                 && (item.End? ==> r1.incoming[i] == Data([])) {
      ReadUpToMore(r, r1, r', i);
    } else {
      assert Pieces(r1.incoming);
      assert Bytes(r.incoming) == r.incoming[0].bytes + Bytes(r1.incoming);
      forall i | 0 <= i < |r.incoming|
        ensures r.incoming[i].Data? && r.incoming[i].bytes != []
      {
        if i > 0 {
          assert r.incoming[i] == r1.incoming[i - 1];
        }
      }
    }
  }

  lemma EndsPart<M(!new)>(schema: Schema<M>, r: Reader, r1: Reader, item: Item<M>, r': Reader, n: nat)
    requires r.incoming != [] && r.incoming[0].Data? && 0 < n < |r.incoming[0].bytes|
    requires var bytes := r.incoming[0].bytes;
             r1 == Reader(r.buf + bytes[..n], [Data(bytes[n..])] + r.incoming[1..])
    requires ReadEnds(schema, r1, item, r')
    ensures ReadEnds(schema, r, item, r')
  {
    if i: nat :| ReadUpTo(r1, r', i) && (r1.incoming[i].Broken? || r1.incoming[i] == Data([]))
                 && (item.Failed? ==> r1.incoming[i] == Broken(item.error.io))
                 && (item.End? ==> r1.incoming[i] == Data([])) {
      ReadUpToPart(r, r1, r', i, n);
    } else {
      var bytes := r.incoming[0].bytes;
      assert Pieces(r1.incoming) && r1.incoming[1..] == r.incoming[1..];
      assert Bytes(r1.incoming) == bytes[n..] + Bytes(r.incoming[1..]);
      assert bytes[..n] + bytes[n..] == bytes;
      forall i | 0 <= i < |r.incoming|
        ensures r.incoming[i].Data? && r.incoming[i].bytes != []
      {
        if i > 0 {
          assert r.incoming[i] == r1.incoming[i];
        }
      }
    }
  }

  /** Iterating ends with the stream, and fails with the stream's error, only for want of a whole message. */
  lemma {:induction false} NextEnds<M(!new)>(schema: Schema<M>, size: nat, r: Reader)
    requires size > 0
    ensures var (item, r') := Next(schema, size, r);
            item.End? || (item.Failed? && item.error.Io?) ==> ReadEnds(schema, r, item, r')
    decreases |Bytes(r.incoming)|
  {
    if DecodeFrame(schema, r.buf).NotYet? {
      var (item, r') := Next(schema, size, r);
      if r.incoming == [] {
        assert r.buf + [] == r.buf;
      } else if r.incoming[0].Broken? || r.incoming[0].bytes == [] {
        assert r.incoming[..0] == [] && r.buf + [] == r.buf;
        assert ReadUpTo(r, r', 0);
      } else {
        ReadTakesEvent(size, r);
        ReadTakes(size, r.incoming);
        var (got, incoming') := ReadOnce(size, r.incoming);
        var r1 := Reader(r.buf + got.value, incoming');
        NextEnds(schema, size, r1);
        if item.End? || (item.Failed? && item.error.Io?) {
          if |r.incoming[0].bytes| <= size {
            EndsMore(schema, r, r1, item, r');
          } else {
            EndsPart(schema, r, r1, item, r', size);
          }
        }
      }
    }
  }

  // ---- Sending -------------------------------------------------------------

  /** What the stream takes at the calls from `since` to before `until`. */
  function Taken(sink: Sink, since: nat, until: nat): nat
    requires since <= until
    decreases until - since
  {
    if since == until then 0
    else (if sink.accept(since).Ok? then sink.accept(since).value else 0) + Taken(sink, since + 1, until)
  }

  /**
   How emptying the buffer ends.  Until the last call there was something left
   and every write has taken some of it; the last call is the flush if all has
   been taken, or else the write that fails or takes nothing.
   */
  ghost predicate DrainEnds(sink: Sink, w: Writer, r: Result<(), CodecError>, w': Writer) {
    && w.tick < w'.tick
    && var last := w'.tick - 1;
       && (forall t :: w.tick <= t < last ==>
             sink.accept(t).Ok? && sink.accept(t).value > 0 && Taken(sink, w.tick, t) < |w.buf|)
       && |w'.buf| == (if Taken(sink, w.tick, last) < |w.buf| then |w.buf| - Taken(sink, w.tick, last) else 0)
       && if w'.buf == []
          then r == match sink.flush(last) case None => Ok(()) case Some(e) => Err(Io(e))
          else match sink.accept(last)
               case Err(e) => r == Err(Io(e))
               case Ok(n) => n == 0 && r == Err(WriteZero)
  }

  lemma {:induction false} DrainIs(sink: Sink, w: Writer)
    ensures var (r, w') := Drain(sink, w); DrainEnds(sink, w, r, w')
    decreases |w.buf|
  {
    if w.buf != [] {
      var n := Accepted(sink, w.tick, w.buf);
      if n.Ok? && n.value > 0 {
        DrainIs(sink, Writer(w.buf[n.value..], w.sent + w.buf[..n.value], w.tick + 1));
      }
    }
  }

  /** Sending fails without a trace if the message cannot be encoded, and else ends as emptying the buffer does. */
  lemma SendIs<M>(schema: Schema<M>, sink: Sink, w: Writer, m: M)
    ensures var (r, w') := Send(schema, sink, w, m);
            match schema.encode(m)
            case None => r == Err(Encode) && w' == w
            case Some(bytes) => DrainEnds(sink, w.(buf := w.buf + EncodeVarint(|bytes|) + bytes), r, w')
  {
    var bytes := schema.encode(m);
    if bytes.Some? {
      assert w.buf + EncodeVarint(|bytes.value|) + bytes.value == w.buf + Frame(bytes.value);
      DrainIs(sink, w.(buf := w.buf + Frame(bytes.value)));
    }
  }
}
