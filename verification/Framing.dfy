/**
  Packet framing on a byte stream: a 4-byte big-endian length, a type byte, a payload. The stream
  arrives in chunks of any sizes.
 */
module Framing {
  import opened ByteStrings

  datatype Packet = Packet(kind: byte, payload: Bytes)

  const MAX_PACKET_SIZE: int := 10 * 1024 * 1024

  function Body(p: Packet): Bytes {
    [p.kind] + p.payload
  }

  /** The bytes written for a packet; the length is cut to 32 bits. */
  function Frame(p: Packet): Bytes {
    BigEndian(|Body(p)| % TWO_32, 4) + Body(p)
  }

  datatype ReadResult = GotPacket(packet: Packet) | EndOfStream | Truncated | ZeroLength | TooLong

  /** One read from the stream `s`: what it returns and what is left of the stream. */
  function ReadFrom(s: Bytes): (ReadResult, Bytes) {
    if |s| == 0 then (EndOfStream, [])
    else if |s| < 4 then (Truncated, [])
    else
      var length := FromBigEndian(s[..4]);
      var t := s[4..];
      if length == 0 then (ZeroLength, t)
      else if length > MAX_PACKET_SIZE then (TooLong, t)
      else if |t| == 0 then (EndOfStream, [])
      else if |t| < length then (Truncated, [])
      else (GotPacket(Packet(t[0], t[1..length])), t[length..])
  }

  /** A frame, byte by byte. */
  lemma FrameOutright(p: Packet)
    ensures var n := (1 + |p.payload|) % 0x1_0000_0000;
            Frame(p) ==
            [n / 0x100_0000 % 256, n / 0x1_0000 % 256, n / 0x100 % 256, n % 256] + [p.kind] + p.payload
  {
    hide BigEndian;
    BigEndianOf32((1 + |p.payload|) % 0x1_0000_0000);
  }

  /** The length that four bytes say. */
  function Length32(s: Bytes): nat
    requires |s| >= 4
  {
    0x100_0000 * (s[0] as int) + 0x1_0000 * (s[1] as int) + 0x100 * (s[2] as int) + s[3] as int
  }

  lemma FromFour(s: Bytes)
    requires |s| >= 4
    ensures FromBigEndian(s[..4]) == Length32(s)
  {
    assert s[..4][..3] == s[..3] && s[..3][..2] == s[..2] && s[..2][..1] == s[..1] && s[..1][..0] == [];
    assert FromBigEndian(s[..1]) == s[0];
    assert FromBigEndian(s[..2]) == 256 * FromBigEndian(s[..1]) + s[1];
    assert FromBigEndian(s[..3]) == 256 * FromBigEndian(s[..2]) + s[2];
  }

  /** Every result of a read, and what it leaves. */
  lemma ReadOutright(s: Bytes)
    ensures var (r, rest) := ReadFrom(s);
            var n := if |s| >= 4 then Length32(s) else 0;
            var sized := |s| >= 4 && 0 < n <= 10_485_760;
            && (r == EndOfStream <==> |s| == 0 || (sized && |s| == 4))
            && (r == Truncated <==> 0 < |s| < 4 || (sized && 4 < |s| < 4 + n))
            && (r == ZeroLength <==> |s| >= 4 && n == 0)
            && (r == TooLong <==> |s| >= 4 && n > 10_485_760)
            && (r.GotPacket? <==> sized && |s| >= 4 + n)
            && (r.GotPacket? ==> r.packet.kind == s[4] && r.packet.payload == s[5..4 + n] && rest == s[4 + n..])
            && (r == EndOfStream || r == Truncated ==> rest == [])
            && (r == ZeroLength || r == TooLong ==> rest == s[4..])
  {
    hide FromBigEndian, Length32;
    if |s| >= 4 {
      FromFour(s);
    }
  }

  lemma ReadShrinks(s: Bytes)
    requires ReadFrom(s).0.GotPacket?
    ensures |ReadFrom(s).1| < |s|
  {
    hide FromBigEndian;
  }

  /** Reads until the first result that is no packet. */
  function ReadAll(s: Bytes): (seq<Packet>, ReadResult)
    decreases |s|
  {
    match ReadFrom(s).0
    case GotPacket(p) =>
      ReadShrinks(s);
      var (ps, end) := ReadAll(ReadFrom(s).1);
      ([p] + ps, end)
    case end => ([], end)
  }

  /** One turn of a loop that has read `done`. */
  lemma ReadAllStep(s: Bytes, done: seq<Packet>)
    ensures match ReadFrom(s).0
            case GotPacket(p) =>
              |ReadFrom(s).1| < |s| && done + ReadAll(s).0 == done + [p] + ReadAll(ReadFrom(s).1).0
            case _ => done + ReadAll(s).0 == done
  {
    hide ReadFrom;
    if ReadFrom(s).0.GotPacket? {
      ReadShrinks(s);
    }
  }

  function WriteAll(ps: seq<Packet>): Bytes {
    if |ps| == 0 then [] else Frame(ps[0]) + WriteAll(ps[1..])
  }

  predicate Fits(p: Packet) {
    1 + |p.payload| <= MAX_PACKET_SIZE
  }

  // ---------------------------------------------------------------------------
  // One packet
  // ---------------------------------------------------------------------------

  lemma LengthField(n: nat)
    requires n < TWO_32
    ensures FromBigEndian(BigEndian(n, 4)) == n
  {
    Pow256Values();
    BigEndianRoundTrip(n, 4);
  }

  lemma ReadsBack(p: Packet, k: Bytes)
    requires Fits(p)
    ensures ReadFrom(Frame(p) + k) == (GotPacket(p), k)
  {
    hide BigEndian, FromBigEndian;
    var n := |Body(p)|;
    var s := Frame(p) + k;
    LengthField(n);
    assert s[..4] == BigEndian(n % TWO_32, 4);
    assert s[4..] == Body(p) + k;
    assert (Body(p) + k)[1..n] == p.payload;
    assert (Body(p) + k)[n..] == k;
  }

  /** Every successful read took exactly the bytes that writing its result would have produced. */
  lemma ReadTookFrame(s: Bytes)
    requires ReadFrom(s).0.GotPacket?
    ensures Fits(ReadFrom(s).0.packet)
    ensures s == Frame(ReadFrom(s).0.packet) + ReadFrom(s).1
  {
    hide BigEndian, FromBigEndian;
    var p, k := ReadFrom(s).0.packet, ReadFrom(s).1;
    FromBigEndianRoundTrip(s[..4]);
    var length := FromBigEndian(s[..4]);
    assert |Body(p)| == length;
    assert s[4..] == Body(p) + k;
    assert s == s[..4] + s[4..];
  }

  /** A packet is read back exactly when it keeps to the size limit. */
  lemma ReadBackExactly(p: Packet, k: Bytes)
    ensures ReadFrom(Frame(p) + k) == (GotPacket(p), k) <==> 1 + |p.payload| <= 10_485_760
  {
    hide ReadFrom, Frame;
    if Fits(p) {
      ReadsBack(p, k);
    } else if ReadFrom(Frame(p) + k).0.GotPacket? {
      ReadTookFrame(Frame(p) + k);
    }
  }

  // ---------------------------------------------------------------------------
  // Streams
  // ---------------------------------------------------------------------------

  lemma NothingToRead()
    ensures ReadFrom([]) == (EndOfStream, [])
  {
  }

  /** Packets written back to back are read back as the same sequence, with nothing left over. */
  lemma {:induction false} StreamRoundTrip(ps: seq<Packet>)
    requires forall i :: 0 <= i < |ps| ==> Fits(ps[i])
    ensures ReadAll(WriteAll(ps)) == (ps, EndOfStream)
  {
    hide Frame, ReadFrom;
    if |ps| == 0 {
      NothingToRead();
    } else {
      ReadsBack(ps[0], WriteAll(ps[1..]));
      StreamRoundTrip(ps[1..]);
      assert ps == [ps[0]] + ps[1..];
    }
  }

  lemma {:induction false} ReadIsFitting(s: Bytes)
    ensures forall i :: 0 <= i < |ReadAll(s).0| ==> Fits(ReadAll(s).0[i])
    decreases |s|
  {
    hide ReadFrom, Fits;
    if ReadFrom(s).0.GotPacket? {
      ReadTookFrame(s);
      ReadShrinks(s);
      ReadIsFitting(ReadFrom(s).1);
    }
  }

  /** A sequence of packets is read back, with nothing left over, exactly when all of them keep to the
      size limit. */
  lemma StreamReadBackExactly(ps: seq<Packet>)
    ensures ReadAll(WriteAll(ps)) == (ps, EndOfStream) <==>
              forall i :: 0 <= i < |ps| ==> 1 + |ps[i].payload| <= 10_485_760
  {
    hide ReadAll, WriteAll;
    ReadIsFitting(WriteAll(ps));
    if forall i :: 0 <= i < |ps| ==> Fits(ps[i]) {
      StreamRoundTrip(ps);
    }
  }

  lemma CutInFrame(p: Packet, k: Bytes, s: Bytes)
    requires s <= Frame(p) + k && |s| < |Frame(p)| && Fits(p)
    ensures !ReadFrom(s).0.GotPacket?
  {
    hide ReadFrom, Frame;
    if ReadFrom(s).0.GotPacket? {
      var q := ReadFrom(s).0.packet;
      ReadTookFrame(s);
      var rest := (Frame(p) + k)[|Frame(q)|..];
      assert Frame(q) == s[..|Frame(q)|] == (Frame(p) + k)[..|Frame(q)|];
      assert Frame(p) + k == Frame(q) + rest;
      ReadsBack(p, k);
      ReadsBack(q, rest);
    }
  }

  /** A connection cut at any byte delivers a prefix of the packets written, none altered. */
  lemma {:induction false} CutStreamDeliversPrefix(ps: seq<Packet>, s: Bytes)
    requires forall i :: 0 <= i < |ps| ==> Fits(ps[i])
    requires s <= WriteAll(ps)
    ensures ReadAll(s).0 <= ps
  {
    hide Frame, ReadFrom;
    if |ps| == 0 {
      NothingToRead();
    } else {
      var tail := WriteAll(ps[1..]);
      var f := Frame(ps[0]);
      if |s| < |f| {
        CutInFrame(ps[0], tail, s);
      } else {
        var t := s[|f|..];
        assert s == f + t by {
          assert s[..|f|] == (f + tail)[..|f|] == f;
        }
        assert t <= tail by {
          assert t == (f + tail)[|f|..|s|];
        }
        ReadsBack(ps[0], t);
        CutStreamDeliversPrefix(ps[1..], t);
        assert ps == [ps[0]] + ps[1..];
      }
    }
  }

  // ---------------------------------------------------------------------------
  // The connection
  // ---------------------------------------------------------------------------

  function Concat(chunks: seq<Bytes>): Bytes {
    if |chunks| == 0 then [] else chunks[0] + Concat(chunks[1..])
  }

  /** A stream is its chunks run together, in order. */
  lemma {:induction false} ConcatOutright(a: seq<Bytes>, chunk: Bytes, b: seq<Bytes>)
    ensures Concat(a + [chunk] + b) == Concat(a) + chunk + Concat(b)
  {
    if |a| == 0 {
      assert (a + [chunk] + b)[1..] == b;
    } else {
      ConcatOutright(a[1..], chunk, b);
      assert (a + [chunk] + b)[1..] == a[1..] + [chunk] + b;
    }
  }

  /** The receiving end: the chunks that will arrive, in order. */
  class Reader {
    var pending: seq<Bytes>

    function Stream(): Bytes
      reads this
    {
      Concat(pending)
    }

    constructor (chunks: seq<Bytes>)
      ensures pending == chunks && Stream() == Concat(chunks)
    {
      pending := chunks;
    }

    /** One read: at most `n` bytes, from the chunk that has arrived. */
    method Read(n: nat) returns (b: Bytes)
      requires |pending| > 0
      modifies this
      ensures |b| <= n && b + Stream() == old(Stream())
      ensures |pending| < old(|pending|) || (|pending| == old(|pending|) && |b| == n)
    {
      var chunk := pending[0];
      if |chunk| <= n {
        b := chunk;
        pending := pending[1..];
      } else {
        b := chunk[..n];
        pending := [chunk[n..]] + pending[1..];
        assert pending[1..] == old(pending)[1..];
        assert b + (chunk[n..] + Concat(pending[1..])) == chunk + Concat(pending[1..]);
      }
    }

    /** io.ReadFull: as many reads as it takes, or all there is. */
    method ReadFull(n: nat) returns (b: Bytes, complete: bool)
      modifies this
      ensures complete <==> |old(Stream())| >= n
      ensures complete ==> b == old(Stream())[..n] && Stream() == old(Stream())[n..]
      ensures !complete ==> b == old(Stream()) && Stream() == []
    {
      b := [];
      assert b + Stream() == Stream();
      while |b| < n && |pending| > 0
        invariant |b| <= n
        invariant b + Stream() == old(Stream())
        decreases |pending|, n - |b|
      {
        ghost var before := Stream();
        var c := Read(n - |b|);
        assert b + (c + Stream()) == b + c + Stream();
        b := b + c;
      }
      complete := |b| == n;
      if complete {
        assert (b + Stream())[..n] == b && (b + Stream())[n..] == Stream();
      } else {
        assert b + [] == b;
      }
    }

    /** However the stream is chunked, the result is what the stream says. */
    method ReadPacket() returns (r: ReadResult)
      modifies this
      ensures (r, Stream()) == ReadFrom(old(Stream()))
    {
      hide Concat, FromBigEndian;
      var header, complete := ReadFull(4);
      if !complete {
        return if |header| == 0 then EndOfStream else Truncated;
      }
      var length := FromBigEndian(header);
      if length == 0 {
        return ZeroLength;
      }
      if length > MAX_PACKET_SIZE {
        return TooLong;
      }
      ghost var t := Stream();
      var body, full := ReadFull(length);
      if !full {
        return if |body| == 0 then EndOfStream else Truncated;
      }
      assert body == t[..length];
      assert body[1..] == t[1..length];
      r := GotPacket(Packet(body[0], body[1..]));
    }

    /** The read loop of a peer: packets until the first error. */
    method ReadLoop() returns (packets: seq<Packet>, end: ReadResult)
      modifies this
      ensures (packets, end) == ReadAll(old(Stream()))
    {
      hide Concat, ReadFrom;
      packets := [];
      ghost var all := ReadAll(Stream());
      assert [] + all.0 == all.0;
      while true
        invariant packets + ReadAll(Stream()).0 == all.0 && ReadAll(Stream()).1 == all.1
        decreases |Stream()|
      {
        ghost var s := Stream();
        var r := ReadPacket();
        match r {
          case GotPacket(p) =>
            ReadShrinks(s);
            assert packets + ([p] + ReadAll(Stream()).0) == packets + [p] + ReadAll(Stream()).0;
            packets := packets + [p];
          case _ =>
            assert packets + [] == packets;
            return packets, r;
        }
      }
    }
  }

  /** The sending end: the bytes written so far. */
  class Writer {
    var written: Bytes

    constructor ()
      ensures written == []
    {
      written := [];
    }

    method WritePacket(p: Packet)
      modifies this
      ensures written == old(written) + Frame(p)
    {
      hide BigEndian;
      var body := new byte[1 + |p.payload|];
      body[0] := p.kind;
      for i := 0 to |p.payload|
        invariant written == old(written) && body[0] == p.kind
        invariant forall j :: 0 <= j < i ==> body[j + 1] == p.payload[j]
      {
        body[i + 1] := p.payload[i];
      }
      forall j | 0 <= j < body.Length
        ensures body[j] == Body(p)[j]
      {
        if j > 0 {
          assert body[j] == p.payload[j - 1];
        }
      }
      assert body[..] == Body(p);
      var header: Bytes := BigEndian(body.Length % TWO_32, 4);
      assert old(written) + header + Body(p) == old(written) + (header + Body(p));
      written := written + header;
      written := written + body[..];
    }
  }
}
