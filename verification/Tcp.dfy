/** Framing of packets on a byte stream: a little-endian 32-bit length, then the serialized packet. */
module Tcp {
  import opened Primitives
  import opened Bytes

  /** A serializer with its inverse; what the bytes mean is of no concern here. */
  datatype Serializer<!P> = Serializer(write: P -> seq<Byte>, read: seq<Byte> -> Option<P>)

  ghost predicate Inverts<P(!new)>(s: Serializer<P>) {
    forall p :: s.read(s.write(p)) == Some(p)
  }

  // ---------------------------------------------------------------------------------------------
  // Reference
  // ---------------------------------------------------------------------------------------------

  /** A length cast to 32 bits and written little-endian. */
  function WriteU32(n: nat): (b: seq<Byte>)
    ensures |b| == 4
  {
    WriteLE(n % 0x1_0000_0000, 4)
  }

  lemma {:induction false} ReadWriteU32(n: nat)
    requires n < 0x1_0000_0000
    ensures ReadLE(WriteU32(n)) == n
  {
    PowerFour();
    ReadWrite(n, 4);
    assert n % 0x1_0000_0000 == n;
  }

  lemma {:induction false} PowerFour()
    ensures Power(4) == 0x1_0000_0000
  {
  }

  function Frame<P>(s: Serializer<P>, p: P): seq<Byte> {
    WriteU32(|s.write(p)|) + s.write(p)
  }

  /** A frame, byte by byte. */
  lemma {:induction false} FrameMeans<P>(s: Serializer<P>, p: P)
    requires |s.write(p)| < 0x1_0000_0000
    ensures var frame, n := Frame(s, p), |s.write(p)|;
            && |frame| == 4 + n && frame[4..] == s.write(p)
            && frame[0] == n % 256 && frame[1] == n / 256 % 256 && frame[2] == n / 65536 % 256 && frame[3] == n / 16777216 % 256
  {
    var n, payload := |s.write(p)|, s.write(p);
    WordMeans(n);
    assert n % 0x1_0000_0000 == n;
    var word := WriteLE(n, 4);
    assert Frame(s, p) == word + payload && (word + payload)[4..] == payload;
  }

  lemma {:induction false} WordMeans(n: nat)
    ensures var b := WriteLE(n, 4); b[0] == n % 256 && b[1] == n / 256 % 256 && b[2] == n / 65536 % 256 && b[3] == n / 16777216 % 256
  {
    PowerThree();
    WriteAt(n, 4, 0);
    WriteAt(n, 4, 1);
    WriteAt(n, 4, 2);
    WriteAt(n, 4, 3);
  }

  lemma {:induction false} PowerThree()
    ensures Power(0) == 1 && Power(1) == 256 && Power(2) == 65536 && Power(3) == 16777216
  {
  }

  function Stream<P>(s: Serializer<P>, packets: seq<P>): seq<Byte> {
    if packets == [] then [] else Stream(s, packets[..|packets| - 1]) + Frame(s, packets[|packets| - 1])
  }

  ghost predicate Short<P>(s: Serializer<P>, packets: seq<P>) {
    forall i :: 0 <= i < |packets| ==> |s.write(packets[i])| < 0x1_0000_0000
  }

  // ---------------------------------------------------------------------------------------------
  // The codec
  // ---------------------------------------------------------------------------------------------

  class Buffer {
    var bytes: seq<Byte>

    constructor ()
      ensures bytes == []
    {
      bytes := [];
    }
  }

  method Encode<P>(s: Serializer<P>, item: P, dst: Buffer)
    modifies dst
    ensures dst.bytes == old(dst.bytes) + Frame(s, item)
  {
    var payload := s.write(item);
    dst.bytes := dst.bytes + WriteU32(|payload|);
    dst.bytes := dst.bytes + payload;
  }

  /** A whole frame is at the front of the buffer. */
  predicate Ready(b: seq<Byte>) {
    |b| >= 4 && |b| >= ReadLE(b[..4]) + 4
  }

  datatype Decoded<P> = Nothing | Packet(p: P) | Invalid

  /** Takes one frame off the buffer, or leaves the buffer alone when there is no whole frame. */
  method Decode<P>(s: Serializer<P>, src: Buffer) returns (r: Decoded<P>)
    modifies src
    ensures r.Nothing? <==> !Ready(old(src.bytes))
    ensures r.Nothing? ==> src.bytes == old(src.bytes)
    ensures !r.Nothing? ==>
              var end := ReadLE(old(src.bytes)[..4]) + 4; var read := s.read(old(src.bytes)[4..end]);
              && src.bytes == old(src.bytes)[end..]
              && r == if read.Some? then Packet(read.value) else Invalid
  {
    if |src.bytes| < 4 { return Nothing; }
    var size := ReadLE(src.bytes[..4]);
    if |src.bytes| < size + 4 { return Nothing; }
    var d := src.bytes[..size + 4];
    src.bytes := src.bytes[size + 4..];
    var read := s.read(d[4..]);
    r := if read.Some? then Packet(read.value) else Invalid;
    assert d[4..] == old(src.bytes)[4..size + 4];
  }

  // ---------------------------------------------------------------------------------------------
  // Any chunking
  // ---------------------------------------------------------------------------------------------

  /** A frame at the front is taken off exactly; anything less than a frame is not touched. */
  lemma {:induction false} FrontFrame<P(!new)>(s: Serializer<P>, p: P, b: seq<Byte>)
    requires Inverts(s) && |s.write(p)| < 0x1_0000_0000 && (b <= Frame(s, p) || Frame(s, p) <= b)
    ensures Ready(b) <==> Frame(s, p) <= b
    ensures Ready(b) ==> var end := ReadLE(b[..4]) + 4; end == |Frame(s, p)| && s.read(b[4..end]) == Some(p)
  {
    var frame := Frame(s, p);
    ReadWriteU32(|s.write(p)|);
    if |b| >= 4 {
      assert b[..4] == frame[..4] == WriteU32(|s.write(p)|);
      if frame <= b { assert b[4..|frame|] == s.write(p); }
    }
  }

  lemma {:induction false} StreamSplit<P>(s: Serializer<P>, packets: seq<P>, k: nat)
    requires k <= |packets|
    ensures Stream(s, packets[..k]) <= Stream(s, packets)
    ensures k < |packets| ==> Stream(s, packets[..k + 1]) == Stream(s, packets[..k]) + Frame(s, packets[k])
    decreases |packets|
  {
    if k == |packets| {
      assert packets[..k] == packets;
    } else {
      var init := packets[..|packets| - 1];
      assert init[..k] == packets[..k] && packets[..k + 1][..k] == packets[..k];
      StreamSplit(s, init, k);
    }
  }

  /** After `received` bytes of the stream, the first `k` packets are out and the rest is buffered. */
  ghost predicate Delivered<P>(s: Serializer<P>, packets: seq<P>, received: seq<Byte>, k: nat, buffer: seq<Byte>) {
    && k <= |packets| && received <= Stream(s, packets)
    && received == Stream(s, packets[..k]) + buffer
  }

  /** What is buffered is the beginning of the next frame or more. */
  lemma {:induction false} NextFrame<P>(s: Serializer<P>, packets: seq<P>, received: seq<Byte>, k: nat, buffer: seq<Byte>)
    requires Delivered(s, packets, received, k, buffer) && k < |packets|
    ensures buffer <= Frame(s, packets[k]) || Frame(s, packets[k]) <= buffer
    ensures Frame(s, packets[k]) <= buffer ==> Delivered(s, packets, received, k + 1, buffer[|Frame(s, packets[k])|..])
  {
    var done, frame, whole := Stream(s, packets[..k]), Frame(s, packets[k]), Stream(s, packets);
    StreamSplit(s, packets, k);
    StreamSplit(s, packets, k + 1);
    assert done + frame == Stream(s, packets[..k + 1]);
    OnePrefix(done, frame, buffer, whole);
    if frame <= buffer { Regrouped(done, frame, buffer); }
  }

  lemma {:induction false} Regrouped(done: seq<Byte>, frame: seq<Byte>, buffer: seq<Byte>)
    requires frame <= buffer
    ensures done + buffer == (done + frame) + buffer[|frame|..]
  {
  }

  /** What follows the same beginning in the same text: one is the beginning of the other. */
  lemma {:induction false} OnePrefix(done: seq<Byte>, a: seq<Byte>, b: seq<Byte>, whole: seq<Byte>)
    requires done + a <= whole && done + b <= whole
    ensures a <= b || b <= a
  {
    assert whole[|done|..|done| + |a|] == a && whole[|done|..|done| + |b|] == b;
  }

  lemma {:induction false} AllDelivered<P>(s: Serializer<P>, packets: seq<P>, received: seq<Byte>, buffer: seq<Byte>)
    requires Delivered(s, packets, received, |packets|, buffer)
    ensures buffer == []
  {
    assert packets[..|packets|] == packets;
  }

  /** Nothing more can be delivered from what was received. */
  ghost predicate Drained<P>(s: Serializer<P>, packets: seq<P>, received: seq<Byte>, k: nat) {
    k < |packets| ==> |received| < |Stream(s, packets[..k + 1])|
  }

  /** What decoding finds at the front of the buffer. */
  lemma {:induction false} AtFront<P(!new)>(s: Serializer<P>, packets: seq<P>, received: seq<Byte>, k: nat, buffer: seq<Byte>)
    requires Inverts(s) && Short(s, packets) && Delivered(s, packets, received, k, buffer)
    ensures !Ready(buffer) ==> Drained(s, packets, received, k)
    ensures Ready(buffer) ==>
              var end := ReadLE(buffer[..4]) + 4;
              && k < |packets| && s.read(buffer[4..end]) == Some(packets[k])
              && Delivered(s, packets, received, k + 1, buffer[end..])
  {
    if k == |packets| {
      AllDelivered(s, packets, received, buffer);
    } else {
      NextFrame(s, packets, received, k, buffer);
      FrontFrame(s, packets[k], buffer);
      StreamSplit(s, packets, k);
    }
  }

  lemma {:induction false} OneMore<P>(packets: seq<P>, lo: nat, hi: nat)
    requires lo <= hi < |packets|
    ensures packets[lo..hi + 1] == packets[lo..hi] + [packets[hi]]
  {
  }

  /** Decodes as often as there is a whole frame. */
  method Drain<P(!new)>(s: Serializer<P>, src: Buffer, ghost packets: seq<P>, ghost received: seq<Byte>, ghost k0: nat)
    returns (got: seq<P>, ghost k: nat)
    requires Inverts(s) && Short(s, packets) && Delivered(s, packets, received, k0, src.bytes)
    modifies src
    ensures k0 <= k && Delivered(s, packets, received, k, src.bytes) && Drained(s, packets, received, k)
    ensures got == packets[k0..k]
  {
    got, k := [], k0;
    while true
      invariant k0 <= k && Delivered(s, packets, received, k, src.bytes) && got == packets[k0..k]
      decreases |packets| - k
    {
      AtFront(s, packets, received, k, src.bytes);
      var next := Decode(s, src);
      if next.Nothing? { break; }
      OneMore(packets, k0, k);
      got, k := got + [next.p], k + 1;
    }
  }

  function Concat(chunks: seq<seq<Byte>>): seq<Byte> {
    if chunks == [] then [] else Concat(chunks[..|chunks| - 1]) + chunks[|chunks| - 1]
  }

  lemma {:induction false} ConcatPrefix(chunks: seq<seq<Byte>>, i: nat)
    requires i <= |chunks|
    ensures Concat(chunks[..i]) <= Concat(chunks)
    ensures i < |chunks| ==> Concat(chunks[..i + 1]) == Concat(chunks[..i]) + chunks[i]
    decreases |chunks|
  {
    if i == |chunks| {
      assert chunks[..i] == chunks;
    } else {
      assert chunks[..|chunks| - 1][..i] == chunks[..i] && chunks[..i + 1][..i] == chunks[..i];
      ConcatPrefix(chunks[..|chunks| - 1], i);
    }
  }

  lemma {:induction false} Beginning<P>(s: Serializer<P>, packets: seq<P>, chunks: seq<seq<Byte>>)
    ensures Delivered(s, packets, Concat(chunks[..0]), 0, [])
  {
    assert chunks[..0] == [] && packets[..0] == [];
  }

  lemma {:induction false} ChunkArrives<P>(s: Serializer<P>, packets: seq<P>, chunks: seq<seq<Byte>>, i: nat, k: nat, buffer: seq<Byte>)
    requires i < |chunks| && Concat(chunks) <= Stream(s, packets) && Delivered(s, packets, Concat(chunks[..i]), k, buffer)
    ensures Delivered(s, packets, Concat(chunks[..i + 1]), k, buffer + chunks[i])
  {
    ConcatPrefix(chunks, i);
    ConcatPrefix(chunks, i + 1);
    var done, received := Stream(s, packets[..k]), Concat(chunks[..i]);
    assert received + chunks[i] == (done + buffer) + chunks[i] == done + (buffer + chunks[i]);
  }

  lemma {:induction false} Finished<P>(s: Serializer<P>, packets: seq<P>, k: nat, buffer: seq<Byte>)
    requires Delivered(s, packets, Stream(s, packets), k, buffer) && Drained(s, packets, Stream(s, packets), k)
    ensures k == |packets| && buffer == []
  {
    if k < |packets| { StreamSplit(s, packets, k + 1); } else { AllDelivered(s, packets, Stream(s, packets), buffer); }
  }

  /** However the stream of a packet sequence is cut into chunks, and wherever it stops, reading it
      chunk by chunk delivers exactly the packets that are complete, in order; a stream read to its
      end delivers all of them and leaves nothing. */
  method ReceiveAll<P(!new)>(s: Serializer<P>, chunks: seq<seq<Byte>>, ghost packets: seq<P>) returns (got: seq<P>, left: seq<Byte>)
    requires Inverts(s) && Short(s, packets) && Concat(chunks) <= Stream(s, packets)
    ensures |got| <= |packets| && got == packets[..|got|]
    ensures Delivered(s, packets, Concat(chunks), |got|, left) && Drained(s, packets, Concat(chunks), |got|)
    ensures Concat(chunks) == Stream(s, packets) ==> got == packets && left == []
  {
    var src := new Buffer();
    ghost var k := 0;
    Beginning(s, packets, chunks);
    got, k := Drain(s, src, packets, Concat(chunks[..0]), 0);
    for i := 0 to |chunks|
      invariant k <= |packets| && got == packets[..k] && Received(s, packets, chunks, i, k, src.bytes)
    {
      var more, next := ReceiveChunk(s, src, chunks, i, packets, k);
      Joined(packets, k, next);
      got, k := got + more, next;
    }
    assert chunks[..|chunks|] == chunks;
    left := src.bytes;
    if Concat(chunks) == Stream(s, packets) {
      Finished(s, packets, k, left);
      assert packets[..|packets|] == packets;
    }
  }

  /** The first `i` chunks have come in and every packet they complete has been decoded. */
  ghost predicate Received<P>(s: Serializer<P>, packets: seq<P>, chunks: seq<seq<Byte>>, i: nat, k: nat, buffer: seq<Byte>)
    requires i <= |chunks|
  {
    Delivered(s, packets, Concat(chunks[..i]), k, buffer) && Drained(s, packets, Concat(chunks[..i]), k)
  }

  lemma {:induction false} Joined<P>(packets: seq<P>, k: nat, next: nat)
    requires k <= next <= |packets|
    ensures packets[..k] + packets[k..next] == packets[..next]
  {
  }

  /** Takes in one more chunk and decodes what it completes. */
  method ReceiveChunk<P(!new)>(s: Serializer<P>, src: Buffer, chunks: seq<seq<Byte>>, i: nat, ghost packets: seq<P>, ghost k: nat)
    returns (more: seq<P>, ghost next: nat)
    requires Inverts(s) && Short(s, packets) && Concat(chunks) <= Stream(s, packets) && i < |chunks|
    requires Received(s, packets, chunks, i, k, src.bytes)
    modifies src
    ensures k <= next <= |packets| && Received(s, packets, chunks, i + 1, next, src.bytes) && more == packets[k..next]
  {
    ChunkArrives(s, packets, chunks, i, k, src.bytes);
    src.bytes := src.bytes + chunks[i];
    more, next := Drain(s, src, packets, Concat(chunks[..i + 1]), k);
  }

  /** The sender's side: packets encoded one after another make up their stream. */
  method SendAll<P>(s: Serializer<P>, packets: seq<P>) returns (sent: seq<Byte>)
    ensures sent == Stream(s, packets)
  {
    var dst := new Buffer();
    for i := 0 to |packets|
      invariant dst.bytes == Stream(s, packets[..i])
    {
      StreamSplit(s, packets, i);
      Encode(s, packets[i], dst);
    }
    assert packets[..|packets|] == packets;
    sent := dst.bytes;
  }
}
