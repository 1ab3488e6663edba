/** Length-prefixed framing of the runner connection: `Write` builds frames, the
    connection handler cuts them out of whatever pieces the socket delivers. */
module Framing {

  newtype Byte = b: int | 0 <= b < 256

  type Bytes = seq<Byte>

  /** The length of a Go slice is a 63-bit number. */
  const MAX_LENGTH: nat := 0x8000_0000_0000_0000

  const TWO_TO_THE_64: nat := 0x1_0000_0000_0000_0000

  /** "Base 128 Varints" of the Protocol Buffers Encoding guide. */
  function EncodeVarint(n: nat): (bytes: Bytes)
    ensures |bytes| >= 1
    ensures n < 128 ==> |bytes| == 1
    ensures |bytes| <= n + 1
  {
    if n < 128 then [n as Byte] else [(n % 128 + 128) as Byte] + EncodeVarint(n / 128)
  }

  /** The digits of a varint, at most `room` of them; (0, 0) when they do not end. */
  function DecodeDigits(bytes: Bytes, room: nat): (r: (nat, nat))
    ensures r.1 <= |bytes|
  {
    if room == 0 || bytes == [] then (0, 0)
    else if bytes[0] < 128 then (bytes[0] as nat, 1)
    else
      var (x, n) := DecodeDigits(bytes[1..], room - 1);
      if n == 0 then (0, 0) else (bytes[0] as nat - 128 + 128 * x, n + 1)
  }

  /** Value and number of bytes read, in 64-bit arithmetic; (0, 0) for an incomplete varint. */
  function DecodeVarint(bytes: Bytes): (r: (nat, nat))
    ensures r.1 <= |bytes|
  {
    var (x, n) := DecodeDigits(bytes, 10);
    (x % TWO_TO_THE_64, n)
  }

  datatype Packet = Packet(header: Bytes, body: Bytes) {
    function Bytes(): Bytes { header + body }

    function Size(): nat { |header| + |body| }
  }

  /** What `Write` puts on the wire for one message. */
  function Frame(message: Bytes): Packet {
    Packet(EncodeVarint(|message|), message)
  }

  /** Packets that `Write` made. */
  ghost predicate Written(ps: seq<Packet>) {
    forall p :: p in ps ==> p == Frame(p.body) && |p.body| < MAX_LENGTH
  }

  function Stream(ps: seq<Packet>): Bytes {
    if ps == [] then [] else ps[0].Bytes() + Stream(ps[1..])
  }

  /** All bytes of the first `j` reads. */
  function Concat(pieces: seq<Bytes>, j: nat): Bytes
    requires j <= |pieces|
  {
    if j == 0 then [] else Concat(pieces, j - 1) + pieces[j - 1]
  }

  /** A point in a stream of packets: the bodies delivered by then, the packets still to come,
      how many bytes of them are there, and whether the point lies in a gap: inside a packet,
      after more bytes than its body is long. There the length test passes although the header
      bytes are not all made up for yet. The length test never passes for an empty message,
      which therefore stays at the front for ever. */
  datatype Point = Point(bodies: seq<Bytes>, rest: seq<Packet>, left: nat, gap: bool)

  /** The point `n` bytes into the stream of `ps`, when `bodies` were delivered before. */
  function At(bodies: seq<Bytes>, ps: seq<Packet>, n: nat): Point
    decreases |ps|
  {
    if ps == [] || ps[0].body == [] then
      Point(bodies, ps, n, false)
    else if n < ps[0].Size() then
      Point(bodies, ps, n, |ps[0].body| < n)
    else
      At(bodies + [ps[0].body], ps[1..], n - ps[0].Size())
  }

  /** A read that ends after `n` bytes of the stream does not end in a gap. */
  predicate SafeCut(ps: seq<Packet>, n: nat) {
    !At([], ps, n).gap
  }

  lemma {:induction false} SafeMeans(ps: seq<Packet>, n: nat)
    ensures SafeCut(ps, n) <==> !At([], ps, n).gap
  {
  }

  function Power128(k: nat): nat {
    if k == 0 then 1 else 128 * Power128(k - 1)
  }

  lemma {:induction false} VarintRoundTrip(n: nat, k: nat, room: nat, rest: Bytes)
    requires n < Power128(k) && 1 <= k <= room
    ensures DecodeDigits(EncodeVarint(n) + rest, room) == (n, |EncodeVarint(n)|)
  {
    if n >= 128 {
      assert n / 128 < Power128(k - 1);
      assert k > 1;
      VarintRoundTrip(n / 128, k - 1, room - 1, rest);
      assert (EncodeVarint(n) + rest)[1..] == EncodeVarint(n / 128) + rest;
    }
  }

  lemma {:induction false} VarintIncomplete(n: nat, part: Bytes, room: nat)
    requires part <= EncodeVarint(n) && part != EncodeVarint(n)
    ensures DecodeDigits(part, room) == (0, 0)
  {
    if part != [] && room > 0 {
      var tail := EncodeVarint(n / 128);
      assert n >= 128 && EncodeVarint(n)[1..] == tail;
      assert part[1..] == tail[..|part| - 1];
      assert |part| == |tail| + 1 ==> part == EncodeVarint(n);
      VarintIncomplete(n / 128, part[1..], room - 1);
    }
  }

  /** What `DecodeVarint` says about a buffer that starts with (a part of) a header. */
  lemma {:induction false} DecodeHeader(length: nat, buffer: Bytes, after: Bytes)
    requires length < MAX_LENGTH && buffer <= EncodeVarint(length) + after
    ensures var k := |EncodeVarint(length)|;
            DecodeVarint(buffer) == if |buffer| < k then (0, 0) else (length, k)
  {
    var header := EncodeVarint(length);
    if |buffer| < |header| {
      assert buffer == (header + after)[..|buffer|] == header[..|buffer|];
      VarintIncomplete(length, buffer, 10);
    } else {
      assert Power128(9) == MAX_LENGTH by {
        assert Power128(3) == 128 * 128 * 128;
        assert Power128(6) == 128 * 128 * 128 * Power128(3);
        assert Power128(9) == 128 * 128 * 128 * Power128(6);
      }
      assert buffer[..|header|] == (header + after)[..|header|] == header;
      assert buffer == header + buffer[|header|..];
      VarintRoundTrip(length, 9, 10, buffer[|header|..]);
    }
  }

  lemma {:induction false} StreamSplit(ps: seq<Packet>, k: nat)
    requires k <= |ps|
    ensures Stream(ps) == Stream(ps[..k]) + Stream(ps[k..])
  {
    if k == 0 {
      assert ps[..0] == [] && ps[0..] == ps;
    } else {
      assert ps[..k][1..] == ps[1..][..k - 1];
      StreamSplit(ps[1..], k - 1);
    }
  }

  lemma {:induction false} StreamOfPrefix(ps: seq<Packet>, k: nat)
    requires k < |ps|
    ensures |Stream(ps[..k + 1])| == ps[0].Size() + |Stream(ps[1..][..k])|
  {
    assert ps[..k + 1][1..] == ps[1..][..k];
  }

  /** Points in absolute terms: `k` packets are delivered and packet `k` is not. */
  lemma {:induction false} PointMeaning(bodies: seq<Bytes>, ps: seq<Packet>, n: nat) returns (k: nat)
    requires n <= |Stream(ps)|
    ensures k <= |ps|
    ensures var p := At(bodies, ps, n);
            && |p.bodies| == |bodies| + k && p.rest == ps[k..]
            && |Stream(ps[..k])| + p.left == n
            && (k < |ps| ==> ps[k].body == [] || p.left < ps[k].Size())
            && (p.gap <==> k < |ps| && p.left > |ps[k].body| > 0)
    decreases |ps|
  {
    if ps == [] || ps[0].body == [] || n < ps[0].Size() {
      return 0;
    }
    var tail, m := ps[1..], n - ps[0].Size();
    var j := PointMeaning(bodies + [ps[0].body], tail, m);
    k := j + 1;
    StreamOfPrefix(ps, j);
    assert ps[k..] == tail[j..];
  }

  lemma {:induction false} BodiesInOrder(bodies: seq<Bytes>, ps: seq<Packet>, n: nat)
    ensures var p := At(bodies, ps, n);
            && bodies <= p.bodies && |p.bodies| <= |bodies| + |ps|
            && forall i :: |bodies| <= i < |p.bodies| ==> p.bodies[i] == ps[i - |bodies|].body != []
    decreases |ps|
  {
    if ps != [] && ps[0].body != [] && n >= ps[0].Size() {
      BodiesInOrder(bodies + [ps[0].body], ps[1..], n - ps[0].Size());
    }
  }

  /** Going on from a point. */
  lemma {:induction false} PointAfterPoint(bodies: seq<Bytes>, ps: seq<Packet>, n: nat, left: nat, more: nat)
    requires left == At(bodies, ps, n).left
    ensures var p := At(bodies, ps, n);
            At(bodies, ps, n + more) == At(p.bodies, p.rest, left + more)
    decreases |ps|
  {
    if ps != [] && ps[0].body != [] && n >= ps[0].Size() {
      PointAfterPoint(bodies + [ps[0].body], ps[1..], n - ps[0].Size(), left, more);
    }
  }

  /** The gap exists only for length prefixes of two or more bytes. */
  lemma {:induction false} ShortMessagesHaveNoGap(bodies: seq<Bytes>, ps: seq<Packet>, n: nat)
    requires Written(ps) && forall p :: p in ps ==> |p.body| <= 127
    ensures !At(bodies, ps, n).gap
    decreases |ps|
  {
    if ps != [] {
      assert ps[0] in ps && ps[0].Size() == |ps[0].body| + 1;
      if ps[0].body != [] && n >= ps[0].Size() {
        ShortMessagesHaveNoGap(bodies + [ps[0].body], ps[1..], n - ps[0].Size());
      }
    }
  }

  /** A message of 128 bytes can be cut so that the handler reads past its buffer. */
  lemma {:induction false} GapIsReachable()
    ensures exists p, n: nat :: Written([p]) && |p.body| == 128 && n < |Stream([p])| && At([], [p], n).gap
  {
    var body := seq(128, i => 0 as Byte);
    var p := Frame(body);
    assert EncodeVarint(128) == [128 as Byte] + EncodeVarint(1);
    assert [p][1..] == [] && |Stream([p])| == 130;
    assert At([], [p], 129).gap;
  }

  lemma {:induction false} CancelPrefix(a: Bytes, b: Bytes, c: Bytes)
    requires a + b <= a + c
    ensures b <= c
  {
    assert b == (a + b)[|a|..] && c == (a + c)[|a|..];
  }

  /** What the length test of the handler means for a buffer that starts a stream. */
  lemma {:induction false} FrontOfBuffer(bodies: seq<Bytes>, rest: seq<Packet>, buffer: Bytes)
    requires buffer <= Stream(rest) && Written(rest)
    ensures var (length, k) := DecodeVarint(buffer);
            var p := At(bodies, rest, |buffer|);
            if length > 0 && length < |buffer| then
              && rest != [] && length == |rest[0].body|
              && (length + k > |buffer| ==> p.gap)
              && (length + k <= |buffer| ==>
                    && buffer[k..length + k] == rest[0].body
                    && buffer[length + k..] <= Stream(rest[1..])
                    && p == At(bodies + [rest[0].body], rest[1..], |buffer| - length - k))
            else
              p == Point(bodies, rest, |buffer|, false)
  {
    if rest != [] {
      var p, after := rest[0], Stream(rest[1..]);
      assert p in rest;
      assert p.Bytes() + after == p.header + (p.body + after);
      DecodeHeader(|p.body|, buffer, p.body + after);
      var n := p.Size();
      if n <= |buffer| {
        assert buffer[..n] == (p.Bytes() + after)[..n] == p.Bytes();
        assert buffer == p.Bytes() + buffer[n..];
        CancelPrefix(p.Bytes(), buffer[n..], after);
      }
    }
  }

  lemma {:induction false} ConcatGrows(pieces: seq<Bytes>, i: nat, j: nat)
    requires i <= j <= |pieces|
    ensures Concat(pieces, i) <= Concat(pieces, j)
  {
    if i < j {
      ConcatGrows(pieces, i, j - 1);
    }
  }

  /** A read extends the buffered start of the remaining stream. */
  lemma {:induction false} GrowBuffer(ps: seq<Packet>, k: nat, sofar: Bytes, piece: Bytes, buffer: Bytes)
    requires k <= |ps| && sofar + piece <= Stream(ps)
    requires |sofar| == |Stream(ps[..k])| + |buffer| && buffer <= Stream(ps[k..])
    ensures buffer + piece <= Stream(ps[k..])
  {
    StreamSplit(ps, k);
    var front, rest := Stream(ps[..k]), Stream(ps[k..]);
    assert sofar == (front + rest)[..|sofar|] == front + rest[..|buffer|];
    assert sofar + piece == front + (buffer + piece);
    CancelPrefix(front, buffer + piece, rest);
  }

  lemma {:induction false} Arrival(ps: seq<Packet>, p: Point, sofar: Bytes, piece: Bytes, buffer: Bytes)
    requires p == At([], ps, |sofar|) && sofar + piece <= Stream(ps)
    requires |buffer| == p.left && buffer <= Stream(p.rest)
    ensures buffer + piece <= Stream(p.rest)
  {
    var k := PointMeaning([], ps, |sofar|);
    GrowBuffer(ps, k, sofar, piece, buffer);
  }

  /** One more read: the buffered bytes are still a start of the remaining stream, and the point
      that they reach is the one that all bytes together reach. */
  lemma {:induction false} NextRead(pieces: seq<Bytes>, i: nat, sent: seq<Packet>, p: Point, buffer: Bytes)
    requires i < |pieces| && Concat(pieces, |pieces|) <= Stream(sent)
    requires p == At([], sent, |Concat(pieces, i)|) && |buffer| == p.left && buffer <= Stream(p.rest)
    ensures |Concat(pieces, i + 1)| == |Concat(pieces, i)| + |pieces[i]|
    ensures buffer + pieces[i] <= Stream(p.rest)
    ensures At([], sent, |Concat(pieces, i + 1)|) == At(p.bodies, p.rest, |buffer + pieces[i]|)
  {
    hide At, Stream;
    ConcatGrows(pieces, i + 1, |pieces|);
    Arrival(sent, p, Concat(pieces, i), pieces[i], buffer);
    PointAfterPoint([], sent, |Concat(pieces, i)|, |buffer|, |pieces[i]|);
  }

  lemma {:induction false} NoReads(pieces: seq<Bytes>, sent: seq<Packet>)
    ensures Concat(pieces, 0) == [] && SafeCut(sent, 0)
    ensures var p := At([], sent, 0); p.bodies == [] && p.left == 0 && p.rest == sent
  {
  }

  /** Of the packets sent, the received messages are the first ones; with the buffer they make
      up all bytes that arrived, and the next packet is not complete or is empty. */
  ghost predicate Accounted(sent: seq<Packet>, arrived: Bytes, received: seq<Bytes>, buffer: Bytes) {
    var k := |received|;
    && k <= |sent|
    && (forall i :: 0 <= i < k ==> received[i] == sent[i].body != [])
    && arrived == Stream(sent[..k]) + buffer
    && (k < |sent| && sent[k].body != [] ==> buffer <= sent[k].Bytes() && buffer != sent[k].Bytes())
  }

  lemma {:induction false} NothingLost(ps: seq<Packet>, p: Point, total: Bytes, buffer: Bytes)
    requires total <= Stream(ps) && p == At([], ps, |total|)
    requires |buffer| == p.left && buffer <= Stream(p.rest)
    ensures Accounted(ps, total, p.bodies, buffer)
  {
    var k := PointMeaning([], ps, |total|);
    BodiesInOrder([], ps, |total|);
    StreamSplit(ps, k);
    var front, rest := Stream(ps[..k]), ps[k..];
    assert total == (front + Stream(rest))[..|total|] == front + buffer;
    if rest != [] {
      assert Stream(rest)[..rest[0].Size()] == rest[0].Bytes();
    }
  }

  class ConnectionHandler {
    var buffer: Bytes
    var received: seq<Bytes>

    constructor ()
      ensures buffer == [] && received == []
    {
      buffer, received := [], [];
    }

    /** Cuts packets off the front of the buffer, which holds the start of the stream of
        `pending`. `ok` is false when a message slice would end beyond the buffered bytes. */
    method ProcessMessage(ghost pending: seq<Packet>) returns (ok: bool, ghost point: Point)
      requires buffer <= Stream(pending) && Written(pending)
      modifies this
      ensures point == At(old(received), pending, |old(buffer)|)
      ensures ok == !point.gap
      ensures ok ==> received == point.bodies && |buffer| == point.left
      ensures ok ==> buffer <= Stream(point.rest) && Written(point.rest)
    {
      point := At(received, pending, |buffer|);
      ok := true;
      ghost var rest := pending;
      while true
        invariant buffer <= Stream(rest) && Written(rest)
        invariant point == At(received, rest, |buffer|)
        decreases |buffer|
      {
        FrontOfBuffer(received, rest, buffer);
        var (messageLength, bytesRead) := DecodeVarint(buffer);
        if messageLength > 0 && messageLength < |buffer| {
          var messageBoundary := messageLength + bytesRead;
          if messageBoundary > |buffer| {
            ok := false;
            return;
          }
          var receivedBytes := buffer[bytesRead..messageBoundary];
          buffer := buffer[messageBoundary..];
          received := received + [receivedBytes];
          rest := rest[1..];
          if buffer == [] {
            return;
          }
        } else {
          return;
        }
      }
    }

    /** The read loop, for every way the socket may split the stream of `sent` into reads,
        the last packet possibly incomplete. */
    method HandleConnectionMessages(pieces: seq<Bytes>, ghost sent: seq<Packet>) returns (ok: bool)
      requires buffer == [] && received == []
      requires Concat(pieces, |pieces|) <= Stream(sent) && Written(sent)
      modifies this
      ensures ok <==> forall j :: 0 <= j <= |pieces| ==> SafeCut(sent, |Concat(pieces, j)|)
      ensures ok ==> Accounted(sent, Concat(pieces, |pieces|), received, buffer)
    {
      hide At, Stream, Concat, SafeCut, Written, Accounted;
      NoReads(pieces, sent);
      var i := 0;
      ghost var p := At([], sent, 0);
      while i < |pieces|
        invariant 0 <= i <= |pieces|
        invariant p == At([], sent, |Concat(pieces, i)|)
        invariant received == p.bodies && |buffer| == p.left
        invariant buffer <= Stream(p.rest) && Written(p.rest)
        invariant forall j :: 0 <= j <= i ==> SafeCut(sent, |Concat(pieces, j)|)
      {
        NextRead(pieces, i, sent, p, buffer);
        buffer := buffer + pieces[i];
        ok, p := ProcessMessage(p.rest);
        i := i + 1;
        SafeMeans(sent, |Concat(pieces, i)|);
        if !ok {
          return;
        }
      }
      NothingLost(sent, p, Concat(pieces, i), buffer);
      ok := true;
    }
  }
}
