/**
 Length-prefixed framing: the request encoder, the incremental parser over a chunked network buffer, and why the
 packets found do not depend on how the stream was cut into chunks.
 */
module Framing {

  type byte = x: int | 0 <= x < 256

  const MAX_PACKAGE_SIZE: nat := 1024 * 1024 * 10
  const LENGTH_SIZE: nat := 4

  datatype PacketType = Less | Full | Err

  // ---- 32-bit lengths in the two byte orders

  function BigEndian(b: seq<byte>): (n: nat)
    requires |b| == 4
    ensures n < 0x1_0000_0000
  {
    var b0: int, b1: int, b2: int, b3: int := b[0], b[1], b[2], b[3];
    ((b0 * 256 + b1) * 256 + b2) * 256 + b3
  }

  /** What a little-endian host reads before any byte swap. */
  function LittleEndian(b: seq<byte>): (n: nat)
    requires |b| == 4
    ensures n < 0x1_0000_0000
  {
    BigEndian([b[3], b[2], b[1], b[0]])
  }

  function NetworkOrder(n: nat): (b: seq<byte>)
    ensures |b| == 4
  {
    var a := n / 256;
    var b := a / 256;
    var c := b / 256;
    [c % 256, b % 256, a % 256, n % 256]
  }

  lemma NetworkOrderReadsBack(n: nat)
    ensures BigEndian(NetworkOrder(n)) == n % 0x1_0000_0000
  {
    var a := n / 256;
    var b := a / 256;
    var c := b / 256;
    var q := c / 256;
    var value := ((c % 256 * 256 + b % 256) * 256 + a % 256) * 256 + n % 256;
    assert n == 256 * a + n % 256 && a == 256 * b + a % 256 && b == 256 * c + b % 256 && c == 256 * q + c % 256;
    assert n == q * 0x1_0000_0000 + value;
    assert 0 <= value < 0x1_0000_0000;
  }

  /** Network order puts the most significant byte first. */
  lemma HighByteDecides(a: seq<byte>, b: seq<byte>)
    requires |a| == |b| == 4
    ensures a[0] < b[0] ==> BigEndian(a) < BigEndian(b)
    ensures a[0] == b[0] && a[1] < b[1] ==> BigEndian(a) < BigEndian(b)
    ensures a[..2] == b[..2] && a[2] < b[2] ==> BigEndian(a) < BigEndian(b)
    ensures a[..3] == b[..3] && a[3] < b[3] ==> BigEndian(a) < BigEndian(b)
  {
    assert a[..2] == [a[0], a[1]] && b[..2] == [b[0], b[1]];
    assert a[..3] == [a[0], a[1], a[2]] && b[..3] == [b[0], b[1], b[2]];
  }

  /** A length in this byte order. */
  function LengthField(n: nat, netorder: bool): (b: seq<byte>)
    ensures |b| == LENGTH_SIZE
  {
    var b := NetworkOrder(n);
    if netorder then b else [b[3], b[2], b[1], b[0]]
  }

  // ---- the stream specification

  /** The verdict on the front of a stream: the frame length when a whole legal frame is there. */
  datatype Front = NeedMore | Bad | Frame(length: nat)

  function FrontOf(s: seq<byte>, offset: nat, netorder: bool): (f: Front)
    ensures f.Frame? ==> offset + LENGTH_SIZE <= f.length <= |s| && f.length <= MAX_PACKAGE_SIZE
  {
    if |s| < offset + LENGTH_SIZE then NeedMore else
    var field := s[offset..offset + LENGTH_SIZE];
    var length := if netorder then BigEndian(field) else LittleEndian(field);
    if length < offset + LENGTH_SIZE || length > MAX_PACKAGE_SIZE then Bad
    else if |s| < length then NeedMore
    else Frame(length)
  }

  lemma FieldReadsBack(n: nat, netorder: bool)
    requires n < 0x1_0000_0000
    ensures var field := LengthField(n, netorder);
      n == if netorder then BigEndian(field) else LittleEndian(field)
  {
    var b := NetworkOrder(n);
    NetworkOrderReadsBack(n);
    assert [b[0], b[1], b[2], b[3]] == b;
  }

  /** Every verdict: a length too small to hold its field or above the package limit is bad, however much is there; any
      other is awaited and then framed. */
  lemma FrontExactly(pre: seq<byte>, n: nat, rest: seq<byte>, netorder: bool)
    requires n < 0x1_0000_0000
    ensures var s := pre + LengthField(n, netorder) + rest;
      FrontOf(s, |pre|, netorder)
        == if n < |pre| + LENGTH_SIZE || n > MAX_PACKAGE_SIZE then Bad else if |s| < n then NeedMore else Frame(n)
  {
    FieldReadsBack(n, netorder);
    var field := LengthField(n, netorder);
    assert (pre + field + rest)[|pre|..|pre| + LENGTH_SIZE] == field;
  }

  /** While the length field is incomplete, more is needed. */
  lemma IncompleteNeedsMore(s: seq<byte>, offset: nat, netorder: bool)
    ensures |s| < offset + LENGTH_SIZE ==> FrontOf(s, offset, netorder) == NeedMore
  {
  }

  /** All packets of a stream, what is left over, and whether the parser gave up. */
  datatype Decoded = Decoded(packets: seq<seq<byte>>, rest: seq<byte>, bad: bool)

  function Decode(s: seq<byte>, offset: nat, netorder: bool): (d: Decoded)
    decreases |s|
  {
    match FrontOf(s, offset, netorder)
    case NeedMore => Decoded([], s, false)
    case Bad => Decoded([], s, true)
    case Frame(length) =>
      Prepend(s[..length], Decode(s[length..], offset, netorder))
  }

  /** More bytes never change a verdict that was already reached. */
  lemma FrontIsStable(a: seq<byte>, b: seq<byte>, offset: nat, netorder: bool)
    ensures !FrontOf(a, offset, netorder).NeedMore? ==> FrontOf(a + b, offset, netorder) == FrontOf(a, offset, netorder)
  {
    if |a| >= offset + LENGTH_SIZE {
      assert (a + b)[offset..offset + LENGTH_SIZE] == a[offset..offset + LENGTH_SIZE];
    }
  }

  function Then(d: Decoded, more: Decoded): Decoded {
    Decoded(d.packets + more.packets, more.rest, more.bad)
  }

  function Prepend(packet: seq<byte>, d: Decoded): Decoded {
    Decoded([packet] + d.packets, d.rest, d.bad)
  }

  lemma PrependThen(packet: seq<byte>, d: Decoded, more: Decoded)
    ensures Then(Prepend(packet, d), more) == Prepend(packet, Then(d, more))
  {
    assert [packet] + d.packets + more.packets == [packet] + (d.packets + more.packets);
  }

  /** Decoding a stream that grew is decoding its leftover with the new bytes; a broken stream stays broken. */
  lemma {:induction false} DecodeContinues(a: seq<byte>, b: seq<byte>, offset: nat, netorder: bool)
    ensures Decode(a, offset, netorder).bad ==>
      && Decode(a + b, offset, netorder).bad
      && Decode(a + b, offset, netorder).packets == Decode(a, offset, netorder).packets
    ensures !Decode(a, offset, netorder).bad ==>
      Decode(a + b, offset, netorder)
        == Then(Decode(a, offset, netorder), Decode(Decode(a, offset, netorder).rest + b, offset, netorder))
    decreases |a|
  {
    FrontIsStable(a, b, offset, netorder);
    var f := FrontOf(a, offset, netorder);
    if f.Frame? {
      var tail, d := a[f.length..], Decode(a[f.length..], offset, netorder);
      DecodeContinues(tail, b, offset, netorder);
      DecodeFrame(a, offset, netorder, f.length);
      DecodeFrame(a + b, offset, netorder, f.length);
      assert (a + b)[f.length..] == tail + b && (a + b)[..f.length] == a[..f.length];
      if !d.bad { PrependThen(a[..f.length], d, Decode(d.rest + b, offset, netorder)); }
    }
  }

  lemma DecodeFrame(s: seq<byte>, offset: nat, netorder: bool, length: nat)
    requires FrontOf(s, offset, netorder) == Frame(length)
    ensures Decode(s, offset, netorder) == Prepend(s[..length], Decode(s[length..], offset, netorder))
  {
  }

  // ---- the encoder

  /** A request on the wire: four bytes of total length in network order, then the body. */
  function Encode(body: seq<byte>): (s: seq<byte>)
    ensures |s| == LENGTH_SIZE + |body|
  {
    NetworkOrder(LENGTH_SIZE + |body|) + body
  }

  method TarsRequest(body: seq<byte>) returns (buff: array<byte>)
    ensures fresh(buff) && buff[..] == Encode(body)
  {
    buff := new byte[LENGTH_SIZE + |body|](i => 0);
    for i := 0 to |body|
      invariant forall k :: 0 <= k < i ==> buff[LENGTH_SIZE + k] == body[k]
    {
      buff[LENGTH_SIZE + i] := body[i];
    }
    var length := NetworkOrder(buff.Length);
    buff[0], buff[1], buff[2], buff[3] := length[0], length[1], length[2], length[3];
    assert buff[..] == Encode(body);
  }

  function Fits(body: seq<byte>): bool {
    LENGTH_SIZE + |body| <= MAX_PACKAGE_SIZE
  }

  function Stream(bodies: seq<seq<byte>>): seq<byte> {
    if bodies == [] then [] else Encode(bodies[0]) + Stream(bodies[1..])
  }

  function Encodings(bodies: seq<seq<byte>>): (r: seq<seq<byte>>)
    ensures |r| == |bodies| && forall i :: 0 <= i < |r| ==> r[i] == Encode(bodies[i])
  {
    seq(|bodies|, i requires 0 <= i < |bodies| => Encode(bodies[i]))
  }

  lemma FrontOfEncoded(body: seq<byte>, tail: seq<byte>)
    requires Fits(body)
    ensures FrontOf(Encode(body) + tail, 0, true) == Frame(|Encode(body)|)
  {
    NetworkOrderReadsBack(LENGTH_SIZE + |body|);
    assert (Encode(body) + tail)[0..LENGTH_SIZE] == NetworkOrder(LENGTH_SIZE + |body|);
  }

  /** The parser inverts the encoder on any sequence of legal packets. */
  lemma {:induction false} DecodeInvertsEncode(bodies: seq<seq<byte>>)
    requires forall i :: 0 <= i < |bodies| ==> Fits(bodies[i])
    ensures Decode(Stream(bodies), 0, true) == Decoded(Encodings(bodies), [], false)
  {
    if bodies != [] {
      var first, rest := Encode(bodies[0]), Stream(bodies[1..]);
      FrontOfEncoded(bodies[0], rest);
      DecodeInvertsEncode(bodies[1..]);
      assert (first + rest)[|first|..] == rest && (first + rest)[..|first|] == first;
      assert Encodings(bodies) == [first] + Encodings(bodies[1..]);
    }
  }

  /** One request comes back whole if and only if it is within the package limit. */
  lemma ComesBackIffFits(body: seq<byte>)
    ensures Decode(Encode(body), 0, true).packets == [Encode(body)] <==> Fits(body)
  {
    if Fits(body) {
      DecodeInvertsEncode([body]);
      assert [body][1..] == [] && Encode(body) + [] == Encode(body);
      assert Encodings([body]) == [Encode(body)];
    } else {
      var f := FrontOf(Encode(body), 0, true);
      if f.Frame? {
        DecodeFrame(Encode(body), 0, true, f.length);
        assert |Decode(Encode(body), 0, true).packets[0]| == f.length;
      }
    }
  }

  // ---- the network buffer and the parser

  function Flat(chunks: seq<seq<byte>>): seq<byte> {
    if chunks == [] then [] else chunks[0] + Flat(chunks[1..])
  }

  lemma {:induction false} FlatOfPush(chunks: seq<seq<byte>>, c: seq<byte>)
    ensures Flat(chunks + [c]) == Flat(chunks) + c
  {
    if chunks == [] {
      assert Flat([c]) == c + Flat([]);
    } else {
      assert (chunks + [c])[1..] == chunks[1..] + [c];
      FlatOfPush(chunks[1..], c);
    }
  }

  lemma {:induction false} FlatOfConcat(a: seq<seq<byte>>, b: seq<seq<byte>>)
    ensures Flat(a + b) == Flat(a) + Flat(b)
  {
    if a == [] {
      assert a + b == b;
    } else {
      assert (a + b)[1..] == a[1..] + b;
      FlatOfConcat(a[1..], b);
    }
  }

  /** The header so far is the front of the content, and until it is complete all chunks before this one are in it. */
  ghost predicate Copied(header: seq<byte>, len: nat, chunks: seq<seq<byte>>, it: nat) {
    && it <= |chunks| && |header| <= len <= |Flat(chunks)|
    && header == Flat(chunks)[..|header|]
    && (|header| < len ==> Flat(chunks) == header + Flat(chunks[it..]))
  }

  lemma CopyOneMore(header: seq<byte>, len: nat, chunks: seq<seq<byte>>, it: nat, take: nat)
    requires it < |chunks| && Copied(header, len, chunks, it) && |header| < len
    requires take == if len - |header| < |chunks[it]| then len - |header| else |chunks[it]|
    ensures Copied(header + chunks[it][..take], len, chunks, it + 1)
  {
    assert chunks[it..] == [chunks[it]] + chunks[it + 1..];
    assert Flat(chunks) == header + chunks[it] + Flat(chunks[it + 1..]);
    assert take == |chunks[it]| ==> chunks[it][..take] == chunks[it];
  }

  class NetWorkBuffer {
    var bufferList: seq<seq<byte>>
    var length: nat

    ghost predicate Valid()
      reads this
    {
      length == |Content()|
    }

    ghost function Content(): seq<byte>
      reads this
    {
      Flat(bufferList)
    }

    constructor ()
      ensures Valid() && Content() == []
    {
      bufferList, length := [], 0;
    }

    method AddBuffer(c: seq<byte>)
      requires Valid()
      modifies this
      ensures Valid() && Content() == old(Content()) + c
    {
      if c == [] { assert Content() + c == Content(); return; }
      FlatOfPush(bufferList, c);
      bufferList := bufferList + [c];
      length := length + |c|;
    }

    /** Copy the first `len` bytes out, chunk by chunk. */
    method GetHeader(len: nat) returns (ok: bool, header: seq<byte>)
      requires Valid()
      ensures ok <==> len <= |Content()|
      ensures ok ==> header == Content()[..len]
    {
      header := [];
      if length < len { return false, header; }
      var it := 0;
      while it < |bufferList| && |header| < len
        invariant 0 <= it <= |bufferList| && Copied(header, len, bufferList, it)
        decreases |bufferList| - it
      {
        var left := len - |header|;
        var take := if left < |bufferList[it]| then left else |bufferList[it]|;
        CopyOneMore(header, len, bufferList, it, take);
        header := header + bufferList[it][..take];
        it := it + 1;
      }
      ok := true;
    }

    method GetBuffers() returns (all: seq<byte>)
      requires Valid()
      ensures all == Content()
    {
      var ok;
      ok, all := GetHeader(length);
      assert Content()[..length] == Content();
    }

    /** Drop the first `len` bytes: whole chunks first, then the read index of one chunk. */
    method MoveHeader(len: nat) returns (ok: bool)
      requires Valid()
      modifies this
      ensures Valid() && (ok <==> len <= |old(Content())|)
      ensures Content() == if ok then old(Content())[len..] else old(Content())
      decreases len, |bufferList|
    {
      if length < len { return false; }
      if len == 0 { return true; }
      var left := |bufferList[0]|;
      if left > len {
        bufferList := [bufferList[0][len..]] + bufferList[1..];
        length := length - len;
        return true;
      }
      bufferList := bufferList[1..];
      length := length - left;
      if left < len { ok := MoveHeader(len - left); } else { ok := true; }
    }
  }

  /** One call: a whole frame is consumed and returned, or nothing is consumed. */
  method ParseStream(buffer: NetWorkBuffer, offset: nat, netorder: bool) returns (ret: PacketType, out: seq<byte>)
    requires buffer.Valid()
    modifies buffer
    ensures buffer.Valid()
    ensures match FrontOf(old(buffer.Content()), offset, netorder)
      case NeedMore => ret == Less && buffer.Content() == old(buffer.Content())
      case Bad => ret == Err && buffer.Content() == old(buffer.Content())
      case Frame(n) =>
        ret == Full && out == old(buffer.Content())[..n] && buffer.Content() == old(buffer.Content())[n..]
  {
    out := [];
    var len := offset + LENGTH_SIZE;
    if buffer.length < len { return Less, out; }
    var ok, header := buffer.GetHeader(len);
    assert |header| == len;
    var field := header[offset..len];
    assert field == buffer.Content()[offset..len];
    var headerLen := LittleEndian(field);
    if netorder { headerLen := BigEndian(field); }
    if headerLen < len || headerLen > MAX_PACKAGE_SIZE { return Err, out; }
    if buffer.length < headerLen { return Less, out; }
    ok, out := buffer.GetHeader(headerLen);
    assert |out| == headerLen;
    ok := buffer.MoveHeader(headerLen);
    ret := Full;
  }

  /** What one call does to the decoding of the whole stream. */
  method ParsePacket(buffer: NetWorkBuffer, offset: nat, netorder: bool) returns (ret: PacketType, out: seq<byte>)
    requires buffer.Valid()
    modifies buffer
    ensures buffer.Valid()
    ensures ret == Full ==> |buffer.Content()| < |old(buffer.Content())|
    ensures ret == Full ==>
      Decode(old(buffer.Content()), offset, netorder) == Prepend(out, Decode(buffer.Content(), offset, netorder))
    ensures ret != Full ==>
      Decode(old(buffer.Content()), offset, netorder) == Decoded([], buffer.Content(), ret == Err)
  {
    ghost var f := FrontOf(buffer.Content(), offset, netorder);
    if f.Frame? { DecodeFrame(buffer.Content(), offset, netorder, f.length); }
    ret, out := ParseStream(buffer, offset, netorder);
  }

  /** The protocol loop of the transceiver: parse until no whole frame is left. */
  method Drain(buffer: NetWorkBuffer, offset: nat, netorder: bool) returns (packets: seq<seq<byte>>, bad: bool)
    requires buffer.Valid()
    modifies buffer
    ensures buffer.Valid()
    ensures Decode(old(buffer.Content()), offset, netorder) == Decoded(packets, buffer.Content(), bad)
  {
    ghost var all := Decode(buffer.Content(), offset, netorder);
    packets := [];
    while true
      invariant buffer.Valid()
      invariant all == Then(Decoded(packets, [], false), Decode(buffer.Content(), offset, netorder))
      decreases |buffer.Content()|
    {
      ghost var before := Decode(buffer.Content(), offset, netorder);
      var ret, out := ParsePacket(buffer, offset, netorder);
      if ret != Full {
        assert packets + [] == packets;
        bad := ret == Err;
        return;
      }
      ThenPrepend(packets, out, Decode(buffer.Content(), offset, netorder));
      packets := packets + [out];
    }
  }

  lemma ThenPrepend(packets: seq<seq<byte>>, out: seq<byte>, d: Decoded)
    ensures Then(Decoded(packets, [], false), Prepend(out, d)) == Then(Decoded(packets + [out], [], false), d)
  {
    assert packets + ([out] + d.packets) == packets + [out] + d.packets;
  }

  /** A connection: every chunk that arrives is buffered and drained; a parse error closes it. However a stream is
      cut into chunks, the packets delivered are those of the whole stream. */
  method Receive(chunks: seq<seq<byte>>, offset: nat, netorder: bool)
    returns (packets: seq<seq<byte>>, rest: seq<byte>, bad: bool)
    ensures packets == Decode(Flat(chunks), offset, netorder).packets
    ensures bad == Decode(Flat(chunks), offset, netorder).bad
    ensures !bad ==> rest == Decode(Flat(chunks), offset, netorder).rest
  {
    var buffer := new NetWorkBuffer();
    packets, bad := [], false;
    var i := 0;
    while i < |chunks| && !bad
      invariant 0 <= i <= |chunks| && buffer.Valid() && fresh(buffer)
      invariant Decode(Flat(chunks[..i]), offset, netorder) == Decoded(packets, buffer.Content(), bad)
    {
      packets, bad := ReceiveChunk(buffer, chunks[i], offset, netorder, packets, Flat(chunks[..i]));
      FlatOfPrefix(chunks, i);
      i := i + 1;
    }
    rest := buffer.GetBuffers();
    DecodePrefix(chunks, i, offset, netorder);
  }

  method ReceiveChunk(buffer: NetWorkBuffer, c: seq<byte>, offset: nat, netorder: bool, packets: seq<seq<byte>>,
                      ghost seen: seq<byte>) returns (all: seq<seq<byte>>, bad: bool)
    requires buffer.Valid()
    requires Decode(seen, offset, netorder) == Decoded(packets, buffer.Content(), false)
    modifies buffer
    ensures buffer.Valid()
    ensures Decode(seen + c, offset, netorder) == Decoded(all, buffer.Content(), bad)
  {
    DecodeContinues(seen, c, offset, netorder);
    buffer.AddBuffer(c);
    var more;
    more, bad := Drain(buffer, offset, netorder);
    all := packets + more;
  }

  lemma FlatOfPrefix(chunks: seq<seq<byte>>, i: nat)
    requires i < |chunks|
    ensures Flat(chunks[..i + 1]) == Flat(chunks[..i]) + chunks[i]
  {
    assert chunks[..i + 1] == chunks[..i] + [chunks[i]];
    FlatOfPush(chunks[..i], chunks[i]);
  }

  /** Once a prefix of the stream is broken, or all of it was seen, the verdict is that of the whole stream. */
  lemma DecodePrefix(chunks: seq<seq<byte>>, i: nat, offset: nat, netorder: bool)
    requires i <= |chunks|
    requires i == |chunks| || Decode(Flat(chunks[..i]), offset, netorder).bad
    ensures Decode(Flat(chunks), offset, netorder).packets == Decode(Flat(chunks[..i]), offset, netorder).packets
    ensures Decode(Flat(chunks), offset, netorder).bad == Decode(Flat(chunks[..i]), offset, netorder).bad
    ensures i == |chunks| ==> Decode(Flat(chunks), offset, netorder) == Decode(Flat(chunks[..i]), offset, netorder)
  {
    assert chunks == chunks[..i] + chunks[i..];
    if i == |chunks| {
      assert chunks[..i] == chunks;
    } else {
      FlatOfConcat(chunks[..i], chunks[i..]);
      DecodeContinues(Flat(chunks[..i]), Flat(chunks[i..]), offset, netorder);
    }
  }
}
