/** The length-prefixed protobuf codec (applications/protobuf/codec/protobufCodec.cpp). */
module Codec {
  import opened Adler
  import opened CInts
  import opened Options
  import opened Bytes
  import opened Buffer

  const HEADER_LEN: nat := 4
  const MIN_MESSAGE_LEN: nat := 2 * HEADER_LEN + 2
  const MAX_MESSAGE_LEN: nat := 64 * 1024 * 1024

  datatype ErrorCode = InvalidLength | CheckSumError | InvalidNameLen | UnknownMessageType | ParseError

  /** The protobuf runtime: which type names it knows, and what it makes of bytes. */
  datatype Library<!M> = Library(
    known: seq<byte> -> bool,
    parse: (seq<byte>, seq<byte>) -> Option<M>,
    typeName: M -> seq<byte>,
    serialize: M -> seq<byte>)

  datatype Parsed<+M> = Message(message: M) | Error(code: ErrorCode)

  // -------------------------------------------------------------- the decoder

  /** `parse`, on the `len` bytes it is given: every access stays inside them. */
  function Parse<M>(lib: Library<M>, body: seq<byte>): Parsed<M>
    requires |body| >= MIN_MESSAGE_LEN
  {
    var len := |body|;
    if CheckSum(body[..len - HEADER_LEN]) != DecodeInt32(body[len - HEADER_LEN..]) then Error(CheckSumError)
    else
      var nameLen := DecodeInt32(body[..HEADER_LEN]);
      if nameLen < 2 || nameLen > len - 2 * HEADER_LEN then Error(InvalidNameLen)
      else
        var typeName := body[HEADER_LEN..HEADER_LEN + nameLen - 1];
        if !lib.known(typeName) then Error(UnknownMessageType)
        else
          var data := body[HEADER_LEN + nameLen..len - HEADER_LEN];
          match lib.parse(typeName, data)
          case None => Error(ParseError)
          case Some(m) => Message(m)
  }

  /** What the head of the buffered bytes is: not enough yet, a bad frame, or a
      message and the bytes its frame takes. */
  datatype Head<+M> = Incomplete | Bad(code: ErrorCode) | Good(message: M, size: nat)

  function DecodeHead<M>(lib: Library<M>, bytes: seq<byte>): (h: Head<M>)
    ensures h.Good? ==> MIN_MESSAGE_LEN + HEADER_LEN <= h.size <= |bytes|
  {
    if |bytes| < MIN_MESSAGE_LEN + HEADER_LEN then Incomplete
    else
      var len := DecodeInt32(bytes[..HEADER_LEN]);
      if len < MIN_MESSAGE_LEN || len > MAX_MESSAGE_LEN then Bad(InvalidLength)
      else if |bytes| < len + HEADER_LEN then Incomplete
      else
        match Parse(lib, bytes[HEADER_LEN..HEADER_LEN + len])
        case Error(code) => Bad(code)
        case Message(m) => Good(m, HEADER_LEN + len)
  }

  /** Messages delivered, bytes left in the buffer, and the error reported, if any. */
  datatype Decoded<+M> = Decoded(messages: seq<M>, rest: seq<byte>, error: Option<ErrorCode>)

  function Prepend<M>(messages: seq<M>, d: Decoded<M>): Decoded<M> {
    d.(messages := messages + d.messages)
  }

  /** What one call of `onMessage` makes of the buffered bytes. */
  function Decode<M>(lib: Library<M>, bytes: seq<byte>): Decoded<M>
    decreases |bytes|
  {
    match DecodeHead(lib, bytes)
    case Incomplete => Decoded([], bytes, None)
    case Bad(code) => Decoded([], bytes, Some(code))
    case Good(m, size) => Prepend([m], Decode(lib, bytes[size..]))
  }

  /** `onMessage`: the loop over the buffer, with callbacks that leave the buffer
      alone.  Every iteration that does not leave it takes at least 14 bytes. */
  method OnMessage<M>(lib: Library<M>, buf: Buffer) returns (delivered: seq<M>, error: Option<ErrorCode>)
    requires buf.Valid()
    modifies buf
    ensures buf.Valid() && buf.vec == old(buf.vec)
    ensures Decode(lib, old(buf.Contents())) == Decoded(delivered, buf.Contents(), error)
  {
    hide Parse, DecodeInt32, Prepend;
    delivered, error := [], None;
    PrependNothing(Decode(lib, buf.Contents()));
    while buf.ReadableBytes() >= MIN_MESSAGE_LEN + HEADER_LEN
      invariant buf.Valid() && buf.vec == old(buf.vec)
      invariant Decode(lib, old(buf.Contents())) == Prepend(delivered, Decode(lib, buf.Contents()))
      invariant error == None
      decreases buf.ReadableBytes()
    {
      var len := buf.PeekInt32();
      ghost var was := buf.Contents();
      if len < MIN_MESSAGE_LEN || len > MAX_MESSAGE_LEN {
        error := Some(InvalidLength);
        break;
      } else if buf.ReadableBytes() < len + HEADER_LEN {
        break;
      } else {
        match Parse(lib, buf.Peek(HEADER_LEN, len)) {
          case Error(code) =>
            error := Some(code);
            break;
          case Message(m) =>
            buf.Retrieve(HEADER_LEN + len);
            assert DecodeHead(lib, was) == Good(m, HEADER_LEN + len);
            PrependTwice(delivered, [m], Decode(lib, buf.Contents()));
            delivered := delivered + [m];
        }
      }
    }
    PrependToStop(delivered, buf.Contents(), error);
  }

  lemma PrependNothing<M>(d: Decoded<M>)
    ensures Prepend([], d) == d
  {
    assert [] + d.messages == d.messages;
  }

  lemma PrependToStop<M>(messages: seq<M>, rest: seq<byte>, error: Option<ErrorCode>)
    ensures Prepend(messages, Decoded([], rest, error)) == Decoded(messages, rest, error)
  {
    assert messages + [] == messages;
  }

  lemma PrependTwice<M>(first: seq<M>, second: seq<M>, d: Decoded<M>)
    ensures Prepend(first, Prepend(second, d)) == Prepend(first + second, d)
  {
    assert first + (second + d.messages) == first + second + d.messages;
  }

  // -------------------------------------------------- independence of chunking

  /** What the head is does not change when more bytes arrive behind it. */
  lemma HeadIsStable<M>(lib: Library<M>, bytes: seq<byte>, more: seq<byte>)
    requires !DecodeHead(lib, bytes).Incomplete?
    ensures DecodeHead(lib, bytes + more) == DecodeHead(lib, bytes)
  {
    hide Parse, DecodeInt32;
    var all := bytes + more;
    assert all[..HEADER_LEN] == bytes[..HEADER_LEN];
    var len := DecodeInt32(bytes[..HEADER_LEN]);
    if MIN_MESSAGE_LEN <= len <= MAX_MESSAGE_LEN {
      assert all[HEADER_LEN..HEADER_LEN + len] == bytes[HEADER_LEN..HEADER_LEN + len];
    }
  }

  /** Decoding in two goes, the second on what the first left and what came after,
      delivers the same as decoding everything at once. */
  lemma {:induction false} DecodeInTwo<M>(lib: Library<M>, bytes: seq<byte>, more: seq<byte>)
    ensures var d := Decode(lib, bytes);
            Decode(lib, bytes + more) == Prepend(d.messages, Decode(lib, d.rest + more))
    decreases |bytes|
  {
    hide DecodeHead;
    var h := DecodeHead(lib, bytes);
    if h.Good? {
      HeadIsStable(lib, bytes, more);
      assert (bytes + more)[h.size..] == bytes[h.size..] + more;
      DecodeInTwo(lib, bytes[h.size..], more);
      var d := Decode(lib, bytes[h.size..]);
      PrependTwice([h.message], d.messages, Decode(lib, d.rest + more));
    }
  }

  /** A decoder fed chunk by chunk: it decodes what it kept and the new chunk. */
  function Feed<M>(lib: Library<M>, kept: seq<byte>, chunks: seq<seq<byte>>): (seq<M>, seq<byte>)
    decreases |chunks|
  {
    if chunks == [] then ([], kept)
    else
      var d := Decode(lib, kept + chunks[0]);
      var (later, rest) := Feed(lib, d.rest, chunks[1..]);
      (d.messages + later, rest)
  }

  function Concat(chunks: seq<seq<byte>>): seq<byte> {
    if chunks == [] then [] else chunks[0] + Concat(chunks[1..])
  }

  /** Nothing more can be delivered from what a decoder keeps. */
  lemma {:induction false} RestIsSettled<M>(lib: Library<M>, bytes: seq<byte>)
    ensures var d := Decode(lib, bytes);
            Decode(lib, d.rest) == Decoded([], d.rest, d.error)
    decreases |bytes|
  {
    hide DecodeHead;
    var h := DecodeHead(lib, bytes);
    if h.Good? {
      RestIsSettled(lib, bytes[h.size..]);
    }
  }

  /** Feeding in chunks delivers what decoding the whole stream at once delivers. */
  lemma {:induction false} FeedDecodesStream<M>(lib: Library<M>, kept: seq<byte>, chunks: seq<seq<byte>>)
    requires Decode(lib, kept).messages == []
    ensures var d := Decode(lib, kept + Concat(chunks));
            Feed(lib, kept, chunks) == (d.messages, d.rest)
    decreases |chunks|
  {
    hide Decode, DecodeHead;
    if chunks == [] {
      assert kept + Concat(chunks) == kept;
      SettledKeepsAll(lib, kept);
    } else {
      var front := kept + chunks[0];
      var d := Decode(lib, front);
      assert kept + Concat(chunks) == front + Concat(chunks[1..]);
      RestIsSettled(lib, front);
      DecodeInTwo(lib, front, Concat(chunks[1..]));
      FeedDecodesStream(lib, d.rest, chunks[1..]);
    }
  }

  lemma SettledKeepsAll<M>(lib: Library<M>, kept: seq<byte>)
    requires Decode(lib, kept).messages == []
    ensures Decode(lib, kept).rest == kept && !DecodeHead(lib, kept).Good?
  {
  }

  /** The messages delivered, and the bytes kept, do not depend on how the stream
      was split into reads. */
  lemma ChunkingIndependence<M>(lib: Library<M>, chunks: seq<seq<byte>>, others: seq<seq<byte>>)
    requires Concat(chunks) == Concat(others)
    ensures Feed(lib, [], chunks) == Feed(lib, [], others)
  {
    FeedDecodesStream(lib, [], chunks);
    FeedDecodesStream(lib, [], others);
  }

  /** Once a frame is bad, no later chunk gets anything delivered, every byte from
      that frame on is kept, and the error stays the same. */
  lemma NothingAfterBadFrame<M>(lib: Library<M>, kept: seq<byte>, chunks: seq<seq<byte>>)
    requires DecodeHead(lib, kept).Bad?
    ensures Feed(lib, kept, chunks) == ([], kept + Concat(chunks))
    ensures Decode(lib, kept + Concat(chunks)).error == Some(DecodeHead(lib, kept).code)
  {
    hide DecodeHead, Feed;
    HeadIsStable(lib, kept, Concat(chunks));
    FeedDecodesStream(lib, kept, chunks);
  }

  // -------------------------------------------------------------- the encoder

  /** Name length, name, NUL and data: what the checksum covers. */
  function Covered<M>(lib: Library<M>, m: M): seq<byte> {
    EncodeInt32(|lib.typeName(m)| + 1) + lib.typeName(m) + [0] + lib.serialize(m)
  }

  function EncodeBody<M>(lib: Library<M>, m: M): (body: seq<byte>)
    ensures lib.typeName(m) != [] ==> |body| >= MIN_MESSAGE_LEN
  {
    Covered(lib, m) + EncodeInt32(CheckSum(Covered(lib, m)))
  }

  predicate FitsFrame<M>(lib: Library<M>, m: M) {
    MIN_MESSAGE_LEN <= |EncodeBody(lib, m)| <= MAX_MESSAGE_LEN
  }

  /** A body that `parse` may be given: its length is an `int` of at least the minimum. */
  predicate FitsParse<M>(lib: Library<M>, m: M) {
    |EncodeBody(lib, m)| >= MIN_MESSAGE_LEN && FitsInt32(|EncodeBody(lib, m)|)
  }

  /** `append`'s own assertion, while the buffer has `writable` bytes and none to compact. */
  predicate AppendStrict(writable: nat, len: nat) {
    len != writable && (len > writable ==> writable > 0)
  }

  /** What an append or `ensureSpace` of `len` bytes and their writing leave writable. */
  function AfterPut(writable: nat, len: nat): nat {
    if len <= writable then writable - len else writable
  }

  lemma FromTheFront(size: nat, writePos: nat, len: nat)
    requires writePos <= size
    ensures WritableAfter(size, 0, writePos, len) - len == AfterPut(size - writePos, len)
    ensures FillsExactly(size, 0, writePos, len) <==> !AppendStrict(size - writePos, len)
  {
  }

  /** The assertions of the three appends of `fillEmptyBuffer`, from a buffer with nothing
      read and `writable` bytes: the name length, the name and the checksum. */
  predicate FillStrict(writable: nat, nameLen: nat, dataLen: nat) {
    var w1 := AfterPut(writable, HEADER_LEN);
    var w2 := AfterPut(w1, nameLen);
    && AppendStrict(writable, HEADER_LEN) && AppendStrict(w1, nameLen)
    && AppendStrict(AfterPut(w2, dataLen), HEADER_LEN)
  }

  /** `send` fills a new buffer.  Its assertions fail exactly for these sizes of name, with
      its NUL, and data: the name fills the array; or the checksum does; or the data has. */
  lemma SendAssertionsExactly(nameLen: nat, dataLen: nat)
    ensures FillStrict(INITIAL_SIZE, nameLen, dataLen) <==>
      && nameLen != 1020
      && var left := if nameLen < 1020 then 1020 - nameLen else 1020;
         var rest := if dataLen <= left then left - dataLen else left;
         rest != 0 && rest != 4
  {
  }

  lemma CoveredInParts<M>(lib: Library<M>, m: M)
    ensures var name := lib.typeName(m);
            Covered(lib, m) == [] + EncodeInt32(|name| + 1) + (name + [0]) + lib.serialize(m)
  {
  }

  /** `fillEmptyBuffer` up to the checksum; `strict` is what its appends assert. */
  method FillCovered<M>(lib: Library<M>, buf: Buffer, m: M) returns (strict: bool)
    requires buf.Valid() && buf.ReadableBytes() == 0
    requires FitsInt32(|lib.typeName(m)| + 1)
    modifies buf, buf.vec
    ensures buf.Valid() && fresh(buf.Repr() - old(buf.Repr()))
    ensures buf.Contents() == Covered(lib, m)
    ensures buf.readPos == 0 || buf.readPos == old(buf.readPos)
    ensures old(buf.readPos) == 0 ==>
      var w1 := AfterPut(old(buf.WritableBytes()), HEADER_LEN);
      var w2 := AfterPut(w1, |lib.typeName(m)| + 1);
      && buf.WritableBytes() == AfterPut(w2, |lib.serialize(m)|)
      && (strict <==> AppendStrict(old(buf.WritableBytes()), HEADER_LEN) && AppendStrict(w1, |lib.typeName(m)| + 1))
  {
    hide EncodeInt32, WritableAfter, FillsExactly, AfterPut, AppendStrict, Covered;
    var typeName, data := lib.typeName(m), lib.serialize(m);
    CoveredInParts(lib, m);
    FromTheFront(buf.vec.Length, buf.writePos, HEADER_LEN);
    var strictLen := buf.AppendInt32(|typeName| + 1);
    FromTheFront(buf.vec.Length, buf.writePos, |typeName| + 1);
    var strictName := buf.Append(typeName + [0]);
    FromTheFront(buf.vec.Length, buf.writePos, |data|);
    buf.Put(data);
    strict := strictLen && strictName;
  }

  /** `fillEmptyBuffer`: the body, without the length the packet format puts first. */
  method FillEmptyBuffer<M>(lib: Library<M>, buf: Buffer, m: M) returns (strict: bool)
    requires buf.Valid() && buf.ReadableBytes() == 0
    requires FitsInt32(|lib.typeName(m)| + 1)
    modifies buf, buf.vec
    ensures buf.Valid() && fresh(buf.Repr() - old(buf.Repr()))
    ensures buf.Contents() == EncodeBody(lib, m)
    ensures old(buf.readPos) == 0 ==>
      (strict <==> FillStrict(old(buf.WritableBytes()), |lib.typeName(m)| + 1, |lib.serialize(m)|))
  {
    hide CheckSum, EncodeInt32, Covered, WritableAfter, FillsExactly, AfterPut, AppendStrict;
    var strictFront := FillCovered(lib, buf, m);
    var covered := buf.Peek(0, buf.ReadableBytes());
    assert covered == buf.Contents();
    FromTheFront(buf.vec.Length, buf.writePos, HEADER_LEN);
    var strictSum := buf.AppendInt32(CheckSum(covered));
    strict := strictFront && strictSum;
  }

  /** The frame of the packet format: the body's length, then the body. */
  function Frame<M>(lib: Library<M>, m: M): seq<byte> {
    EncodeInt32(|EncodeBody(lib, m)|) + EncodeBody(lib, m)
  }

  /** The library recognises and restores the message, and its type has a name. */
  ghost predicate Restorable<M>(lib: Library<M>, m: M) {
    && lib.typeName(m) != [] && lib.known(lib.typeName(m))
    && lib.parse(lib.typeName(m), lib.serialize(m)) == Some(m)
  }

  lemma BodyParts<M>(lib: Library<M>, m: M)
    requires FitsParse(lib, m)
    ensures var body, name := EncodeBody(lib, m), lib.typeName(m);
            && CheckSum(body[..|body| - HEADER_LEN]) == DecodeInt32(body[|body| - HEADER_LEN..])
            && DecodeInt32(body[..HEADER_LEN]) == |name| + 1 <= |body| - 2 * HEADER_LEN
            && body[HEADER_LEN..HEADER_LEN + |name|] == name
            && body[HEADER_LEN + |name| + 1..|body| - HEADER_LEN] == lib.serialize(m)
  {
    hide CheckSum, EncodeInt32, DecodeInt32;
    var body, name, covered := EncodeBody(lib, m), lib.typeName(m), Covered(lib, m);
    assert body[..|body| - HEADER_LEN] == covered;
    assert body[|body| - HEADER_LEN..] == EncodeInt32(CheckSum(covered));
    Int32RoundTrip(CheckSum(covered));
    assert body[..HEADER_LEN] == EncodeInt32(|name| + 1);
    Int32RoundTrip(|name| + 1);
  }

  /** `parse` restores exactly the messages the library restores from its own bytes. */
  lemma BodyRoundTripExactly<M>(lib: Library<M>, m: M)
    requires FitsParse(lib, m)
    ensures Parse(lib, EncodeBody(lib, m)) == Message(m) <==> Restorable(lib, m)
  {
    hide CheckSum, EncodeInt32, DecodeInt32, EncodeBody;
    BodyParts(lib, m);
  }

  function Frames<M>(lib: Library<M>, ms: seq<M>): seq<byte> {
    if ms == [] then [] else Frame(lib, ms[0]) + Frames(lib, ms[1..])
  }

  ghost predicate Sendable<M>(lib: Library<M>, ms: seq<M>) {
    forall i :: 0 <= i < |ms| ==> FitsFrame(lib, ms[i]) && Restorable(lib, ms[i])
  }

  lemma FrameDecodes<M>(lib: Library<M>, m: M, more: seq<byte>)
    requires FitsFrame(lib, m) && Restorable(lib, m)
    ensures Decode(lib, Frame(lib, m) + more) == Prepend([m], Decode(lib, more))
  {
    hide CheckSum, EncodeInt32, DecodeInt32, EncodeBody, Parse, Restorable;
    var body, bytes := EncodeBody(lib, m), Frame(lib, m) + more;
    assert bytes[..HEADER_LEN] == EncodeInt32(|body|);
    Int32RoundTrip(|body|);
    assert bytes[HEADER_LEN..HEADER_LEN + |body|] == body;
    assert bytes[HEADER_LEN + |body|..] == more;
    BodyRoundTripExactly(lib, m);
  }

  /** A frame alone is decoded as its message exactly if its length is one the codec allows
      and the library restores the message. */
  lemma FrameDecodesExactly<M>(lib: Library<M>, m: M)
    requires FitsParse(lib, m)
    ensures Decode(lib, Frame(lib, m)) == Decoded([m], [], None) <==> FitsFrame(lib, m) && Restorable(lib, m)
  {
    hide CheckSum, EncodeInt32, DecodeInt32, EncodeBody, Parse, Restorable;
    var body, bytes := EncodeBody(lib, m), Frame(lib, m);
    assert bytes[..HEADER_LEN] == EncodeInt32(|body|);
    Int32RoundTrip(|body|);
    assert bytes[HEADER_LEN..HEADER_LEN + |body|] == body;
    BodyRoundTripExactly(lib, m);
    if FitsFrame(lib, m) && Restorable(lib, m) {
      FrameDecodes(lib, m, []);
      assert bytes + [] == bytes;
    } else {
      var h := DecodeHead(lib, bytes);
      assert h.Good? ==> h.message != m && Decode(lib, bytes).messages[0] == h.message;
    }
  }

  lemma {:induction false} FramesDecode<M>(lib: Library<M>, ms: seq<M>)
    requires Sendable(lib, ms)
    ensures Decode(lib, Frames(lib, ms)) == Decoded(ms, [], None)
  {
    if ms != [] {
      FramesDecode(lib, ms[1..]);
      FrameDecodes(lib, ms[0], Frames(lib, ms[1..]));
      assert [ms[0]] + ms[1..] == ms;
    }
  }

  /** A stream of frames cut off anywhere delivers the first messages, in order. */
  lemma PrefixDeliversPrefix<M>(lib: Library<M>, ms: seq<M>, arrived: seq<byte>)
    requires Sendable(lib, ms) && arrived <= Frames(lib, ms)
    ensures Decode(lib, arrived).messages <= ms
    ensures Decode(lib, arrived).error == None
    ensures arrived == Frames(lib, ms) ==> Decode(lib, arrived).messages == ms
  {
    hide DecodeHead;
    FramesDecode(lib, ms);
    var d, more := Decode(lib, arrived), Frames(lib, ms)[|arrived|..];
    assert arrived + more == Frames(lib, ms);
    DecodeInTwo(lib, arrived, more);
    RestIsSettled(lib, arrived);
    if d.error.Some? {
      HeadIsStable(lib, d.rest, more);
    }
  }

  // ------------------------------------------------- which bytes are accepted

  /** What the checksum of a body covers, with `x` where `fillEmptyBuffer` puts the NUL. */
  function CoveredBytes(name: seq<byte>, x: byte, data: seq<byte>): seq<byte> {
    EncodeInt32(|name| + 1) + name + [x] + data
  }

  function Sealed(covered: seq<byte>): seq<byte> {
    covered + EncodeInt32(CheckSum(covered))
  }

  /** The body carries a type name and data, and their checksum. */
  ghost predicate Carries(body: seq<byte>, name: seq<byte>, x: byte, data: seq<byte>) {
    name != [] && FitsInt32(|name| + 1) && body == Sealed(CoveredBytes(name, x, data))
  }

  /** The checksum, whatever it covers, is right. */
  ghost predicate IsSealed(body: seq<byte>) {
    exists covered :: body == Sealed(covered)
  }

  ghost predicate CarriesSome(body: seq<byte>) {
    exists name, x, data :: Carries(body, name, x, data)
  }

  lemma SealedExactly(body: seq<byte>)
    requires |body| >= HEADER_LEN
    ensures var cut := |body| - HEADER_LEN;
            IsSealed(body) <==> CheckSum(body[..cut]) == DecodeInt32(body[cut..])
  {
    hide CheckSum, EncodeInt32, DecodeInt32;
    var cut := |body| - HEADER_LEN;
    if CheckSum(body[..cut]) == DecodeInt32(body[cut..]) {
      BytesRoundTrip(body[cut..]);
      assert body == Sealed(body[..cut]);
    }
    if IsSealed(body) {
      var covered :| body == Sealed(covered);
      assert body[..cut] == covered && body[cut..] == EncodeInt32(CheckSum(covered));
      Int32RoundTrip(CheckSum(covered));
    }
  }

  /** The pieces that `parse` cuts a body into. */
  lemma CarriesExactly(body: seq<byte>, name: seq<byte>, x: byte, data: seq<byte>)
    requires |body| >= MIN_MESSAGE_LEN
    ensures Carries(body, name, x, data) <==>
      && IsSealed(body) && 2 <= DecodeInt32(body[..HEADER_LEN]) <= |body| - 2 * HEADER_LEN
      && var n := DecodeInt32(body[..HEADER_LEN]);
         && name == body[HEADER_LEN..HEADER_LEN + n - 1] && x == body[HEADER_LEN + n - 1]
         && data == body[HEADER_LEN + n..|body| - HEADER_LEN]
  {
    hide CheckSum, EncodeInt32, DecodeInt32, IsSealed;
    SealedExactly(body);
    var n := DecodeInt32(body[..HEADER_LEN]);
    var cut := |body| - HEADER_LEN;
    BytesRoundTrip(body[cut..]);
    if Carries(body, name, x, data) {
      var covered := CoveredBytes(name, x, data);
      assert body[..cut] == covered && body[cut..] == EncodeInt32(CheckSum(covered));
      Int32RoundTrip(CheckSum(covered));
      assert body[..HEADER_LEN] == EncodeInt32(|name| + 1);
      Int32RoundTrip(|name| + 1);
      assert body[HEADER_LEN..HEADER_LEN + n - 1] == name;
      assert body[HEADER_LEN + n..|body| - HEADER_LEN] == data;
    }
    if IsSealed(body) && 2 <= n <= |body| - 2 * HEADER_LEN {
      BytesRoundTrip(body[..HEADER_LEN]);
      var name', x', data' := body[HEADER_LEN..HEADER_LEN + n - 1], body[HEADER_LEN + n - 1], body[HEADER_LEN + n..cut];
      assert body[..cut] == CoveredBytes(name', x', data');
      assert body == body[..cut] + body[cut..];
    }
  }

  /** `parse` delivers a message exactly if the body carries a known type name, and data
      that the library restores, under a right checksum; and which bodies get which error. */
  lemma ParsesExactly<M>(lib: Library<M>, body: seq<byte>, m: M)
    requires |body| >= MIN_MESSAGE_LEN
    ensures Parse(lib, body) == Message(m) <==>
              exists name, x, data ::
                Carries(body, name, x, data) && lib.known(name) && lib.parse(name, data) == Some(m)
    ensures Parse(lib, body) == Error(CheckSumError) <==> !IsSealed(body)
    ensures Parse(lib, body) == Error(InvalidNameLen) <==> IsSealed(body) && !CarriesSome(body)
    ensures Parse(lib, body) == Error(UnknownMessageType) <==>
              exists name, x, data :: Carries(body, name, x, data) && !lib.known(name)
    ensures Parse(lib, body) == Error(ParseError) <==>
              exists name, x, data :: Carries(body, name, x, data) && lib.known(name) && lib.parse(name, data) == None
  {
    hide CheckSum, EncodeInt32, DecodeInt32, IsSealed, Carries;
    SealedExactly(body);
    var n := DecodeInt32(body[..HEADER_LEN]);
    forall name, x, data | Carries(body, name, x, data)
      ensures IsSealed(body) && 2 <= n <= |body| - 2 * HEADER_LEN
      ensures name == body[HEADER_LEN..HEADER_LEN + n - 1] && data == body[HEADER_LEN + n..|body| - HEADER_LEN]
    {
      CarriesExactly(body, name, x, data);
    }
    if IsSealed(body) && 2 <= n <= |body| - 2 * HEADER_LEN {
      CarriesExactly(body, body[HEADER_LEN..HEADER_LEN + n - 1], body[HEADER_LEN + n - 1],
                     body[HEADER_LEN + n..|body| - HEADER_LEN]);
    }
  }

  ghost predicate Bears<M>(lib: Library<M>, body: seq<byte>, m: M) {
    exists name, x, data :: Carries(body, name, x, data) && lib.known(name) && lib.parse(name, data) == Some(m)
  }

  /** One byte of a sealed body changed anywhere, the checksum's own bytes included, always
      shows. */
  lemma OneWrongByteUnseals(body: seq<byte>, k: nat, x: byte)
    requires |body| >= HEADER_LEN && IsSealed(body) && k < |body| && x != body[k]
    ensures !IsSealed(body[k := x])
  {
    hide CheckSum, DecodeInt32, EncodeInt32, IsSealed;
    var wrong, cut := body[k := x], |body| - HEADER_LEN;
    SealedExactly(body);
    SealedExactly(wrong);
    if k < cut {
      OneByteShows(body[..cut], k, x);
      assert wrong[..cut] == body[..cut][k := x] && wrong[cut..] == body[cut..];
    } else {
      assert wrong[..cut] == body[..cut] && wrong[cut..][k - cut] != body[cut..][k - cut];
      BytesRoundTrip(body[cut..]);
      BytesRoundTrip(wrong[cut..]);
    }
  }

  /** The bytes are a length that the codec allows, and a body of that length. */
  ghost predicate IsFramed(frame: seq<byte>) {
    && MIN_MESSAGE_LEN + HEADER_LEN <= |frame| <= MAX_MESSAGE_LEN + HEADER_LEN
    && frame[..HEADER_LEN] == EncodeInt32(|frame| - HEADER_LEN)
  }

  ghost predicate IsFrame<M>(lib: Library<M>, frame: seq<byte>, m: M) {
    IsFramed(frame) && Bears(lib, frame[HEADER_LEN..], m)
  }

  /** A prefix is framed exactly as its first four bytes say. */
  lemma FramedExactly(bytes: seq<byte>, size: nat)
    requires HEADER_LEN <= size <= |bytes|
    ensures IsFramed(bytes[..size]) <==>
              var len := DecodeInt32(bytes[..HEADER_LEN]);
              MIN_MESSAGE_LEN <= len <= MAX_MESSAGE_LEN && size == len + HEADER_LEN
  {
    hide EncodeInt32, DecodeInt32;
    var frame, len := bytes[..size], DecodeInt32(bytes[..HEADER_LEN]);
    assert frame[..HEADER_LEN] == bytes[..HEADER_LEN];
    BytesRoundTrip(bytes[..HEADER_LEN]);
    if IsFramed(frame) {
      Int32RoundTrip(|frame| - HEADER_LEN);
    }
  }

  /** The head of the bytes is good exactly if they begin with the frame of a message. */
  lemma GoodHeadExactly<M>(lib: Library<M>, bytes: seq<byte>, m: M, size: nat)
    ensures DecodeHead(lib, bytes) == Good(m, size) <==> size <= |bytes| && IsFrame(lib, bytes[..size], m)
  {
    hide Parse, CheckSum, EncodeInt32, DecodeInt32, Carries, IsFramed;
    if HEADER_LEN <= size <= |bytes| {
      FramedExactly(bytes, size);
      if IsFramed(bytes[..size]) {
        assert bytes[HEADER_LEN..size] == bytes[..size][HEADER_LEN..];
        FramedIsLong(bytes[..size]);
        ParsesExactly(lib, bytes[HEADER_LEN..size], m);
      }
    }
    if size <= |bytes| && IsFramed(bytes[..size]) {
      FramedIsLong(bytes[..size]);
    }
  }

  /** So a frame with a right checksum and one wrong byte behind its length, wherever and
      whatever else follows, is reported and blocks. */
  lemma OneWrongByteBlocks<M>(lib: Library<M>, frame: seq<byte>, k: nat, x: byte, more: seq<byte>)
    requires IsFramed(frame) && IsSealed(frame[HEADER_LEN..])
    requires HEADER_LEN <= k < |frame| && x != frame[k]
    ensures Decode(lib, frame[k := x] + more) == Decoded([], frame[k := x] + more, Some(CheckSumError))
  {
    hide Parse, IsSealed, EncodeInt32, DecodeInt32, CheckSum;
    var wrong := frame[k := x];
    var bytes, body := wrong + more, wrong[HEADER_LEN..];
    assert bytes[..|wrong|] == wrong && bytes[HEADER_LEN..|wrong|] == body;
    assert wrong[..HEADER_LEN] == frame[..HEADER_LEN];
    FramedExactly(bytes, |wrong|);
    assert body == frame[HEADER_LEN..][k - HEADER_LEN := x];
    OneWrongByteUnseals(frame[HEADER_LEN..], k - HEADER_LEN, x);
    BadCheckSum(lib, body);
  }

  lemma BadCheckSum<M>(lib: Library<M>, body: seq<byte>)
    requires |body| >= MIN_MESSAGE_LEN
    ensures !IsSealed(body) ==> Parse(lib, body) == Error(CheckSumError)
  {
    hide CheckSum, DecodeInt32, IsSealed;
    SealedExactly(body);
  }

  lemma FramedIsLong(frame: seq<byte>)
    ensures IsFramed(frame) ==> |frame| >= MIN_MESSAGE_LEN + HEADER_LEN
  {
  }

  /** It is bad with `InvalidLength` exactly if a length that is not allowed comes first,
      and with another error exactly if a framed body is there that `parse` refuses so. */
  lemma BadHeadExactly<M>(lib: Library<M>, bytes: seq<byte>, code: ErrorCode)
    ensures DecodeHead(lib, bytes) == Bad(InvalidLength) <==>
              && |bytes| >= MIN_MESSAGE_LEN + HEADER_LEN
              && !(MIN_MESSAGE_LEN <= DecodeInt32(bytes[..HEADER_LEN]) <= MAX_MESSAGE_LEN)
    ensures !code.InvalidLength? ==>
              (DecodeHead(lib, bytes) == Bad(code) <==>
                 exists size :: HEADER_LEN <= size <= |bytes| && IsFramed(bytes[..size])
                   && Parse(lib, bytes[HEADER_LEN..size]) == Error(code))
  {
    hide Parse, EncodeInt32, DecodeInt32, IsFramed;
    forall size: nat | HEADER_LEN <= size <= |bytes|
      ensures IsFramed(bytes[..size]) <==>
                var len := DecodeInt32(bytes[..HEADER_LEN]);
                MIN_MESSAGE_LEN <= len <= MAX_MESSAGE_LEN && size == len + HEADER_LEN
    {
      FramedExactly(bytes, size);
    }
    if |bytes| >= MIN_MESSAGE_LEN + HEADER_LEN {
      var len := DecodeInt32(bytes[..HEADER_LEN]);
      if MIN_MESSAGE_LEN <= len <= MAX_MESSAGE_LEN && |bytes| >= len + HEADER_LEN {
        ParseErrorsAreOwn(lib, bytes[HEADER_LEN..HEADER_LEN + len]);
        assert IsFramed(bytes[..len + HEADER_LEN]);
      }
    }
  }

  /** Every message delivered, from any bytes, comes from a frame of its own: the bytes are
      these frames, one after the other, and the rest, which begins with none; the error is
      that of the rest's head. */
  lemma {:induction false} DeliveredComeFromFrames<M>(lib: Library<M>, bytes: seq<byte>)
    returns (frames: seq<seq<byte>>)
    ensures var d := Decode(lib, bytes);
            && |frames| == |d.messages| && bytes == Concat(frames) + d.rest
            && (forall i :: 0 <= i < |frames| ==> IsFrame(lib, frames[i], d.messages[i]))
            && (forall m, size: nat :: size <= |d.rest| ==> !IsFrame(lib, d.rest[..size], m))
            && d.error == if DecodeHead(lib, d.rest).Bad? then Some(DecodeHead(lib, d.rest).code) else None
    decreases |bytes|
  {
    hide DecodeHead, IsFrame;
    var h := DecodeHead(lib, bytes);
    if h.Good? {
      GoodHeadExactly(lib, bytes, h.message, h.size);
      var later := DeliveredComeFromFrames(lib, bytes[h.size..]);
      frames := [bytes[..h.size]] + later;
      assert bytes == bytes[..h.size] + bytes[h.size..];
      assert Concat(frames) == bytes[..h.size] + Concat(later) by {
        assert frames[1..] == later;
      }
    } else {
      frames := [];
      forall m, size: nat | size <= |bytes| ensures !IsFrame(lib, bytes[..size], m) {
        GoodHeadExactly(lib, bytes, m, size);
      }
    }
  }

  // ------------------------------------------------- what `send` hands over as it is

  /** What a receiver makes of a type name, with its NUL, taken for a body. */
  function NameAsBody<M>(lib: Library<M>, name: seq<byte>): Head<M> {
    if |name| < 9 || |name| >= MAX_MESSAGE_LEN then Bad(InvalidLength)
    else
      match Parse(lib, name + [0])
      case Error(code) => Bad(code)
      case Message(m) => Good(m, |name| + 5)
  }

  /** The body alone, which is all `send` hands to the connection, is no frame: the
      receiver takes the name length for the frame length, and the type name for a body. */
  lemma UnframedBodyRejectedExactly<M>(lib: Library<M>, m: M, more: seq<byte>)
    requires FitsInt32(|lib.typeName(m)| + 1)
    requires |EncodeBody(lib, m) + more| >= MIN_MESSAGE_LEN + HEADER_LEN
    ensures DecodeHead(lib, EncodeBody(lib, m) + more) == NameAsBody(lib, lib.typeName(m))
    ensures DecodeHead(lib, EncodeBody(lib, m) + more) == Bad(InvalidLength)
       <==> |lib.typeName(m)| < 9 || |lib.typeName(m)| >= MAX_MESSAGE_LEN
  {
    hide CheckSum, EncodeInt32, DecodeInt32, Parse;
    var name, bytes := lib.typeName(m), EncodeBody(lib, m) + more;
    assert bytes[..HEADER_LEN] == EncodeInt32(|name| + 1);
    Int32RoundTrip(|name| + 1);
    if 9 <= |name| {
      assert bytes[HEADER_LEN..HEADER_LEN + |name| + 1] == name + [0];
      ParseErrorsAreOwn(lib, name + [0]);
    }
  }

  lemma HighByteDecodes(b: seq<byte>)
    requires |b| == 4 && b[0] as int >= 5
    ensures DecodeInt32(b) < 0 || DecodeInt32(b) > MAX_MESSAGE_LEN
  {
  }

  /** A name shorter than nine, or that begins with a byte of 5 or more, as every
      printable one does, is no body. */
  lemma NameIsNoBody<M>(lib: Library<M>, name: seq<byte>)
    requires |name| < 9 || name[0] as int >= 5
    ensures NameAsBody(lib, name).Bad?
  {
    hide CheckSum, DecodeInt32;
    if 9 <= |name| < MAX_MESSAGE_LEN {
      assert (name + [0])[..HEADER_LEN] == name[..HEADER_LEN];
      HighByteDecodes(name[..HEADER_LEN]);
    }
  }

  /** So to a receiver that `send` has sent a message nothing is ever delivered, not this
      message, nor any after it, whatever follows and however the stream is split, exactly
      if the type name is no body. */
  lemma UnframedBodyBlocksExactly<M>(lib: Library<M>, m: M, more: seq<byte>, chunks: seq<seq<byte>>)
    requires FitsInt32(|lib.typeName(m)| + 1)
    requires Concat(chunks) <= EncodeBody(lib, m) + more
    ensures NameAsBody(lib, lib.typeName(m)).Bad? ==> Feed(lib, [], chunks) == ([], Concat(chunks))
    ensures NameAsBody(lib, lib.typeName(m)).Good? && Concat(chunks) == EncodeBody(lib, m) + more ==>
              Feed(lib, [], chunks).0 != []
  {
    hide EncodeBody, Parse, Feed, CheckSum;
    var all, arrived := EncodeBody(lib, m) + more, Concat(chunks);
    if |all| >= MIN_MESSAGE_LEN + HEADER_LEN {
      UnframedBodyRejectedExactly(lib, m, more);
    } else {
      LongNamesFillFrames(lib, m);
    }
    assert arrived + all[|arrived|..] == all;
    DecodeInTwo(lib, arrived, all[|arrived|..]);
    FeedDecodesStream(lib, [], chunks);
    assert [] + arrived == arrived;
    if NameAsBody(lib, lib.typeName(m)).Bad? {
      SettledKeepsAll(lib, arrived);
    }
  }

  lemma LongNamesFillFrames<M>(lib: Library<M>, m: M)
    ensures |lib.typeName(m)| >= 9 ==> |EncodeBody(lib, m)| >= MIN_MESSAGE_LEN + HEADER_LEN
  {
  }

  lemma ParseErrorsAreOwn<M>(lib: Library<M>, body: seq<byte>)
    requires |body| >= MIN_MESSAGE_LEN
    ensures Parse(lib, body) != Error(InvalidLength)
  {
  }
}
