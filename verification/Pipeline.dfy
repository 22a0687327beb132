/** The byte pipeline end to end: messages through a sender's connection and a receiver's
    decoder. */
module Pipeline {
  import opened Bytes
  import opened Callbacks
  import opened CInts
  import opened Codec
  import opened SendPath

  predicate NothingLeft(c: Conn) {
    !c.writing && !c.state.DISCONNECTED?
  }

  /** Whatever the sender's writes came back with and its callbacks did, in order, and
      however the network's bytes were split into the receiver's reads, the receiver has
      been delivered the first of the messages sent as frames, in order; and all of them
      once the sender's write bit is off and everything the kernel took has arrived. */
  lemma MessagesArriveInOrder<M>(lib: Library<M>, ms: seq<M>, c: Conn, run: seq<Event>, chunks: seq<seq<byte>>)
    requires Sendable(lib, ms)
    requires Init(c) && EventsLegal(c, run) && AllInOrder(c, run) && !AfterEvents(c, run).faulted
    requires AfterEvents(c, run).given == Frames(lib, ms)
    requires Concat(chunks) <= AfterEvents(c, run).accepted
    ensures Feed(lib, [], chunks).0 <= ms
    ensures Concat(chunks) == AfterEvents(c, run).accepted && NothingLeft(AfterEvents(c, run)) ==>
              Feed(lib, [], chunks).0 == ms
  {
    hide EventsLegal, AfterEvents, AllInOrder, Feed;
    CallbacksConserve(c, run);
    FeedDecodesStream(lib, [], chunks);
    assert [] + Concat(chunks) == Concat(chunks);
    PrefixDeliversPrefix(lib, ms, Concat(chunks));
  }

  /** As `send` has it, without the length in front, nothing arrives, whatever else is
      sent, unless the type name of the first message is itself a body: which no name
      shorter than nine is, nor one that begins with a byte of 5 or more. */
  lemma NothingSentUnframedArrives<M>(
      lib: Library<M>, m: M, more: seq<byte>, c: Conn, run: seq<Event>, chunks: seq<seq<byte>>)
    requires FitsInt32(|lib.typeName(m)| + 1)
    requires Init(c) && EventsLegal(c, run) && AllInOrder(c, run) && !AfterEvents(c, run).faulted
    requires AfterEvents(c, run).given == EncodeBody(lib, m) + more
    requires Concat(chunks) <= AfterEvents(c, run).accepted
    ensures NameAsBody(lib, lib.typeName(m)).Bad? ==> Feed(lib, [], chunks) == ([], Concat(chunks))
    ensures |lib.typeName(m)| < 9 || lib.typeName(m)[0] as int >= 5 ==> Feed(lib, [], chunks).0 == []
  {
    hide EventsLegal, AfterEvents, AllInOrder, Feed, NameAsBody, EncodeBody;
    CallbacksConserve(c, run);
    UnframedBodyBlocksExactly(lib, m, more, chunks);
    if |lib.typeName(m)| < 9 || lib.typeName(m)[0] as int >= 5 {
      NameIsNoBody(lib, lib.typeName(m));
    }
  }
}
