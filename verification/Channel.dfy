/** One direction of the connection, from the message queue of the sender to the inbox of
    the receiver, through the transmit ring, the link and the receive ring.

    Proved here: the channel conserves bytes and refines a FIFO queue of messages, a turn that
    can move a byte does so, and some turn can while a byte is under way. */
module ChannelModule {
  import opened Bytes
  import opened Frame
  import opened DataLink
  import opened StreamerModule
  import opened Wire

  /** The sending end: the byte order of its host, the queued messages, the number of bytes
      of the first one that have been written, and the transmit ring. */
  datatype Sender = Sender(order: Endian, queue: seq<Message>, sent: nat, ring: seq<byte>)

  /** The receiving end: the byte order of its host, the receive ring, the consumed bytes of
      the current frame, and the decoded messages that nobody has taken yet. */
  datatype Receiver = Receiver(order: Endian, ring: seq<byte>, acc: seq<byte>, inbox: seq<Message>)

  // One turn of a transmit loop.

  ghost predicate TxStepBy(n: nat, t: Sender, link: seq<byte>, t': Sender, link': seq<byte>) {
    if t.queue == [] then t' == t && link' == link
    else
      var e := Enc(t.order, t.queue[0]);
      && t.sent + n <= |e|
      && Sent(n, e[t.sent..], t.ring, link, e[t.sent + n..], t'.ring, link')
      && t' == if t.sent + n == |e| then Sender(t.order, t.queue[1..], 0, t'.ring)
               else Sender(t.order, t.queue, t.sent + n, t'.ring)
  }

  ghost predicate TxStep(t: Sender, link: seq<byte>, t': Sender, link': seq<byte>) {
    exists n: nat :: TxStepBy(n, t, link, t', link')
  }

  ghost predicate FlushStep(t: Sender, link: seq<byte>, t': Sender, link': seq<byte>) {
    t' == t.(ring := t'.ring) && Flushed(t.ring, link, t'.ring, link')
  }

  // One turn of a receive loop.

  ghost predicate RxStepOut(out: Option<Message>, r: Receiver, link: seq<byte>, r': Receiver, link': seq<byte>) {
    && |r.ring| <= RING_SIZE
    && Received(r.order, r.acc, r.ring, link, r'.acc, r'.ring, link', out)
    && r'.order == r.order
    && r'.inbox == if out.Some? then r.inbox + [out.value] else r.inbox
  }

  ghost predicate RxStep(r: Receiver, link: seq<byte>, r': Receiver, link': seq<byte>) {
    exists out :: RxStepOut(out, r, link, r', link')
  }

  /** A channel with its history: all messages ever pushed, and how many were popped. */
  datatype Channel = Channel(tx: Sender, link: seq<byte>, rx: Receiver, pushed: seq<Message>, popped: nat)

  function Unwritten(t: Sender): seq<byte> {
    if t.sent <= |EncAll(t.order, t.queue)| then EncAll(t.order, t.queue)[t.sent..] else []
  }

  /** Everything between the receiver's decoder and the sender's queue. */
  function Stream(c: Channel): seq<byte> {
    c.rx.acc + (c.rx.ring + c.link) + c.tx.ring + Unwritten(c.tx)
  }

  function Decoded(c: Channel): nat {
    c.popped + |c.rx.inbox|
  }

  ghost predicate Bounded(c: Channel) {
    && |c.tx.ring| <= RING_SIZE && |c.link| <= LINK_SIZE && |c.rx.ring| <= RING_SIZE
    && Begun(c.tx)
    && Parse(c.rx.order, c.rx.acc) == None
  }

  predicate Begun(t: Sender) {
    if t.queue == [] then t.sent == 0 else t.sent < |Enc(t.order, t.queue[0])|
  }

  /** The queue is the newest and the inbox the oldest part of what is in flight. */
  ghost predicate Ordered(c: Channel) {
    && (forall m :: m in c.pushed ==> Wellformed(m))
    && |c.tx.queue| <= |c.pushed| && c.tx.queue == c.pushed[|c.pushed| - |c.tx.queue|..]
    && Decoded(c) <= |c.pushed| && c.rx.inbox == c.pushed[c.popped..Decoded(c)]
  }

  ghost predicate ChannelInv(c: Channel) {
    && Bounded(c) && Ordered(c) && c.tx.order == c.rx.order
    && Stream(c) == EncAll(c.tx.order, c.pushed[Decoded(c)..])
  }

  /** The messages that a FIFO queue in place of the channel would hold. */
  function InFlight(c: Channel): seq<Message>
    requires c.popped <= |c.pushed|
  {
    c.pushed[c.popped..]
  }

  // The operations on a channel.

  function Push(c: Channel, m: Message): Channel {
    c.(tx := c.tx.(queue := c.tx.queue + [m]), pushed := c.pushed + [m])
  }

  function Pop(c: Channel): Channel
    requires c.rx.inbox != []
  {
    c.(rx := c.rx.(inbox := c.rx.inbox[1..]), popped := c.popped + 1)
  }

  datatype Hop = SEND | FLUSH | RECEIVE

  ghost predicate HopStep(h: Hop, c: Channel, c': Channel) {
    && c'.pushed == c.pushed && c'.popped == c.popped
    && match h
       case SEND => c'.rx == c.rx && TxStep(c.tx, c.link, c'.tx, c'.link)
       case FLUSH => c'.rx == c.rx && FlushStep(c.tx, c.link, c'.tx, c'.link)
       case RECEIVE => c'.tx == c.tx && RxStep(c.rx, c.link, c'.rx, c'.link)
  }

  function Empty(o: Endian): Channel {
    Channel(Sender(o, [], 0, []), [], Receiver(o, [], [], []), [], 0)
  }

  lemma EmptyInv(o: Endian)
    ensures ChannelInv(Empty(o))
  {
  }

  /** All bytes ever pushed are, in order, the frames already decoded, the consumed part of
      the current one, the receive ring, the link, the transmit ring and the unwritten rest. */
  lemma Conservation(c: Channel)
    requires ChannelInv(c)
    ensures EncAll(c.tx.order, c.pushed) == EncAll(c.tx.order, c.pushed[..Decoded(c)]) + Stream(c)
  {
    assert c.pushed == c.pushed[..Decoded(c)] + c.pushed[Decoded(c)..];
    EncAllConcat(c.tx.order, c.pushed[..Decoded(c)], c.pushed[Decoded(c)..]);
  }

  lemma UnwrittenPush(t: Sender, m: Message)
    requires Begun(t)
    ensures Unwritten(t.(queue := t.queue + [m])) == Unwritten(t) + Enc(t.order, m)
  {
    EncAllConcat(t.order, t.queue, [m]);
    assert EncAll(t.order, [m]) == Enc(t.order, m) + EncAll(t.order, []);
    assert t.sent <= |EncAll(t.order, t.queue)|;
    SliceConcat(EncAll(t.order, t.queue), Enc(t.order, m), t.sent);
  }

  lemma PushOrdered(c: Channel, m: Message)
    requires Ordered(c) && Wellformed(m)
    ensures Ordered(Push(c, m)) && InFlight(Push(c, m)) == InFlight(c) + [m]
    ensures Push(c, m).pushed[Decoded(c)..] == c.pushed[Decoded(c)..] + [m]
  {
    var n, q := |c.pushed|, |c.tx.queue|;
    assert (c.pushed + [m])[n - q..] == c.pushed[n - q..] + [m];
    assert (c.pushed + [m])[c.popped..Decoded(c)] == c.pushed[c.popped..Decoded(c)];
  }

  lemma PushInv(c: Channel, m: Message)
    requires ChannelInv(c) && Wellformed(m)
    ensures ChannelInv(Push(c, m)) && InFlight(Push(c, m)) == InFlight(c) + [m]
  {
    PushOrdered(c, m);
    UnwrittenPush(c.tx, m);
    EncAllConcat(c.tx.order, c.pushed[Decoded(c)..], [m]);
    assert EncAll(c.tx.order, [m]) == Enc(c.tx.order, m) + EncAll(c.tx.order, []);
    ConcatAssoc(c.rx.acc + (c.rx.ring + c.link) + c.tx.ring, Unwritten(c.tx), Enc(c.tx.order, m));
  }

  /** The receiver takes the oldest message in flight. */
  lemma PopInv(c: Channel)
    requires ChannelInv(c) && c.rx.inbox != []
    ensures ChannelInv(Pop(c)) && InFlight(c) == [c.rx.inbox[0]] + InFlight(Pop(c))
  {
    hide Enc, EncAll, Unwritten, Parse;
    assert c.rx.inbox[0] == c.pushed[c.popped];
  }

  // A turn of a loop changes where the bytes are, not which bytes there are.

  lemma UnwrittenSend(t: Sender, n: nat)
    requires Begun(t) && t.queue != [] && t.sent + n <= |Enc(t.order, t.queue[0])|
    ensures var e := Enc(t.order, t.queue[0]);
            var t' := if t.sent + n == |e| then Sender(t.order, t.queue[1..], 0, t.ring) else t.(sent := t.sent + n);
            && Begun(t')
            && n <= |Unwritten(t)| && Unwritten(t') == Unwritten(t)[n..]
            && Unwritten(t)[..n] == e[t.sent..][..n]
  {
    var e := Enc(t.order, t.queue[0]);
    assert EncAll(t.order, t.queue) == e + EncAll(t.order, t.queue[1..]);
    SliceConcat(e, EncAll(t.order, t.queue[1..]), t.sent);
  }

  lemma FlushKeeps(tx: seq<byte>, link: seq<byte>, tx': seq<byte>, link': seq<byte>)
    requires Flushed(tx, link, tx', link')
    ensures link' + tx' == link + tx
    ensures |link| <= |link'| <= LINK_SIZE && |tx'| <= |tx|
  {
  }

  lemma SendKeepsStream(n: nat, c: Channel, c': Channel)
    requires Bounded(c) && c'.rx == c.rx && TxStepBy(n, c.tx, c.link, c'.tx, c'.link)
    ensures Bounded(c') && Stream(c') == Stream(c)
    ensures c.tx.queue != [] ==> |Unwritten(c'.tx)| == |Unwritten(c.tx)| - n
  {
    hide Enc, EncAll, Flushed, Parse;
    if c.tx.queue != [] {
      UnwrittenSend(c.tx, n);
      var u := Unwritten(c.tx);
      FlushKeeps(c.tx.ring + u[..n], c.link, c'.tx.ring, c'.link);
      StreamAfterSend(c.rx.acc, c.rx.ring, c.link, c.tx.ring, u, n, c'.link, c'.tx.ring);
    }
  }

  lemma StreamAfterSend(acc: seq<byte>, rx: seq<byte>, link: seq<byte>, tx: seq<byte>, u: seq<byte>, n: nat,
                        link': seq<byte>, tx': seq<byte>)
    requires n <= |u| && link' + tx' == link + (tx + u[..n])
    ensures acc + (rx + link') + tx' + u[n..] == acc + (rx + link) + tx + u
  {
    assert u == u[..n] + u[n..];
    Regroup(acc, rx, link, tx + u[..n], u[n..], link', tx');
    ConcatAssoc(acc + (rx + link) + tx, u[..n], u[n..]);
    ConcatAssoc(acc + (rx + link), tx, u[..n]);
  }

  lemma Regroup(acc: seq<byte>, rx: seq<byte>, link: seq<byte>, tx: seq<byte>, u: seq<byte>,
                link': seq<byte>, tx': seq<byte>)
    requires link' + tx' == link + tx
    ensures acc + (rx + link') + tx' + u == acc + (rx + link) + tx + u
  {
    assert acc + (rx + link') + tx' == acc + rx + (link' + tx');
    assert acc + (rx + link) + tx == acc + rx + (link + tx);
  }

  /** A sending turn keeps the queue a suffix of what was pushed. */
  lemma SendInv(n: nat, c: Channel, c': Channel)
    requires ChannelInv(c) && c'.pushed == c.pushed && c'.popped == c.popped && c'.rx == c.rx
    requires TxStepBy(n, c.tx, c.link, c'.tx, c'.link)
    ensures ChannelInv(c')
  {
    hide Enc, EncAll, Stream, Unwritten, Sent;
    SendKeepsStream(n, c, c');
  }

  lemma FlushInv(c: Channel, c': Channel)
    requires ChannelInv(c) && c'.pushed == c.pushed && c'.popped == c.popped && c'.rx == c.rx
    requires FlushStep(c.tx, c.link, c'.tx, c'.link)
    ensures ChannelInv(c')
  {
    hide Enc, EncAll, Parse, Flushed;
    FlushKeeps(c.tx.ring, c.link, c'.tx.ring, c'.link);
    Regroup(c.rx.acc, c.rx.ring, c.link, c.tx.ring, Unwritten(c.tx), c'.link, c'.tx.ring);
  }

  /** A prefix of a run of frames yields the first message, and nothing else, as soon as
      all of its bytes are there. */
  lemma DecodePrefix(o: Endian, ms: seq<Message>, seen: seq<byte>, rest: seq<byte>)
    requires forall m :: m in ms ==> Wellformed(m)
    requires seen + rest == EncAll(o, ms)
    ensures Parse(o, seen).None? || (ms != [] && Parse(o, seen) == Some((ms[0], |Enc(o, ms[0])|)))
    ensures ms == [] ==> seen == []
    ensures ms != [] && Parse(o, seen).None? ==> |seen| < |Enc(o, ms[0])|
  {
    if ms != [] {
      ParsePrefix(o, ms[0], EncAll(o, ms[1..]), |seen|);
      assert (Enc(o, ms[0]) + EncAll(o, ms[1..]))[..|seen|] == seen;
    }
  }

  lemma ReceiveNone(acc: seq<byte>, rx: seq<byte>, link: seq<byte>, tail: seq<byte>, rx': seq<byte>, link': seq<byte>)
    requires |rx| <= RING_SIZE && rx' + link' == (rx + link)[|Filled(rx, link)|..]
    ensures (acc + Filled(rx, link)) + (rx' + link') + tail == acc + (rx + link) + tail
  {
    FilledTwice(rx, link);
    var all, n := rx + link, |Filled(rx, link)|;
    assert all == all[..n] + all[n..];
    ConcatAssoc(acc, all[..n], all[n..]);
  }

  lemma ReceiveSome(acc: seq<byte>, all: seq<byte>, tail: seq<byte>, e: seq<byte>, more: seq<byte>)
    requires acc + all + tail == e + more && |acc| <= |e| <= |acc| + |all|
    ensures all[|e| - |acc|..] + tail == more
  {
    assert (acc + all + tail)[|e|..] == all[|e| - |acc|..] + tail;
    assert (e + more)[|e|..] == more;
  }

  function Behind(c: Channel): seq<byte> {
    c.tx.ring + Unwritten(c.tx)
  }

  lemma StreamSplit(c: Channel)
    ensures Stream(c) == c.rx.acc + (c.rx.ring + c.link) + Behind(c)
  {
    ConcatAssoc(c.rx.acc + (c.rx.ring + c.link), c.tx.ring, Unwritten(c.tx));
  }

  /** What the decoder sees yields the next message that was pushed, and nothing else. */
  lemma NextFrame(c: Channel)
    requires ChannelInv(c)
    ensures var seen, d := c.rx.acc + Filled(c.rx.ring, c.link), Decoded(c);
            Parse(c.rx.order, seen).Some? ==> d < |c.pushed| && Parse(c.rx.order, seen) == Some((c.pushed[d], |Enc(c.tx.order, c.pushed[d])|))
  {
    hide EncAll, Enc, Filled, Unfetched, Unwritten, Parse;
    StreamSplit(c);
    FilledTwice(c.rx.ring, c.link);
    var avail, rest := Filled(c.rx.ring, c.link), Unfetched(c.rx.ring, c.link);
    assert c.rx.acc + (avail + rest) + Behind(c) == (c.rx.acc + avail) + (rest + Behind(c));
    DecodePrefix(c.tx.order, c.pushed[Decoded(c)..], c.rx.acc + avail, rest + Behind(c));
  }

  lemma ReceiveMore(c: Channel, c': Channel)
    requires ChannelInv(c) && c'.pushed == c.pushed && c'.popped == c.popped && c'.tx == c.tx
    requires RxStepOut(None, c.rx, c.link, c'.rx, c'.link)
    ensures ChannelInv(c')
  {
    hide Enc, EncAll, Unwritten, Parse, Filled, Stream;
    StreamSplit(c);
    StreamSplit(c');
    ReceiveNone(c.rx.acc, c.rx.ring, c.link, Behind(c), c'.rx.ring, c'.link);
  }

  ghost predicate FrameTaken(m: Message, c: Channel, c': Channel) {
    var n := |Enc(c.tx.order, m)|;
    && Decoded(c) < |c.pushed| && m == c.pushed[Decoded(c)]
    && |c.rx.acc| < n <= |c.rx.acc| + |c.rx.ring + c.link|
    && c'.rx == Receiver(c.rx.order, c'.rx.ring, [], c.rx.inbox + [m])
    && c'.rx.ring + c'.link == (c.rx.ring + c.link)[n - |c.rx.acc|..]
    && |c'.rx.ring| <= RING_SIZE && |c'.link| <= LINK_SIZE
  }

  lemma ReceiveTakes(m: Message, c: Channel, c': Channel)
    requires ChannelInv(c) && RxStepOut(Some(m), c.rx, c.link, c'.rx, c'.link)
    ensures FrameTaken(m, c, c')
  {
    hide Enc, EncAll, Parse, Filled, Unwritten, Unfetched, Stream;
    NextFrame(c);
    FilledTwice(c.rx.ring, c.link);
  }

  lemma FrameStream(m: Message, c: Channel, c': Channel)
    requires ChannelInv(c) && c'.tx == c.tx && FrameTaken(m, c, c')
    ensures Stream(c') == EncAll(c.tx.order, c.pushed[Decoded(c) + 1..])
  {
    var ms := c.pushed[Decoded(c)..];
    assert ms[1..] == c.pushed[Decoded(c) + 1..];
    StreamSplit(c);
    ReceiveSome(c.rx.acc, c.rx.ring + c.link, Behind(c), Enc(c.tx.order, m), EncAll(c.tx.order, ms[1..]));
    StreamSplit(c');
    assert [] + (c'.rx.ring + c'.link) == c'.rx.ring + c'.link;
  }

  lemma ReceiveFrame(m: Message, c: Channel, c': Channel)
    requires ChannelInv(c) && c'.pushed == c.pushed && c'.popped == c.popped && c'.tx == c.tx
    requires FrameTaken(m, c, c')
    ensures ChannelInv(c')
  {
    hide Enc, EncAll, Parse, Unwritten, Stream, FrameTaken;
    FrameStream(m, c, c');
    NothingDecodes(c.rx.order);
    assert Ordered(c') && Decoded(c') == Decoded(c) + 1 by { TakenOrdered(m, c, c'); }
    assert Bounded(c') && c'.rx.order == c.rx.order by { TakenBounded(m, c, c'); }
  }

  lemma TakenOrdered(m: Message, c: Channel, c': Channel)
    requires Ordered(c) && c'.pushed == c.pushed && c'.popped == c.popped && c'.tx == c.tx && FrameTaken(m, c, c')
    ensures Ordered(c') && Decoded(c') == Decoded(c) + 1
  {
    hide Enc, Wellformed;
    var d := Decoded(c);
    SliceGrows(c.pushed, c.popped, d);
  }

  lemma SliceGrows<T>(s: seq<T>, i: nat, j: nat)
    requires i <= j < |s|
    ensures s[i..j + 1] == s[i..j] + [s[j]]
  {
  }

  lemma TakenBounded(m: Message, c: Channel, c': Channel)
    requires Bounded(c) && c'.tx == c.tx && FrameTaken(m, c, c') && Parse(c.rx.order, []) == None
    ensures Bounded(c') && c'.rx.order == c.rx.order
  {
    hide Enc, Parse;
  }

  lemma NothingDecodes(o: Endian)
    ensures Parse(o, []) == None
  {
  }

  /** Every turn of every loop keeps the invariant and leaves the FIFO content as it is. */
  lemma HopInv(h: Hop, c: Channel, c': Channel)
    requires ChannelInv(c) && HopStep(h, c, c')
    ensures ChannelInv(c') && InFlight(c') == InFlight(c)
  {
    match h {
      case SEND =>
        var n: nat :| TxStepBy(n, c.tx, c.link, c'.tx, c'.link);
        SendInv(n, c, c');
      case FLUSH =>
        FlushInv(c, c');
      case RECEIVE =>
        var out :| RxStepOut(out, c.rx, c.link, c'.rx, c'.link);
        match out {
          case None => ReceiveMore(c, c');
          case Some(m) =>
            ReceiveTakes(m, c, c');
            ReceiveFrame(m, c, c');
        }
    }
  }

  // Progress.

  /** The hops that the bytes in the channel still have to make. */
  function Hops(c: Channel): nat {
    4 * |Unwritten(c.tx)| + 3 * |c.tx.ring| + 2 * |c.link| + |c.rx.ring|
  }

  predicate Enabled(h: Hop, c: Channel) {
    match h
    case SEND => c.tx.queue != [] && |c.tx.ring| < RING_SIZE
    case FLUSH => c.tx.ring != [] && |c.link| < LINK_SIZE
    case RECEIVE => c.link != [] || c.rx.ring != []
  }

  /** A turn that changes the channel brings some byte nearer to the receiver, and an
      enabled turn does change it. */
  lemma HopProgress(h: Hop, c: Channel, c': Channel)
    requires ChannelInv(c) && HopStep(h, c, c')
    ensures c' == c || Hops(c') < Hops(c)
    ensures Enabled(h, c) ==> Hops(c') < Hops(c)
  {
    match h {
      case SEND =>
        var n: nat :| TxStepBy(n, c.tx, c.link, c'.tx, c'.link);
        SendKeepsStream(n, c, c');
        SendProgress(n, c, c');
      case FLUSH =>
      case RECEIVE =>
        var out :| RxStepOut(out, c.rx, c.link, c'.rx, c'.link);
        ReceiveProgress(out, c, c');
    }
  }

  lemma SendProgress(n: nat, c: Channel, c': Channel)
    requires ChannelInv(c) && HopStep(SEND, c, c') && TxStepBy(n, c.tx, c.link, c'.tx, c'.link)
    requires c.tx.queue != [] ==> |Unwritten(c'.tx)| == |Unwritten(c.tx)| - n
    ensures c' == c || Hops(c') < Hops(c)
    ensures Enabled(SEND, c) ==> Hops(c') < Hops(c)
  {
    if c.tx.queue != [] {
      var staged := c.tx.ring + Enc(c.tx.order, c.tx.queue[0])[c.tx.sent..][..n];
      FlushKeeps(staged, c.link, c'.tx.ring, c'.link);
      assert |c'.link| + |c'.tx.ring| == |c.link + staged| by {
        assert |c'.link + c'.tx.ring| == |c.link + staged|;
      }
      if n == 0 && c'.link == c.link {
        assert staged == c.tx.ring;
      }
    }
  }

  lemma ReceiveProgress(out: Option<Message>, c: Channel, c': Channel)
    requires ChannelInv(c) && HopStep(RECEIVE, c, c') && RxStepOut(out, c.rx, c.link, c'.rx, c'.link)
    ensures c' == c || Hops(c') < Hops(c)
    ensures Enabled(RECEIVE, c) ==> Hops(c') < Hops(c)
  {
    var avail := Filled(c.rx.ring, c.link);
    assert |c'.rx.ring| + |c'.link| == |c'.rx.ring + c'.link|;
    if avail == [] {
      assert c.rx.acc + avail == c.rx.acc;
    }
  }

  /** No combination of full buffers blocks the channel. */
  lemma NoDeadlock(c: Channel)
    requires ChannelInv(c) && Hops(c) > 0
    ensures exists h :: Enabled(h, c)
  {
    if !Enabled(RECEIVE, c) && !Enabled(FLUSH, c) {
      assert Enabled(SEND, c);
    }
  }

  /** When no byte has a hop left, everything that was pushed has been decoded. */
  lemma Drained(c: Channel)
    requires ChannelInv(c) && Hops(c) == 0
    ensures Decoded(c) == |c.pushed| && c.tx.queue == [] && c.rx.inbox == InFlight(c)
  {
    assert Stream(c) == c.rx.acc;
    assert c.rx.acc + [] == c.rx.acc;
    DecodePrefix(c.tx.order, c.pushed[Decoded(c)..], c.rx.acc, []);
  }

  /** Every turn is possible in every state. */
  lemma HopTotal(h: Hop, c: Channel) returns (c': Channel)
    requires ChannelInv(c)
    ensures HopStep(h, c, c')
  {
    hide Stream, Ordered, EncAll;
    match h {
      case SEND =>
        c' := c;
        if c.tx.queue == [] {
          assert TxStepBy(0, c.tx, c.link, c.tx, c.link);
        } else {
          var e := Enc(c.tx.order, c.tx.queue[0]);
          var n := Min(|e| - c.tx.sent, RING_SIZE - |c.tx.ring|);
          var ring := c.tx.ring + e[c.tx.sent..][..n];
          var k := Moved(ring, c.link);
          var t := if c.tx.sent + n == |e| then Sender(c.tx.order, c.tx.queue[1..], 0, ring[k..])
                   else Sender(c.tx.order, c.tx.queue, c.tx.sent + n, ring[k..]);
          c' := c.(tx := t, link := c.link + ring[..k]);
          assert e[c.tx.sent..][n..] == e[c.tx.sent + n..];
          assert TxStepBy(n, c.tx, c.link, c'.tx, c'.link);
        }
      case FLUSH =>
        var k := Moved(c.tx.ring, c.link);
        c' := c.(tx := c.tx.(ring := c.tx.ring[k..]), link := c.link + c.tx.ring[..k]);
      case RECEIVE =>
        c' := ReceiveTotal(c);
    }
  }

  lemma ReceiveTotal(c: Channel) returns (c': Channel)
    requires ChannelInv(c)
    ensures HopStep(RECEIVE, c, c')
  {
    hide ChannelInv, Received, Filled, Unfetched;
    var out, acc, ring := NextReceived(c);
    c' := c.(rx := Receiver(c.rx.order, ring, acc, if out.Some? then c.rx.inbox + [out.value] else c.rx.inbox),
             link := Unfetched(c.rx.ring, c.link));
    assert RxStepOut(out, c.rx, c.link, c'.rx, c'.link);
  }

  lemma NextReceived(c: Channel) returns (out: Option<Message>, acc: seq<byte>, ring: seq<byte>)
    requires ChannelInv(c)
    ensures |c.rx.ring| <= RING_SIZE
    ensures Received(c.rx.order, c.rx.acc, c.rx.ring, c.link, acc, ring, Unfetched(c.rx.ring, c.link), out)
  {
    hide Parse, Filled, Unfetched, Stream, Enc, EncAll, Ordered, Unwritten;
    var avail, rest := Filled(c.rx.ring, c.link), Unfetched(c.rx.ring, c.link);
    FilledTwice(c.rx.ring, c.link);
    if Parse(c.rx.order, c.rx.acc + avail).None? {
      out, acc, ring := None, c.rx.acc + avail, [];
      assert [] + rest == (avail + rest)[|avail|..];
    } else {
      var n := FrameSpan(c);
      out, acc, ring := Some(Parse(c.rx.order, c.rx.acc + avail).value.0), [], avail[n - |c.rx.acc|..];
      SliceConcat(avail, rest, n - |c.rx.acc|);
    }
  }

  /** The frame that is decoded next ends in the bytes that have just been fetched. */
  lemma FrameSpan(c: Channel) returns (n: nat)
    requires ChannelInv(c) && Parse(c.rx.order, c.rx.acc + Filled(c.rx.ring, c.link)).Some?
    ensures n == Parse(c.rx.order, c.rx.acc + Filled(c.rx.ring, c.link)).value.1
    ensures |c.rx.acc| < n <= |c.rx.acc| + |Filled(c.rx.ring, c.link)|
  {
    NextFrame(c);
    AccShort(c);
    ParseSound(c.rx.order, c.rx.acc + Filled(c.rx.ring, c.link));
    hide Parse, Filled, Stream, Enc, EncAll, Ordered, Unwritten;
    n := Parse(c.rx.order, c.rx.acc + Filled(c.rx.ring, c.link)).value.1;
  }

  lemma AccShort(c: Channel)
    requires ChannelInv(c) && Decoded(c) < |c.pushed|
    ensures |c.rx.acc| < |Enc(c.tx.order, c.pushed[Decoded(c)])|
  {
    hide EncAll, Enc, Unwritten;
    StreamSplit(c);
    assert c.rx.acc + ((c.rx.ring + c.link) + Behind(c)) == Stream(c);
    DecodePrefix(c.tx.order, c.pushed[Decoded(c)..], c.rx.acc, (c.rx.ring + c.link) + Behind(c));
  }

  // Hosts of different byte orders.

  /** All bytes under way hold nothing that the receiver can decode. */
  ghost predicate Blocked(c: Channel) {
    Bounded(c) && c.rx.inbox == [] && Parse(c.rx.order, Stream(c)) == None
  }

  /** A blocked channel stays blocked: no turn of any loop yields a message or loses a byte. */
  lemma BlockedStays(h: Hop, c: Channel, c': Channel)
    requires Blocked(c) && HopStep(h, c, c')
    ensures Blocked(c') && Stream(c') == Stream(c)
    ensures c'.tx.order == c.tx.order && c'.rx.order == c.rx.order
  {
    match h {
      case SEND =>
        var n: nat :| TxStepBy(n, c.tx, c.link, c'.tx, c'.link);
        SendKeepsStream(n, c, c');
      case FLUSH =>
        hide Parse, EncAll;
        FlushKeeps(c.tx.ring, c.link, c'.tx.ring, c'.link);
        Regroup(c.rx.acc, c.rx.ring, c.link, c.tx.ring, Unwritten(c.tx), c'.link, c'.tx.ring);
      case RECEIVE =>
        var out :| RxStepOut(out, c.rx, c.link, c'.rx, c'.link);
        BlockedReceive(c);
        hide Parse, EncAll, Unwritten, Enc;
        StreamSplit(c);
        StreamSplit(c');
        ReceiveNone(c.rx.acc, c.rx.ring, c.link, Behind(c), c'.rx.ring, c'.link);
    }
  }

  lemma BlockedReceive(c: Channel)
    requires |c.rx.ring| <= RING_SIZE && Parse(c.rx.order, Stream(c)) == None
    ensures Parse(c.rx.order, c.rx.acc + Filled(c.rx.ring, c.link)) == None
  {
    hide Filled, Unfetched, Unwritten, EncAll;
    var avail, rest := Filled(c.rx.ring, c.link), Unfetched(c.rx.ring, c.link);
    FilledTwice(c.rx.ring, c.link);
    StreamSplit(c);
    assert c.rx.acc + (avail + rest) + Behind(c) == (c.rx.acc + avail) + (rest + Behind(c));
    ParseMore(c.rx.order, c.rx.acc + avail, rest + Behind(c));
  }

  /** What decodes still does when more bytes follow. */
  lemma ParseMore(o: Endian, s: seq<byte>, more: seq<byte>)
    ensures Parse(o, s).Some? ==> Parse(o, s + more).Some?
  {
    if Parse(o, s).Some? {
      ParseSound(o, s);
      var (m, n) := Parse(o, s).value;
      hide Parse, Enc;
      CutFront(s, n, more);
      ParseEnc(o, m, s[n..] + more);
    }
  }

  lemma CutFront(s: seq<byte>, n: nat, more: seq<byte>)
    requires n <= |s|
    ensures s + more == s[..n] + (s[n..] + more)
  {
    assert s == s[..n] + s[n..];
  }

  /** A message of one to 255 bytes blocks the way to a host of the other byte order. */
  lemma OtherOrderBlocks(o: Endian, p: Endian, m: Message)
    requires Wellformed(m) && o != p && 0 < |m.value| < 256
    ensures var c := Push(Channel(Sender(o, [], 0, []), [], Receiver(p, [], [], []), [], 0), m);
            Blocked(c) && Stream(c) == Enc(o, m)
  {
    var c := Push(Channel(Sender(o, [], 0, []), [], Receiver(p, [], [], []), [], 0), m);
    assert c.tx.queue == [m] && EncAll(o, [m]) == Enc(o, m) + EncAll(o, []);
    assert Stream(c) == Enc(o, m) + [];
    assert Pow256(7) == 256 * Pow256(6) && Pow256(6) >= 256;
    ShortFrameBlocks(o, p, m, []);
  }

  // Nor do further messages help.

  /** What the sender and the loops do: a message is queued, or a turn is made. */
  datatype Use = Queued(message: Message) | Turned(hop: Hop)

  ghost predicate UseStep(u: Use, c: Channel, c': Channel) {
    match u
    case Queued(m) => c' == Push(c, m)
    case Turned(h) => HopStep(h, c, c')
  }

  ghost predicate Uses(cs: seq<Channel>, us: seq<Use>) {
    |cs| == |us| + 1 && forall i :: 0 <= i < |us| ==> UseStep(us[i], cs[i], cs[i + 1])
  }

  function QueuedIn(us: seq<Use>): seq<Message> {
    if us == [] then []
    else
      var u := us[|us| - 1];
      QueuedIn(us[..|us| - 1]) + if u.Queued? then [u.message] else []
  }

  lemma QueueStream(c: Channel, m: Message)
    requires Bounded(c)
    ensures Bounded(Push(c, m)) && Stream(Push(c, m)) == Stream(c) + Enc(c.tx.order, m)
  {
    UnwrittenPush(c.tx, m);
    hide Unwritten, Parse;
    ConcatAssoc(c.rx.acc + (c.rx.ring + c.link) + c.tx.ring, Unwritten(c.tx), Enc(c.tx.order, m));
  }

  ghost predicate Stuck(c: Channel, o: Endian, p: Endian, m: Message, more: seq<byte>) {
    Blocked(c) && c.tx.order == o && c.rx.order == p && Stream(c) == Enc(o, m) + more
  }

  lemma StuckStep(u: Use, c: Channel, c': Channel, o: Endian, p: Endian, m: Message, more: seq<byte>)
    requires Wellformed(m) && o != p && 0 < |m.value| < 256 && Stuck(c, o, p, m, more) && UseStep(u, c, c')
    ensures u.Turned? ==> Stuck(c', o, p, m, more)
    ensures u.Queued? && |m.value| + |more| + |Enc(o, u.message)| < |m.value| * Pow256(7) ==> Stuck(c', o, p, m, more + Enc(o, u.message))
  {
    hide Enc, Parse, Stream, Bounded, Pow256;
    match u {
      case Turned(h) => BlockedStays(h, c, c');
      case Queued(m') =>
        QueueStream(c, m');
        ConcatAssoc(Enc(o, m), more, Enc(o, m'));
        if |m.value| + |more| + |Enc(o, m')| < |m.value| * Pow256(7) {
          ShortFrameBlocks(o, p, m, more + Enc(o, m'));
        }
    }
  }

  /** Whatever is queued behind the message, and whatever turns are made: nothing is delivered
      before 2^56 times as many bytes as its value has are under way. */
  lemma {:induction false} NothingDelivered(o: Endian, p: Endian, m: Message, cs: seq<Channel>, us: seq<Use>, n: nat)
    requires Wellformed(m) && o != p && 0 < |m.value| < 256 && Uses(cs, us) && n <= |us|
    requires cs[0] == Push(Channel(Sender(o, [], 0, []), [], Receiver(p, [], [], []), [], 0), m)
    requires |m.value| + |EncAll(o, QueuedIn(us[..n]))| < |m.value| * Pow256(7)
    ensures Stuck(cs[n], o, p, m, EncAll(o, QueuedIn(us[..n]))) && cs[n].rx.inbox == []
    decreases n
  {
    hide Enc, EncAll, UseStep, Stuck, Pow256;
    if n == 0 {
      assert us[..0] == [];
      StuckAtFirst(o, p, m);
    } else {
      var u, before := us[n - 1], QueuedIn(us[..n - 1]);
      assert us[..n][..n - 1] == us[..n - 1];
      QueuedBytes(o, before, u);
      assert QueuedIn(us[..n]) == before + if u.Queued? then [u.message] else [];
      assert EncAll(o, before) + [] == EncAll(o, before);
      NothingDelivered(o, p, m, cs, us, n - 1);
      assert UseStep(us[n - 1], cs[n - 1], cs[n - 1 + 1]);
      StuckStep(u, cs[n - 1], cs[n], o, p, m, EncAll(o, before));
    }
    StuckInbox(cs[n], o, p, m, EncAll(o, QueuedIn(us[..n])));
  }

  lemma QueuedBytes(o: Endian, before: seq<Message>, u: Use)
    ensures EncAll(o, before + if u.Queued? then [u.message] else []) ==
            EncAll(o, before) + if u.Queued? then Enc(o, u.message) else []
  {
    hide Enc;
    if u.Queued? {
      EncAllConcat(o, before, [u.message]);
      assert EncAll(o, [u.message]) == Enc(o, u.message) + EncAll(o, []);
    } else {
      assert before + [] == before;
    }
  }

  lemma StuckAtFirst(o: Endian, p: Endian, m: Message)
    requires Wellformed(m) && o != p && 0 < |m.value| < 256
    ensures Stuck(Push(Channel(Sender(o, [], 0, []), [], Receiver(p, [], [], []), [], 0), m), o, p, m, EncAll(o, QueuedIn([])))
  {
    hide Blocked, Stream, Enc;
    OtherOrderBlocks(o, p, m);
    assert Enc(o, m) + [] == Enc(o, m);
  }

  lemma StuckInbox(c: Channel, o: Endian, p: Endian, m: Message, more: seq<byte>)
    requires Stuck(c, o, p, m, more)
    ensures c.rx.inbox == []
  {
  }
}
