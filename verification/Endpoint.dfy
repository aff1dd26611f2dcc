/** What client and server have in common: the two message queues, and the loops that move
    messages between them and the streamer. */
module EndpointModule {
  import opened Bytes
  import opened Frame
  import opened DataLink
  import opened StreamerModule
  import opened SerializerModule
  import opened ChannelModule
  import Wire

  class Endpoint {
    const order: Endian  // of the host
    const streamer: Streamer
    const serializer: Serializer
    const deserializer: Deserializer
    var txMsgBuffer: seq<Message>
    var rxMsgBuffer: seq<Message>
    var initSerializer: bool
    var initDeserializer: bool

    ghost function Footprint(): set<object> {
      {this, serializer, deserializer} + streamer.Footprint()
    }

    /** The objects of this end alone. */
    ghost function Own(): set<object> {
      {this, serializer, deserializer, streamer, streamer.txBuffer, streamer.rxBuffer}
    }

    /** Between two turns: the serializer is in the middle of the first queued message, or
        to be initialized with it; likewise the deserializer. */
    ghost predicate Valid()
      reads this, serializer, deserializer, streamer, streamer.com, streamer.com.sb
    {
      streamer.com.Valid() && streamer.com.open && Local()
    }

    /** The part that does not concern the link. */
    ghost predicate Local()
      reads this, serializer, deserializer, streamer
    {
      && serializer.streamer == streamer && deserializer.streamer == streamer
      && serializer.order == order && deserializer.order == order
      && streamer.Local()
      && serializer.Valid() && serializer.phase != END
      && deserializer.Valid() && deserializer.phase != END
      && (!initSerializer ==> serializer.phase != IDLE && txMsgBuffer != [] && Suffix(serializer.Rest(), Enc(order, txMsgBuffer[0])))
      && (!initDeserializer ==> deserializer.phase != IDLE)
    }

    /** A nonempty rest of a frame. */
    static ghost predicate Suffix(rest: seq<byte>, frame: seq<byte>) {
      0 < |rest| <= |frame| && rest == frame[|frame| - |rest|..]
    }

    ghost function Tx(): Sender
      requires Local()
      reads this, serializer, deserializer, streamer, streamer.txBuffer
    {
      Sender(order, txMsgBuffer, if initSerializer then 0 else |Enc(order, txMsgBuffer[0])| - |serializer.Rest()|, streamer.Tx())
    }

    ghost function Rx(): Receiver
      requires Local()
      reads this, serializer, deserializer, streamer, streamer.rxBuffer
    {
      Receiver(order, streamer.Rx(), if initDeserializer then [] else deserializer.Acc(), rxMsgBuffer)
    }

    ghost function Outgoing(): seq<byte>
      requires streamer.com.Valid()
      reads streamer.com.sb, streamer.com.Footprint()
    {
      streamer.com.Outgoing()
    }

    ghost function Incoming(): seq<byte>
      requires streamer.com.Valid()
      reads streamer.com.sb, streamer.com.Footprint()
    {
      streamer.com.Incoming()
    }

    /** Construction over an open link, and `initLoop`. */
    constructor (order: Endian, com: Com)
      requires com.Valid() && com.open
      ensures Valid() && fresh(Own()) && streamer.com == com && this.order == order
      ensures Tx() == Sender(order, [], 0, []) && Rx() == Receiver(order, [], [], [])
    {
      var str := new Streamer(com);
      var ser := new Serializer(order, str);
      var des := new Deserializer(order, str);
      this.order, streamer, serializer, deserializer := order, str, ser, des;
      txMsgBuffer, rxMsgBuffer := [], [];
      initSerializer, initDeserializer := true, true;
    }

    lemma QueueIs()
      requires Valid()
      ensures Tx().queue == txMsgBuffer && Rx().inbox == rxMsgBuffer
    {
    }

    method Push(m: Message)
      requires Valid()
      modifies this
      ensures Valid() && Tx() == old(Tx()).(queue := old(Tx()).queue + [m]) && Rx() == old(Rx())
      ensures rxMsgBuffer == old(rxMsgBuffer) && txMsgBuffer == old(txMsgBuffer) + [m]
      ensures Outgoing() == old(Outgoing()) && Incoming() == old(Incoming())
    {
      hide RingView, Enc, Serializer.Rest, Serializer.Valid, Deserializer.Valid, Deserializer.Acc;
      txMsgBuffer := txMsgBuffer + [m];
    }

    method Pop()
      requires Valid() && rxMsgBuffer != []
      modifies this
      ensures Valid() && Tx() == old(Tx()) && Rx() == old(Rx()).(inbox := old(Rx()).inbox[1..])
      ensures rxMsgBuffer == old(rxMsgBuffer)[1..]
      ensures Outgoing() == old(Outgoing()) && Incoming() == old(Incoming())
    {
      hide RingView, Enc, Serializer.Rest, Serializer.Valid, Deserializer.Valid, Deserializer.Acc;
      rxMsgBuffer := rxMsgBuffer[1..];
    }

    /** One turn of the transmit loop. */
    method TxTurn()
      requires Valid()
      modifies Footprint()
      ensures Valid()
      ensures TxStep(old(Tx()), old(Outgoing()), Tx(), Outgoing())
      ensures Rx() == old(Rx()) && Incoming() == old(Incoming())
    {
      hide RingView, Enc, TxStepBy;
      if txMsgBuffer != [] {
        PrepareTx();
        ghost var n := SendSome();
        assert TxStepBy(n, old(Tx()), old(Outgoing()), Tx(), Outgoing());
      } else {
        NothingToSend(Tx(), Outgoing());
      }
    }

    method PrepareTx()
      requires Valid() && txMsgBuffer != []
      modifies this, serializer
      ensures Valid() && !initSerializer && txMsgBuffer == old(txMsgBuffer)
      ensures Tx() == old(Tx()) && Outgoing() == old(Outgoing())
      ensures Rx() == old(Rx()) && Incoming() == old(Incoming())
    {
      hide RingView, Serializer.Rest;
      if initSerializer {
        serializer.Init(txMsgBuffer[0]);
        initSerializer := false;
      }
    }

    method SendSome() returns (ghost n: nat)
      requires Valid() && !initSerializer
      modifies Footprint()
      ensures Valid()
      ensures TxStepBy(n, old(Tx()), old(Outgoing()), Tx(), Outgoing())
      ensures Rx() == old(Rx()) && Incoming() == old(Incoming())
    {
      hide RingView, Enc, Wire.Sent, Serializer.Rest, Serializer.Valid, Deserializer.Valid, Deserializer.Acc, TxStepBy;
      ghost var rest, tx, link, queue := serializer.Rest(), streamer.Tx(), streamer.com.Outgoing(), txMsgBuffer;
      var done;
      done, n := serializer.Send();
      SendIsStep(n, order, queue, rest, tx, link, serializer.Rest(), streamer.Tx(), streamer.com.Outgoing());
      if done {
        txMsgBuffer := txMsgBuffer[1..];
        initSerializer := true;
      }
    }

    static lemma NothingToSend(t: Sender, link: seq<byte>)
      requires t.queue == []
      ensures TxStep(t, link, t, link)
    {
      assert TxStepBy(0, t, link, t, link);
    }

    static lemma SendIsStep(n: nat, o: Endian, queue: seq<Message>, rest: seq<byte>, tx: seq<byte>, link: seq<byte>,
                            rest': seq<byte>, tx': seq<byte>, link': seq<byte>)
      requires queue != [] && Suffix(rest, Enc(o, queue[0])) && Wire.Sent(n, rest, tx, link, rest', tx', link')
      ensures rest' != [] ==> Suffix(rest', Enc(o, queue[0]))
      ensures var e := Enc(o, queue[0]);
              TxStepBy(n, Sender(o, queue, |e| - |rest|, tx), link,
                       if rest' == [] then Sender(o, queue[1..], 0, tx') else Sender(o, queue, |e| - |rest'|, tx'), link')
    {
      hide Enc;
      var e := Enc(o, queue[0]);
      var sent := |e| - |rest|;
      assert e[sent..] == rest && e[sent + n..] == rest[n..];
    }

    /** One turn of the receive loop. */
    method RxTurn()
      requires Valid()
      modifies Footprint()
      ensures Valid()
      ensures RxStep(old(Rx()), old(Incoming()), Rx(), Incoming())
      ensures Tx() == old(Tx()) && Outgoing() == old(Outgoing())
    {
      hide RingView, RxStepOut, Wire.Received, Serializer.Rest, Serializer.Valid;
      PrepareRx();
      var done := ReceiveSome();
      assert RxStepOut(if done then Some(rxMsgBuffer[|rxMsgBuffer| - 1]) else None,
                       old(Rx()), old(Incoming()), Rx(), Incoming());
    }

    method PrepareRx()
      requires Valid()
      modifies this, deserializer
      ensures Valid() && !initDeserializer && rxMsgBuffer == old(rxMsgBuffer)
      ensures Tx() == old(Tx()) && Outgoing() == old(Outgoing())
      ensures Rx() == old(Rx()) && Incoming() == old(Incoming())
    {
      hide RingView, Serializer.Rest;
      if initDeserializer {
        deserializer.Init();
        initDeserializer := false;
      }
    }

    method ReceiveSome() returns (done: bool)
      requires Valid() && !initDeserializer
      modifies Footprint()
      ensures Valid()
      ensures done ==> rxMsgBuffer != []
      ensures RxStepOut(if done then Some(rxMsgBuffer[|rxMsgBuffer| - 1]) else None,
                        old(Rx()), old(Incoming()), Rx(), Incoming())
      ensures Tx() == old(Tx()) && Outgoing() == old(Outgoing())
    {
      hide RingView, Wire.Received, Serializer.Rest, Serializer.Valid, Deserializer.Valid, Deserializer.Acc;
      done := deserializer.Receive();
      if done {
        IdleAcc();
        rxMsgBuffer := rxMsgBuffer + [deserializer.msg];
        initDeserializer := true;
      }
    }

    lemma IdleAcc()
      requires deserializer.phase == IDLE
      ensures deserializer.Acc() == []
    {
    }

    /** The flush after the transmit loop. */
    method FlushTurn()
      requires Valid()
      modifies Footprint()
      ensures Valid()
      ensures FlushStep(old(Tx()), old(Outgoing()), Tx(), Outgoing()) && txMsgBuffer == old(txMsgBuffer)
      ensures Rx() == old(Rx()) && Incoming() == old(Incoming())
    {
      hide RingView, Serializer.Rest, Serializer.Valid, Deserializer.Valid, Deserializer.Acc;
      streamer.Flush();
    }
  }
}
