/** The server: skeletons, the registry, and the loop. */
module ServerModule {
  import DataLink
  import opened Bytes
  import opened Frame
  import opened ByteOrder
  import opened PrototypeModule
  import opened Marshaller
  import opened ChannelModule
  import opened Peers
  import opened Registry
  import opened EndpointModule
  import opened Lambda

  class Skeleton<!W(!new)> {
    const proto: Prototype
    const func: Impl<W>
    var id: Key
    var inArgs: seq<byte>
    var outArgs: seq<byte>
    var invocationId: nat

    ghost predicate Valid()
      reads this
    {
      Connectable(proto) && Typed(proto, func) && id == KeyOf(proto)
    }

    constructor (p: Prototype, f: Impl<W>)
      requires Connectable(p) && Typed(p, f)
      ensures Valid() && proto == p && func == f
    {
      proto, func, id := p, f, KeyOf(p);
      inArgs, outArgs, invocationId := [], [], 0;
    }

    method Unmarshall(m: Message)
      requires Valid() && m.name == id
      modifies this
      ensures Valid() && id == old(id) && inArgs == m.value && invocationId == m.id
    {
      id := m.name;
      inArgs := m.value;
      invocationId := m.id;
    }

    /** Calls the function on the arguments; the heap is left as it was. */
    method Dispatch(e: End, w: W, heap: CharHeap) returns (w': W)
      requires Valid() && heap.Valid() && DecodeArgs(e, InFormat(proto.params), inArgs).Some?
      modifies this, heap
      ensures Valid() && id == old(id) && invocationId == old(invocationId)
      ensures heap.Valid() && heap.cells == old(heap.cells)
      ensures Perform(e, proto, func, w, old(inArgs)) == Some((w', outArgs))
    {
      hide Perform, DecodeArgs, KeyOf;
      w', outArgs := Invoke(e, proto, func, w, inArgs, heap);
    }

    /** The reply carries the id of the request. */
    method Marshall() returns (m: Message)
      ensures m == Message(invocationId, id, outArgs)
    {
      m := Message(invocationId, id, outArgs);
    }
  }

  class RpcServer<!W(!new)> {
    const cfg: Config
    const ep: Endpoint
    const registry: FunctionsRegistry<Skeleton<W>>
    const heap: CharHeap
    var world: W  // the state of the device that the functions use
    ghost var skels: set<Skeleton<W>>

    static ghost predicate GoodEntry(q: Option<Skeleton<W>>, k: Key, skels: set<Skeleton<W>>)
      reads skels
    {
      q.Some? ==> q.value in skels && q.value.Valid() && q.value.id == k
    }

    ghost predicate SkelsValid()
      reads this`skels, registry, skels
    {
      && registry.Valid()
      && forall k :: k in registry.functionsMap ==> GoodEntry(registry.functionsMap[k], k, skels)
    }

    ghost predicate Valid()
      reads this, ep, ep.serializer, ep.deserializer, ep.streamer, ep.streamer.com, ep.streamer.com.sb
      reads registry, skels, heap
    {
      ep.Valid() && ep.streamer.com.side.ServerSide? && heap.Valid() && SkelsValid()
    }

    /** The part that does not concern the link. */
    ghost predicate Local()
      reads this, ep, ep.serializer, ep.deserializer, ep.streamer
      reads registry, skels, heap
    {
      ep.Local() && heap.Valid() && SkelsValid()
    }

    static ghost function EntryState(q: Option<Skeleton<W>>): Option<SkeletonState<W>> {
      match q
      case None => None
      case Some(k) => Some(SkeletonState(k.proto, k.func))
    }

    ghost function Skels(): map<Key, Option<SkeletonState<W>>>
      reads registry
    {
      map k | k in registry.functionsMap :: EntryState(registry.functionsMap[k])
    }

    ghost function View(): Server<W>
      requires Local()
      reads this, ep, ep.serializer, ep.deserializer, ep.streamer
      reads ep.streamer.txBuffer, ep.streamer.rxBuffer
      reads registry, skels, heap
    {
      Server(Skels(), world, ep.Tx(), ep.Rx())
    }

    ghost function Snap(): ServerSnap<W>
      requires Valid()
      reads this, ep, ep.serializer, ep.deserializer, ep.streamer, ep.streamer.com, ep.streamer.com.Footprint()
      reads ep.streamer.txBuffer, ep.streamer.rxBuffer
      reads registry, skels, heap
    {
      ServerSnap(View(), ep.Outgoing(), ep.Incoming())
    }

    constructor (cfg: Config, com: DataLink.Com, world: W)
      requires com.Valid() && com.open && com.side.ServerSide?
      ensures Valid() && this.cfg == cfg && ep.streamer.com == com
      ensures fresh(ep.Own()) && fresh(registry) && fresh(heap) && skels == {}
      ensures View() == Server(map[], world, Sender(cfg.srv.order, [], 0, []), Receiver(cfg.srv.order, [], [], []))
    {
      this.cfg, this.world, skels := cfg, world, {};
      ep := new Endpoint(cfg.srv.order, com);
      registry := new FunctionsRegistry();
      heap := new CharHeap();
    }

    /** Registers a function; a null entry left by an earlier request counts as registered,
        and then the result is null. */
    method Connect(p: Prototype, f: Impl<W>) returns (q: Option<Skeleton<W>>)
      requires Valid() && Connectable(p) && Typed(p, f)
      modifies registry, this`skels
      ensures Valid() && View() == Register(old(View()), p, f) && fresh(skels - old(skels))
      ensures q.None? <==> KeyOf(p) in old(View()).skels && old(View()).skels[KeyOf(p)].None?
    {
      hide Endpoint.Local, Endpoint.Tx, Endpoint.Rx, KeyOf, SkelsValid, Typed;
      assert p.params != [];
      var k := new Skeleton(p, f);
      q := InsertSkeleton(k);
    }

    method InsertSkeleton(x: Skeleton<W>) returns (q: Option<Skeleton<W>>)
      requires SkelsValid() && x.Valid()
      modifies registry, this`skels
      ensures SkelsValid() && skels == old(skels) + {x}
      ensures Skels() == if x.id in old(Skels()) then old(Skels()) else old(Skels())[x.id := Some(SkeletonState(x.proto, x.func))]
      ensures q.None? <==> x.id in old(Skels()) && old(Skels())[x.id].None?
    {
      hide KeyOf, Bijective, Typed, Connectable;
      q := registry.Insert(x.id, x);
      skels := skels + {x};
    }

    method Disconnect(x: Skeleton<W>)
      requires Valid() && Lookup(registry.functionsMap, x.id) == Some(x)
      modifies registry
      ensures Valid() && View() == Unregister(old(View()), x.id)
      ensures x.id !in registry.functionsMap && registry.functionsMap == old(registry.functionsMap) - {x.id}
    {
      hide Endpoint.Local, Endpoint.Tx, Endpoint.Rx, KeyOf, Bijective, Typed, Connectable;
      registry.Remove(x.id);
    }

    /** `registry.get`, which leaves a null entry for an unknown procedure. */
    method LookupSkeleton(name: Key) returns (q: Option<Skeleton<W>>)
      requires SkelsValid()
      modifies registry
      ensures SkelsValid()
      ensures q.Some? <==> name in old(Skels()) && old(Skels())[name].Some?
      ensures q.Some? ==>
                && Skels() == old(Skels()) && q.value in skels && q.value.Valid() && q.value.id == name
                && Skels()[name] == Some(SkeletonState(q.value.proto, q.value.func))
      ensures q.None? ==> Skels() == old(Skels())[name := None]
    {
      hide KeyOf, Bijective, Typed, Connectable;
      q := registry.Get(name);
    }

    /** Unmarshall, dispatch and marshall of a request for a registered procedure. */
    method Answer(x: Skeleton<W>, msg: Message) returns (reply: Message)
      requires SkelsValid() && heap.Valid() && x in skels && x.Valid() && x.id == msg.name
      requires DecodeArgs(cfg.srv, InFormat(x.proto.params), msg.value).Some?
      modifies x, heap, this`world
      ensures SkelsValid() && heap.Valid() && heap.cells == old(heap.cells)
      ensures reply.id == msg.id && reply.name == msg.name
      ensures Perform(cfg.srv, x.proto, x.func, old(world), msg.value) == Some((world, reply.value))
    {
      hide KeyOf, Bijective, Typed, Connectable, Perform, DecodeArgs;
      x.Unmarshall(msg);
      world := x.Dispatch(cfg.srv, world, heap);
      reply := x.Marshall();
    }

    /** Serves the oldest request; not ok stands for undefined behaviour. */
    method Serve() returns (ok: bool)
      requires Valid() && ep.rxMsgBuffer != []
      modifies this`world, ep, registry, skels, heap
      ensures heap.cells == old(heap.cells)
      ensures old(Snap()).peer.rx.inbox != [] && (ok <==> ServeNext(cfg, old(Snap()).peer).Some?)
      ensures ok ==> Valid() && ServerMove(cfg, old(Snap()), ServeRequest, Snap()) && ep.rxMsgBuffer == old(ep.rxMsgBuffer)[1..]
    {
      hide Endpoint.Local, Endpoint.Tx, Endpoint.Rx, SkelsValid, Skels, Perform, ServeNext, Typed, Connectable, KeyOf;
      var msg := ep.rxMsgBuffer[0];
      ep.QueueIs();
      ServeUnfold(msg);
      ok := true;
      var q := LookupSkeleton(msg.name);
      if q.Some? {
        var x := q.value;
        PerformDefined(cfg.srv, x.proto, x.func, world, msg.value);
        if DecodeArgs(cfg.srv, InFormat(x.proto.params), msg.value).None? {
          return false;
        }
        QueueAnswer(x, msg);
      }
      ep.Pop();
    }

    method QueueAnswer(x: Skeleton<W>, msg: Message)
      requires Valid() && x in skels && x.Valid() && x.id == msg.name
      requires DecodeArgs(cfg.srv, InFormat(x.proto.params), msg.value).Some?
      modifies x, heap, this`world, ep
      ensures Valid() && heap.cells == old(heap.cells) && ep.rxMsgBuffer == old(ep.rxMsgBuffer)
      ensures ep.Outgoing() == old(ep.Outgoing()) && ep.Incoming() == old(ep.Incoming())
      ensures var v := old(View());
              var r := Perform(cfg.srv, x.proto, x.func, v.world, msg.value);
              && r.Some?
              && View() == v.(world := r.value.0, tx := v.tx.(queue := v.tx.queue + [Message(msg.id, msg.name, r.value.1)]))
    {
      hide Endpoint.Local, Endpoint.Tx, Endpoint.Rx, SkelsValid, Skels, Perform, Typed, Connectable, KeyOf, DecodeArgs;
      var reply := Answer(x, msg);
      ep.Push(reply);
    }

    lemma ServeUnfold(msg: Message)
      requires Valid() && ep.rxMsgBuffer != [] && msg == ep.rxMsgBuffer[0]
      ensures var v := View();
              var rx := v.rx.(inbox := v.rx.inbox[1..]);
              if msg.name in v.skels && v.skels[msg.name].Some? then
                var k := v.skels[msg.name].value;
                match Perform(cfg.srv, k.proto, k.f, v.world, msg.value)
                case None => ServeNext(cfg, v) == None
                case Some((w, reply)) =>
                  ServeNext(cfg, v) ==
                  Some(v.(world := w, tx := v.tx.(queue := v.tx.queue + [Message(msg.id, msg.name, reply)]), rx := rx))
              else ServeNext(cfg, v) == Some(v.(skels := v.skels[msg.name := None], rx := rx))
    {
      ep.QueueIs();
      hide Endpoint.Local, Endpoint.Tx, Endpoint.Rx, SkelsValid, Skels, Perform;
    }

    method TransmitTurn()
      requires Valid()
      modifies ep.Footprint()
      ensures Valid() && ServerMove(cfg, old(Snap()), Transmit', Snap())
    {
      hide Endpoint.Local, Endpoint.Tx, Endpoint.Rx, SkelsValid, Skels, TxStep;
      ep.TxTurn();
    }

    method FlushTurn()
      requires Valid()
      modifies ep.Footprint()
      ensures Valid() && ServerMove(cfg, old(Snap()), FlushOut', Snap()) && ep.txMsgBuffer == old(ep.txMsgBuffer)
    {
      hide Endpoint.Local, Endpoint.Tx, Endpoint.Rx, SkelsValid, Skels, FlushStep;
      ep.FlushTurn();
    }

    method ReceiveTurn()
      requires Valid()
      modifies ep.Footprint()
      ensures Valid() && ServerMove(cfg, old(Snap()), Receive', Snap())
    {
      hide Endpoint.Local, Endpoint.Tx, Endpoint.Rx, SkelsValid, Skels, RxStep;
      ep.RxTurn();
    }

    method ReceiveLoop(turns: nat, ghost base: seq<ServerSnap<W>>, ghost t0: seq<ServerSnap<W>>, ghost x0: seq<ServerAction>)
      returns (ghost t: seq<ServerSnap<W>>, ghost xs: seq<ServerAction>)
      requires Valid() && ServerRun(cfg, base, t0, x0, Snap())
      modifies ep.Footprint()
      ensures Valid() && ServerRun(cfg, base, t, xs, Snap())
      ensures xs == x0 + Repeat(turns, Receive')
    {
      hide Valid, Snap, ServerMove, Repeat, ServerRun;
      t, xs := t0, x0;
      NoRepeat(x0);
      var n := 0;
      while n < turns
        invariant Valid() && ServerRun(cfg, base, t, xs, Snap())
        invariant 0 <= n <= turns && xs == x0 + Repeat(n, Receive')
      {
        ghost var before := Snap();
        ReceiveTurn();
        ServerRunGrows(cfg, base, t, xs, before, Receive', Snap());
        RepeatGrows(x0, n, Receive');
        t, xs := t + [Snap()], xs + [Receive'];
        n := n + 1;
      }
    }

    lemma NoRepeat(xs: seq<ServerAction>)
      ensures xs + Repeat(0, Transmit') == xs && xs + Repeat(0, Receive') == xs && xs + Repeat(0, ServeRequest) == xs
    {
    }

    /** Empties the queue of requests; nothing allocated for a call outlives it. */
    method ServeLoop(ghost base: seq<ServerSnap<W>>, ghost t0: seq<ServerSnap<W>>, ghost x0: seq<ServerAction>)
      returns (ok: bool, ghost t: seq<ServerSnap<W>>, ghost xs: seq<ServerAction>, ghost d: nat, ghost last: ServerSnap<W>)
      requires Valid() && ServerRun(cfg, base, t0, x0, Snap())
      modifies this`world, ep, registry, skels, heap
      ensures ServerRun(cfg, base, t, xs, last) && heap.cells == old(heap.cells)
      ensures xs == x0 + Repeat(d, ServeRequest)
      ensures ok ==> Valid() && last == Snap() && ep.rxMsgBuffer == []
      ensures !ok ==> last.peer.rx.inbox != [] && ServeNext(cfg, last.peer).None?
    {
      hide Valid, Snap, ServerMove, ServeNext, ServerRun, Repeat;
      t, xs, d, last := t0, x0, 0, Snap();
      NoRepeat(x0);
      ok := true;
      while ep.rxMsgBuffer != []
        invariant ok && Valid() && last == Snap() && ServerRun(cfg, base, t, xs, last)
        invariant heap.cells == old(heap.cells) && xs == x0 + Repeat(d, ServeRequest)
        decreases |ep.rxMsgBuffer|
      {
        ok := Serve();
        if !ok {
          return;
        }
        ServerRunGrows(cfg, base, t, xs, last, ServeRequest, Snap());
        RepeatGrows(x0, d, ServeRequest);
        last := Snap();
        t, xs, d := t + [last], xs + [ServeRequest], d + 1;
      }
    }

    /** The transmit loop and the flush; it makes turns while it has time and there is something
        to send. */
    method TransmitLoop(turns: nat, ghost base: seq<ServerSnap<W>>, ghost t0: seq<ServerSnap<W>>, ghost x0: seq<ServerAction>)
      returns (ghost t: seq<ServerSnap<W>>, ghost xs: seq<ServerAction>, ghost n: nat)
      requires Valid() && ServerRun(cfg, base, t0, x0, Snap())
      modifies ep.Footprint()
      ensures Valid() && ServerRun(cfg, base, t, xs, Snap())
      ensures xs == x0 + Repeat(n, Transmit') + [FlushOut'] && n <= turns
      ensures (n == 0 <==> turns == 0 || old(ep.txMsgBuffer) == []) && (n < turns ==> ep.txMsgBuffer == [])
    {
      hide Valid, Snap, ServerMove, ServerRun, Repeat;
      t, xs, n := t0, x0, 0;
      NoRepeat(x0);
      ghost var busy := ep.txMsgBuffer != [];
      var i := 0;
      while ep.txMsgBuffer != [] && i < turns
        invariant Valid() && ServerRun(cfg, base, t, xs, Snap())
        invariant i == n <= turns && xs == x0 + Repeat(n, Transmit')
        invariant if i == 0 then busy <==> ep.txMsgBuffer != [] else busy
        decreases turns - i
      {
        ghost var before := Snap();
        TransmitTurn();
        ServerRunGrows(cfg, base, t, xs, before, Transmit', Snap());
        RepeatGrows(x0, n, Transmit');
        t, xs, n := t + [Snap()], xs + [Transmit'], n + 1;
        i := i + 1;
      }
      ghost var before := Snap();
      FlushTurn();
      ServerRunGrows(cfg, base, t, xs, before, FlushOut', Snap());
      t, xs := t + [Snap()], xs + [FlushOut'];
    }

    /** One round of the server: the trace is a run of steps of the protocol, with the turns of
        the plan.  Not ok stands for undefined behaviour. */
    method DoLoop(rxTurns: nat, txTurns: nat)
      returns (ok: bool, ghost t: seq<ServerSnap<W>>, ghost xs: seq<ServerAction>, ghost d: nat, ghost n: nat)
      requires Valid()
      modifies this`world, ep.Footprint(), registry, skels, heap
      ensures ServerRoundTrace(cfg, rxTurns, txTurns, t, xs, d, n, ok)
      ensures |t| > 0 && t[0] == old(Snap()) && (ok ==> Valid() && t[|t| - 1] == Snap())
    {
      hide Valid, Snap, ServerMove, ServeNext, Repeat;
      ok, t, xs, d := ReceiveAndServe(rxTurns);
      n := 0;
      if ok {
        ghost var t1, x1 := t, xs;
        assert ServerRun(cfg, t1, t1, x1, Snap());
        t, xs, n := TransmitLoop(txTurns, t1, t1, x1);
        assert t[0] == t1[0] && t[rxTurns + d] == t1[rxTurns + d];
        QueuesOf();
      }
    }

    method ReceiveAndServe(rxTurns: nat)
      returns (ok: bool, ghost t: seq<ServerSnap<W>>, ghost xs: seq<ServerAction>, ghost d: nat)
      requires Valid()
      modifies this`world, ep.Footprint(), registry, skels, heap
      ensures ServerTrace(cfg, t, xs) && t[0] == old(Snap())
      ensures xs == Repeat(rxTurns, Receive') + Repeat(d, ServeRequest) && |t| == rxTurns + d + 1
      ensures ok ==> Valid() && t[|t| - 1] == Snap()
      ensures ok ==> t[|t| - 1].peer.rx.inbox == [] && t[|t| - 1].peer.tx.queue == ep.txMsgBuffer
      ensures !ok ==> t[|t| - 1].peer.rx.inbox != [] && ServeNext(cfg, t[|t| - 1].peer).None?
    {
      hide Valid, Snap, ServerMove, ServeNext;
      ghost var base := [Snap()];
      assert ServerRun(cfg, base, base, [], Snap());
      ghost var t1, x1 := ReceiveLoop(rxTurns, base, base, []);
      assert [] + Repeat(rxTurns, Receive') == Repeat(rxTurns, Receive');
      ghost var last;
      ok, t, xs, d, last := ServeLoop(base, t1, x1);
      assert t[0] == base[0];
      if ok {
        QueuesOf();
      }
    }

    lemma QueuesOf()
      requires Valid()
      ensures Snap().peer.rx.inbox == ep.rxMsgBuffer && Snap().peer.tx.queue == ep.txMsgBuffer
    {
      hide Endpoint.Local, SkelsValid, Skels;
      ep.QueueIs();
    }
  }

  /** A request can be performed exactly when its arguments can be read. */
  lemma PerformDefined<W(!new)>(e: End, p: Prototype, f: Impl<W>, w: W, data: seq<byte>)
    requires Connectable(p) && Typed(p, f)
    ensures Perform(e, p, f, w, data).Some? <==> DecodeArgs(e, InFormat(p.params), data).Some?
  {
    if DecodeArgs(e, InFormat(p.params), data).Some? {
      DecodedFits(e, p.params, data);
      FormatFits(p.params, f(w, DecodeArgs(e, InFormat(p.params), data).value.0).args);
    }
  }
}
