/** The client: stubs with their invocation lists, the registry, and the loop. */
module ClientModule {
  import DataLink
  import opened Bytes
  import opened Frame
  import opened ByteOrder
  import opened ParamTypes
  import opened PrototypeModule
  import opened Marshaller
  import opened ChannelModule
  import opened Peers
  import opened Registry
  import opened EndpointModule

  class Stub {
    const proto: Prototype
    var id: Key
    var rFormat: RetId
    var outArgsFormat: seq<OutId>
    var inArgs: seq<byte>
    var outArgs: seq<byte>
    var rArg: seq<byte>
    var invokationId: nat
    var invokations: nat
    var nHandles: int
    var invokationList: seq<Invocation>

    ghost predicate Valid()
      reads this
    {
      && Connectable(proto) && id == KeyOf(proto)
      && rFormat == RetIdOf(proto.ret) && outArgsFormat == OutFormat(proto.params)
    }

    ghost function State(): StubState
      reads this
    {
      StubState(proto, invokations, invokationList)
    }

    constructor (p: Prototype)
      requires Connectable(p)
      ensures Valid() && proto == p && nHandles == 1 && State() == StubState(p, 0, [])
    {
      proto, id := p, KeyOf(p);
      rFormat, outArgsFormat := RetIdOf(p.ret), OutFormat(p.params);
      inArgs, outArgs, rArg := [], [], [];
      invokationId, invokations, nHandles, invokationList := 0, 0, 1, [];
    }

    /** The request of the call being issued. */
    method Marshall() returns (m: Message)
      ensures m == Message(invokationId, id, inArgs)
    {
      m := Message(invokationId, id, inArgs);
    }

    /** Numbers the call, serializes its arguments and appends its invocation. */
    method Invoke(e: End, actuals: seq<Actual>, mem: Store, call: nat) returns (m: Message)
      requires Valid() && WellCalled(proto.params, actuals, mem)
      modifies this
      ensures Valid() && id == old(id) && nHandles == old(nHandles)
      ensures var (args, addresses) := SerializeArgs(e, proto.params, actuals, mem);
              var n := NextId(old(State()));
              && m == Message(n, id, args)
              && State() == StubState(proto, n, old(invokationList) + [Invocation(n, addresses, call)])
    {
      invokations := (invokations + 1) % TWO16;
      invokationId := invokations;
      var (args, addresses) := SerializeArgs(e, proto.params, actuals, mem);
      inArgs := args;
      invokationList := invokationList + [Invocation(invokationId, addresses, call)];
      m := Marshall();
    }

    /** The search through the invocation list. */
    method FindInvokation(id: nat) returns (i: nat)
      ensures i == Find(invokationList, id)
    {
      i := 0;
      assert invokationList[0..] == invokationList;
      while i < |invokationList| && invokationList[i].id != id
        invariant 0 <= i <= |invokationList|
        invariant Find(invokationList, id) == i + Find(invokationList[i..], id)
      {
        assert invokationList[i..][1..] == invokationList[i + 1..];
        i := i + 1;
      }
    }

    /** Unmarshalls a reply and stores its results through the addresses of its invocation;
        not ok stands for undefined behaviour. */
    method Unmarshall(e: End, msg: Message, mem: Store) returns (ok: bool, i: nat, ret: Option<nat>, mem': Store)
      requires Valid() && msg.name == id
      modifies this
      ensures Valid() && id == old(id) && State() == old(State()) && nHandles == old(nHandles)
      ensures i == Find(invokationList, msg.id)
      ensures ok <==> i < |invokationList| && Accept(e, proto, msg.value, invokationList[i].addresses, mem).Some?
      ensures ok ==> Accept(e, proto, msg.value, invokationList[i].addresses, mem) == Some((ret, mem'))
    {
      ok, ret, mem' := false, None, mem;
      id := msg.name;
      invokationId := msg.id;
      i := FindInvokation(invokationId);
      match SplitReply(rFormat, msg.value) {
        case None =>
        case Some((r, outs)) =>
          rArg, outArgs := r, outs;
          if i < |invokationList| {
            if rFormat != R_VOID {
              ret := Some(DecodeNum(e, rArg));
            }
            ok, mem' := DeserializeOutArgs(e, outArgsFormat, outArgs, invokationList[i].addresses, mem);
          }
      }
    }
  }

  /** `deserialize_out_args`: each result is stored through its address; not ok stands for a
      read beyond the data or the addresses. */
  method DeserializeOutArgs(e: End, format: seq<OutId>, data: seq<byte>, addresses: seq<Addr>, mem: Store)
    returns (ok: bool, mem': Store)
    ensures ok <==> WriteOuts(e, format, data, addresses, mem).Some?
    ensures ok ==> WriteOuts(e, format, data, addresses, mem) == Some(mem')
  {
    hide WriteOuts, OutKind, DecodeValue;
    mem' := mem;
    var ix, i := 0, 0;
    var todo := data;
    assert format[0..] == format && Rest(addresses, 0) == addresses;
    ghost var result := WriteOuts(e, format, data, addresses, mem);
    hide Rest;
    while i < |format|
      invariant 0 <= i <= |format| && 0 <= ix <= |data| && todo == data[ix..]
      invariant result == WriteOuts(e, format[i..], todo, Rest(addresses, i), mem')
    {
      NextOut(e, format, i, todo, addresses, mem');
      match OutKind(format[i]) {
        case None =>
        case Some(k) =>
          match DecodeValue(e, k, todo) {
            case None => return false, mem;
            case Some((v, n)) =>
              if ix + n > |data| || i >= |addresses| {
                return false, mem;
              }
              mem' := mem'[addresses[i] := v];
              ix := ix + n;
              todo := todo[n..];
          }
      }
      i := i + 1;
    }
    NoMoreOuts(e, format[i..], todo, Rest(addresses, i), mem');
    ok := true;
  }

  lemma NoMoreOuts(e: End, format: seq<OutId>, data: seq<byte>, addresses: seq<Addr>, mem: Store)
    requires format == []
    ensures WriteOuts(e, format, data, addresses, mem) == Some(mem)
  {
  }

  function Rest(addresses: seq<Addr>, i: nat): seq<Addr> {
    if i <= |addresses| then addresses[i..] else []
  }

  lemma NextOut(e: End, format: seq<OutId>, i: nat, data: seq<byte>, addresses: seq<Addr>, mem: Store)
    requires i < |format|
    ensures WriteOuts(e, format[i..], data, Rest(addresses, i), mem) ==
            match OutKind(format[i])
            case None => WriteOuts(e, format[i + 1..], data, Rest(addresses, i + 1), mem)
            case Some(k) =>
              match DecodeValue(e, k, data)
              case None => None
              case Some((v, n)) =>
                if n > |data| || i >= |addresses| then None
                else WriteOuts(e, format[i + 1..], data[n..], Rest(addresses, i + 1), mem[addresses[i] := v])
  {
    hide OutKind, DecodeValue;
    var rest := Rest(addresses, i);
    assert format[i..][0] == format[i] && format[i..][1..] == format[i + 1..];
    assert rest != [] ==> rest[0] == addresses[i];
    assert (if rest == [] then [] else rest[1..]) == Rest(addresses, i + 1);
  }

  class RpcClient {
    const cfg: Config
    const ep: Endpoint
    const registry: FunctionsRegistry<Stub>
    var mem: Store   // the variables of the application
    var issued: nat  // the number of calls accepted, for the history in the invocation lists
    ghost var stubs: set<Stub>

    ghost predicate Registered(stub: Stub)
      reads registry, stub
    {
      Lookup(registry.functionsMap, stub.id) == Some(stub)
    }

    /** Every registered stub is under the key of its own prototype, and every handle count
        is 1. */
    ghost predicate StubsValid()
      reads this`stubs, registry, stubs
    {
      && registry.Valid()
      && forall k :: k in registry.functionsMap ==>
           && registry.functionsMap[k].Some? && registry.functionsMap[k].value in stubs
           && GoodStub(registry.functionsMap[k].value, k)
    }

    static ghost predicate GoodStub(stub: Stub, k: Key)
      reads stub
    {
      stub.Valid() && stub.id == k && stub.nHandles == 1
    }

    ghost predicate Valid()
      reads this, ep, ep.serializer, ep.deserializer, ep.streamer, ep.streamer.com, ep.streamer.com.sb
      reads this, registry, stubs
    {
      ep.Valid() && ep.streamer.com.side.ClientSide? && StubsValid()
    }

    /** The part that does not concern the link. */
    ghost predicate Local()
      reads this, ep, ep.serializer, ep.deserializer, ep.streamer
      reads registry, stubs
    {
      ep.Local() && StubsValid()
    }

    ghost function Stubs(): map<Key, StubState>
      requires StubsValid()
      reads this`stubs, registry, stubs
    {
      map k | k in registry.functionsMap :: registry.functionsMap[k].value.State()
    }

    ghost function View(): Client
      requires Local()
      reads this, ep, ep.serializer, ep.deserializer, ep.streamer
      reads ep.streamer.txBuffer, ep.streamer.rxBuffer
      reads this, registry, stubs
    {
      Client(Stubs(), mem, ep.Tx(), ep.Rx(), issued)
    }

    constructor (cfg: Config, com: DataLink.Com, mem: Store)
      requires com.Valid() && com.open && com.side.ClientSide?
      ensures Valid() && this.cfg == cfg && ep.streamer.com == com
      ensures fresh(ep.Own()) && fresh(registry) && stubs == {}
      ensures View() == Client(map[], mem, Sender(cfg.cln.order, [], 0, []), Receiver(cfg.cln.order, [], [], []), 0)
    {
      this.cfg, this.mem, issued, stubs := cfg, mem, 0, {};
      ep := new Endpoint(cfg.cln.order, com);
      registry := new FunctionsRegistry();
    }

    /** The lookup is by the bare function name, which is never a key: a new stub is made
        every time, and dropped again when the procedure is registered already.  So the
        count of handles is never increased. */
    method Connect(name: string, p: Prototype) returns (stub: Stub)
      requires Valid() && Connectable(p) && name == p.name
      modifies registry, this`stubs
      ensures Valid() && Registered(stub) && stub.id == KeyOf(p) && stub.nHandles == 1
      ensures View() == ConnectStub(old(View()), p) && fresh(stubs - old(stubs))
      ensures old(KeyOf(p) in registry.functionsMap) ==> Some(stub) == old(registry.functionsMap)[KeyOf(p)]
    {
      hide Endpoint.Local, Endpoint.Tx, Endpoint.Rx, KeyOf, StubsValid, Stubs, Stub.Valid, Stub.State, Lookup, PlainName, Ascii;
      assert p.params != [];
      LookupNothing(name);
      var found := registry.Find(Ascii(name));
      if found.Some? {
        assert false;
      }
      stub := new Stub(p);
      stub := InsertStub(stub);
    }

    lemma LookupNothing(name: string)
      requires Valid() && PlainName(name)
      ensures registry.Valid() && Lookup(registry.functionsMap, Ascii(name)).None?
    {
      hide Endpoint.Local;
      BareLookupMisses(name);
    }

    method InsertStub(stub: Stub) returns (q: Stub)
      requires StubsValid() && GoodStub(stub, stub.id)
      modifies registry, this`stubs
      ensures StubsValid() && Registered(q) && q.id == stub.id && q.nHandles == 1 && stubs == old(stubs) + {stub}
      ensures Stubs() == if stub.id in old(Stubs()) then old(Stubs()) else old(Stubs())[stub.id := stub.State()]
      ensures old(stub.id in registry.functionsMap) ==> Some(q) == old(registry.functionsMap)[stub.id]
    {
      hide KeyOf, Bijective, Stub.Valid, Stub.State;
      var p := registry.Insert(stub.id, stub);
      stubs := stubs + {stub};
      q := p.value;
    }

    /** A space-free name finds nothing. */
    lemma BareLookupMisses(name: string)
      requires Valid() && PlainName(name)
      ensures Lookup(registry.functionsMap, Ascii(name)).None?
    {
      hide Endpoint.Local, Bijective, KeyOf;
      if Ascii(name) in registry.functionsMap {
        BareNameMisses(name, registry.functionsMap[Ascii(name)].value.proto);
      }
    }

    /** Through a handle that was disconnected already, which is null then, nothing happens.
        Otherwise the count goes to zero, so the stub is removed whoever else holds a handle to
        it. */
    method Disconnect(stub: Stub?)
      requires Valid() && (stub != null ==> Registered(stub))
      modifies registry, stub
      ensures Valid() && (stub != null ==> Lookup(registry.functionsMap, old(stub.id)).None?)
      ensures View() == if stub == null then old(View()) else old(View()).(stubs := old(View()).stubs - {old(stub.id)})
    {
      hide Endpoint.Local, Endpoint.Tx, Endpoint.Rx, KeyOf, Bijective;
      if stub != null {
        stub.nHandles := stub.nHandles - 1;
        if stub.nHandles <= 0 {
          registry.Remove(stub.id);
        }
      }
    }

    /** Gives up a procedure unless calls of it are outstanding. */
    method DisconnectIdle(key: Key) returns (done: bool)
      requires Valid()
      modifies registry, stubs
      ensures Valid() && (done <==> key in old(View()).stubs && old(View()).stubs[key].pending == [])
      ensures View() == if done then old(View()).(stubs := old(View()).stubs - {key}) else old(View())
    {
      hide Endpoint.Local, Endpoint.Tx, Endpoint.Rx, Stubs, StubsValid, Lookup;
      FindStub(key);
      var q := registry.Find(key);
      done := q.Some? && q.value.invokationList == [];
      if done {
        Disconnect(q.value);
      }
    }

    /** `asyncRPC`: through a handle that was disconnected nothing is issued. */
    method AsyncRpc(stub: Stub?, actuals: seq<Actual>) returns (ok: bool)
      requires Valid() && (stub != null ==> Registered(stub) && WellCalled(stub.proto.params, actuals, mem))
      modifies this`issued, ep, stub
      ensures Valid() && ep.Outgoing() == old(ep.Outgoing()) && ep.Incoming() == old(ep.Incoming())
      ensures (stub != null ==> Registered(stub) && stub.id == old(stub.id)) && ep.rxMsgBuffer == old(ep.rxMsgBuffer)
      ensures ok <==> stub != null && |old(ep.txMsgBuffer)| <= 512
      ensures View() == if stub == null then old(View()) else Issue(cfg, old(View()), Request(stub.id, actuals))
      ensures !ok ==> View() == old(View())
      ensures ok ==> var (args, addresses) := SerializeArgs(cfg.cln, stub.proto.params, actuals, mem);
                     var id := (old(stub.invokations) + 1) % 0x1_0000;
                     && ep.txMsgBuffer == old(ep.txMsgBuffer) + [Message(id, stub.id, args)] && stub.invokations == id
                     && stub.invokationList == old(stub.invokationList) + [Invocation(id, addresses, old(issued))]
    {
      hide Endpoint.Local, Endpoint.Tx, Endpoint.Rx;
      hide KeyOf, Bijective, SerializeArgs, WellCalled, StubsValid, Stubs, Lookup;
      ep.QueueIs();
      ok := stub != null && !(|ep.txMsgBuffer| > MAX_CLIENT_MSG_BUFFER_SIZE);
      if stub != null {
        StubsHas(stub);
      }
      if ok {
        var msg := InvokeStub(stub, actuals);
        ep.Push(msg);
        issued := issued + 1;
      }
    }

    lemma StubsHas(stub: Stub)
      requires StubsValid() && Registered(stub)
      ensures stub.id in Stubs() && Stubs()[stub.id] == stub.State() && stub in stubs
    {
      hide Bijective;
    }

    lemma FindStub(key: Key)
      requires StubsValid()
      ensures registry.Valid()
      ensures var q := Lookup(registry.functionsMap, key);
              && (q.Some? <==> key in Stubs())
              && (q.Some? ==> q.value.id == key && Registered(q.value) && q.value in stubs && Stubs()[key] == q.value.State())
    {
      hide KeyOf, Bijective;
    }

    method InvokeStub(stub: Stub, actuals: seq<Actual>) returns (msg: Message)
      requires StubsValid() && Registered(stub) && WellCalled(stub.proto.params, actuals, mem)
      modifies stub
      ensures StubsValid() && Registered(stub) && stub.id == old(stub.id)
      ensures var (args, addresses) := SerializeArgs(cfg.cln, stub.proto.params, actuals, mem);
              var n := NextId(old(stub.State()));
              && msg == Message(n, stub.id, args) && stub.invokations == n
              && stub.invokationList == old(stub.invokationList) + [Invocation(n, addresses, issued)]
              && Stubs() == old(Stubs())[stub.id := StubState(stub.proto, n, old(stub.invokationList) + [Invocation(n, addresses, issued)])]
    {
      hide KeyOf, Bijective, SerializeArgs, WellCalled;
      msg := stub.Invoke(cfg.cln, actuals, mem, issued);
    }

    /** The calls that a callback issues while it runs. */
    method RunCallback(reaction: seq<Request>)
      requires Valid()
      modifies this`issued, ep, stubs
      ensures Valid() && (forall s :: s in stubs ==> s.id == old(s.id)) && ep.rxMsgBuffer == old(ep.rxMsgBuffer)
      ensures ep.Outgoing() == old(ep.Outgoing()) && ep.Incoming() == old(ep.Incoming())
      ensures View() == IssueAll(cfg, old(View()), reaction)
    {
      hide Endpoint.Local, Endpoint.Tx, Endpoint.Rx, Issue, StubsValid;
      var i := 0;
      while i < |reaction|
        invariant 0 <= i <= |reaction|
        invariant Valid() && (forall s :: s in stubs ==> s.id == old(s.id)) && ep.rxMsgBuffer == old(ep.rxMsgBuffer)
        invariant ep.Outgoing() == old(ep.Outgoing()) && ep.Incoming() == old(ep.Incoming())
        invariant View() == IssueAll(cfg, old(View()), reaction[..i])
      {
        assert reaction[..i + 1][..i] == reaction[..i];
        IssueRequest(reaction[i]);
        i := i + 1;
      }
      assert reaction[..i] == reaction;
    }

    /** A request that does not compile, or for which there is no stub, cannot occur and is
        passed over. */
    method IssueRequest(r: Request)
      requires Valid()
      modifies this`issued, ep, stubs
      ensures Valid() && (forall s :: s in stubs ==> s.id == old(s.id)) && ep.rxMsgBuffer == old(ep.rxMsgBuffer)
      ensures ep.Outgoing() == old(ep.Outgoing()) && ep.Incoming() == old(ep.Incoming())
      ensures View() == Issue(cfg, old(View()), r)
    {
      hide Endpoint.Local, Endpoint.Tx, Endpoint.Rx, KeyOf, Bijective, SerializeArgs, WellCalled;
      if r.key in registry.functionsMap {
        var stub := registry.functionsMap[r.key].value;
        if WellCalled(stub.proto.params, r.actuals, mem) {
          var ok := AsyncRpc(stub, r.actuals);
        }
      }
    }

    method UnmarshallReply(stub: Stub, msg: Message) returns (ok: bool, i: nat, ret: Option<nat>, mem': Store)
      requires StubsValid() && Registered(stub) && stub.id == msg.name
      modifies stub
      ensures StubsValid() && Registered(stub) && Stubs() == old(Stubs()) && stub.id == msg.name
      ensures i == Find(stub.invokationList, msg.id)
      ensures ok <==> i < |stub.invokationList| && Accept(cfg.cln, stub.proto, msg.value, stub.invokationList[i].addresses, mem).Some?
      ensures ok ==> Accept(cfg.cln, stub.proto, msg.value, stub.invokationList[i].addresses, mem) == Some((ret, mem'))
    {
      hide KeyOf, Bijective, Accept, Find;
      ok, i, ret, mem' := stub.Unmarshall(cfg.cln, msg, mem);
    }

    /** `registry.get`: an absent stub leaves a null entry behind. */
    method LookupStub(name: Key) returns (q: Option<Stub>)
      requires StubsValid()
      modifies registry
      ensures q.Some? <==> name in old(Stubs())
      ensures q.Some? ==>
                StubsValid() && Stubs() == old(Stubs()) && Registered(q.value) && q.value.id == name && q.value in stubs
    {
      hide KeyOf, Bijective;
      q := registry.Get(name);
    }

    /** Looks up the stub of the oldest reply and unmarshalls the reply. */
    method MatchReply() returns (ok: bool, stub: Stub?, i: nat, ret: Option<nat>, mem': Store)
      requires Valid() && ep.rxMsgBuffer != []
      modifies registry, stubs
      ensures ok <==> Matched(cfg, old(View())).Some?
      ensures ok ==>
                && Valid() && View() == old(View()) && stub != null && Registered(stub) && stub in stubs
                && stub.id == old(ep.rxMsgBuffer[0].name)
                && Matched(cfg, old(View())).value == (i, ret, mem')
                && ep.Outgoing() == old(ep.Outgoing()) && ep.Incoming() == old(ep.Incoming())
    {
      hide Endpoint.Local, Endpoint.Tx, Endpoint.Rx, StubsValid, Stubs, Accept, Find, Matched;
      ok, stub, i, ret, mem' := false, null, 0, None, mem;
      var msg := ep.rxMsgBuffer[0];
      OldestIs(msg);
      var q := LookupStub(msg.name);
      if q.Some? {
        stub := q.value;
        StubsHas(stub);
        ok, i, ret, mem' := UnmarshallReply(stub, msg);
        StubsHas(stub);
      }
    }

    lemma OldestIs(msg: Message)
      requires Valid() && ep.rxMsgBuffer != [] && msg == ep.rxMsgBuffer[0]
      ensures var c := View();
              if msg.name in c.stubs then
                var stub := c.stubs[msg.name];
                var i := Find(stub.pending, msg.id);
                if i == |stub.pending| then Matched(cfg, c) == None
                else match Accept(cfg.cln, stub.proto, msg.value, stub.pending[i].addresses, c.mem)
                     case None => Matched(cfg, c) == None
                     case Some((ret, mem)) => Matched(cfg, c) == Some((i, ret, mem))
              else Matched(cfg, c) == None
    {
      ep.QueueIs();
      hide Endpoint.Local, Endpoint.Tx, Endpoint.Rx, StubsValid, Stubs, Accept, Find;
    }

    /** Erases an entry and takes the reply off the queue. */
    method Finish(stub: Stub, i: nat)
      requires Valid() && Registered(stub) && ep.rxMsgBuffer != []
      modifies stub, ep
      ensures Valid() && ep.Outgoing() == old(ep.Outgoing()) && ep.Incoming() == old(ep.Incoming())
      ensures ep.rxMsgBuffer == old(ep.rxMsgBuffer)[1..]
      ensures var c, key := old(View()), old(stub.id);
              && key in c.stubs
              && View() == c.(stubs := c.stubs[key := c.stubs[key].(pending := Erase(c.stubs[key].pending, i))],
                              rx := c.rx.(inbox := c.rx.inbox[1..]))
    {
      hide Endpoint.Local, Endpoint.Tx, Endpoint.Rx, KeyOf, Bijective, Erase;
      StubsHas(stub);
      stub.invokationList := Erase(stub.invokationList, i);
      assert StubsValid();
      ep.Pop();
    }

    /** Dispatches the oldest reply, with a callback that gets `ret` and issues `reaction`; the
        entry is erased when the callback has returned.  Not ok stands for undefined behaviour. */
    method Dispatch(reaction: seq<Request>) returns (ok: bool, ret: Option<nat>)
      requires Valid() && ep.rxMsgBuffer != []
      modifies this`mem, this`issued, ep, registry, stubs
      ensures ok <==> Matched(cfg, old(View())).Some?
      ensures ok ==> Valid() && DispatchNext(cfg, old(View()), reaction) == Some(View())
      ensures ok ==> ret == Matched(cfg, old(View())).value.1
      ensures ok ==> ep.rxMsgBuffer == old(ep.rxMsgBuffer)[1..]
      ensures ok ==> ep.Outgoing() == old(ep.Outgoing()) && ep.Incoming() == old(ep.Incoming())
    {
      hide Endpoint.Local, Endpoint.Tx, Endpoint.Rx, StubsValid, Stubs, IssueAll, Matched, Erase;
      ep.QueueIs();
      ghost var c := View();
      var stub, i, mem';
      ok, stub, i, ret, mem' := MatchReply();
      if ok {
        mem := mem';
        RunCallback(reaction);
        IssueAllRx(cfg, c.(mem := mem'), reaction);
        Finish(stub, i);
      }
    }

    ghost function Snap(): ClientSnap
      requires Valid()
      reads this, ep, ep.serializer, ep.deserializer, ep.streamer, ep.streamer.com, ep.streamer.com.Footprint()
      reads ep.streamer.txBuffer, ep.streamer.rxBuffer
      reads registry, stubs
    {
      ClientSnap(View(), ep.Outgoing(), ep.Incoming())
    }

    method TransmitTurn()
      requires Valid()
      modifies ep.Footprint()
      ensures Valid() && ClientMove(cfg, old(Snap()), Transmit, Snap())
    {
      hide Endpoint.Local, Endpoint.Tx, Endpoint.Rx, StubsValid, Stubs, TxStep;
      ep.TxTurn();
    }

    method FlushTurn()
      requires Valid()
      modifies ep.Footprint()
      ensures Valid() && ClientMove(cfg, old(Snap()), FlushOut, Snap()) && ep.txMsgBuffer == old(ep.txMsgBuffer)
    {
      hide Endpoint.Local, Endpoint.Tx, Endpoint.Rx, StubsValid, Stubs, FlushStep;
      ep.FlushTurn();
    }

    method ReceiveTurn()
      requires Valid()
      modifies ep.Footprint()
      ensures Valid() && ClientMove(cfg, old(Snap()), Receive, Snap())
    {
      hide Endpoint.Local, Endpoint.Tx, Endpoint.Rx, StubsValid, Stubs, RxStep;
      ep.RxTurn();
    }

    method DispatchTurn(reaction: seq<Request>) returns (ok: bool, ret: Option<nat>)
      requires Valid() && ep.rxMsgBuffer != []
      modifies this`mem, this`issued, ep, registry, stubs
      ensures old(Snap()).peer.rx.inbox != [] && (ok <==> Matched(cfg, old(Snap()).peer).Some?)
      ensures ok ==> Valid() && ep.rxMsgBuffer == old(ep.rxMsgBuffer)[1..]
      ensures ok ==> ClientMove(cfg, old(Snap()), DispatchReply(reaction, ret), Snap())
    {
      hide Endpoint.Local, Endpoint.Tx, Endpoint.Rx, StubsValid, Stubs, DispatchNext, Matched;
      ep.QueueIs();
      ok, ret := Dispatch(reaction);
    }

    /** The transmit loop and the flush.  It makes turns while it has time and there is something
        to send. */
    method TransmitLoop(turns: nat, ghost base: seq<ClientSnap>, ghost t0: seq<ClientSnap>, ghost x0: seq<ClientAction>)
      returns (ghost t: seq<ClientSnap>, ghost xs: seq<ClientAction>, ghost n: nat)
      requires Valid() && ClientRun(cfg, base, t0, x0, Snap())
      modifies ep.Footprint()
      ensures Valid() && ClientRun(cfg, base, t, xs, Snap())
      ensures xs == x0 + Repeat(n, Transmit) + [FlushOut] && n <= turns
      ensures (n == 0 <==> turns == 0 || old(ep.txMsgBuffer) == []) && (n < turns ==> ep.txMsgBuffer == [])
    {
      hide Valid, Snap, ClientMove, Repeat, ClientRun;
      t, xs, n := t0, x0, 0;
      NoRepeat(x0);
      ghost var busy := ep.txMsgBuffer != [];
      var i := 0;
      while ep.txMsgBuffer != [] && i < turns
        invariant Valid() && ClientRun(cfg, base, t, xs, Snap())
        invariant i == n <= turns && xs == x0 + Repeat(n, Transmit)
        invariant if i == 0 then busy <==> ep.txMsgBuffer != [] else busy
        decreases turns - i
      {
        ghost var before := Snap();
        TransmitTurn();
        ClientRunGrows(cfg, base, t, xs, before, Transmit, Snap());
        RepeatGrows(x0, n, Transmit);
        t, xs, n := t + [Snap()], xs + [Transmit], n + 1;
        i := i + 1;
      }
      ghost var before := Snap();
      FlushTurn();
      ClientRunGrows(cfg, base, t, xs, before, FlushOut, Snap());
      t, xs := t + [Snap()], xs + [FlushOut];
    }

    lemma NoRepeat(xs: seq<ClientAction>)
      ensures xs + Repeat(0, Transmit) == xs && xs + Repeat(0, Receive) == xs
    {
    }

    /** The receive loop. */
    method ReceiveLoop(turns: nat, ghost base: seq<ClientSnap>, ghost t0: seq<ClientSnap>, ghost x0: seq<ClientAction>)
      returns (ghost t: seq<ClientSnap>, ghost xs: seq<ClientAction>)
      requires Valid() && ClientRun(cfg, base, t0, x0, Snap())
      modifies ep.Footprint()
      ensures Valid() && ClientRun(cfg, base, t, xs, Snap())
      ensures xs == x0 + Repeat(turns, Receive)
    {
      hide Valid, Snap, ClientMove, Repeat, ClientRun;
      t, xs := t0, x0;
      NoRepeat(x0);
      var n := 0;
      while n < turns
        invariant Valid() && ClientRun(cfg, base, t, xs, Snap())
        invariant 0 <= n <= turns && xs == x0 + Repeat(n, Receive)
      {
        ghost var before := Snap();
        ReceiveTurn();
        ClientRunGrows(cfg, base, t, xs, before, Receive, Snap());
        RepeatGrows(x0, n, Receive);
        t, xs := t + [Snap()], xs + [Receive];
        n := n + 1;
      }
    }

    /** The dispatch loop: empties the queue of replies and returns what the callbacks got. */
    method DispatchLoop(reactions: seq<seq<Request>>, ghost base: seq<ClientSnap>, ghost t0: seq<ClientSnap>, ghost x0: seq<ClientAction>)
      returns (ok: bool, rets: seq<Option<nat>>, ghost t: seq<ClientSnap>, ghost xs: seq<ClientAction>, ghost last: ClientSnap)
      requires Valid() && ClientRun(cfg, base, t0, x0, Snap())
      modifies this`mem, this`issued, ep, registry, stubs
      ensures ClientRun(cfg, base, t, xs, last) && xs == x0 + Dispatches(reactions, rets)
      ensures ok ==> Valid() && last == Snap() && ep.rxMsgBuffer == []
      ensures !ok ==> last.peer.rx.inbox != [] && Matched(cfg, last.peer).None?
    {
      hide Valid, Snap, ClientMove, DispatchNext, Matched, ClientRun, Dispatches;
      t, xs, rets, last := t0, x0, [], Snap();
      NoDispatches(x0, reactions);
      ok := true;
      while ep.rxMsgBuffer != []
        invariant ok && Valid() && last == Snap() && ClientRun(cfg, base, t, xs, last)
        invariant xs == x0 + Dispatches(reactions, rets)
        decreases |ep.rxMsgBuffer|
      {
        var reaction := if |rets| < |reactions| then reactions[|rets|] else [];
        var ret;
        ok, ret := DispatchTurn(reaction);
        if !ok {
          return;
        }
        ClientRunGrows(cfg, base, t, xs, last, DispatchReply(reaction, ret), Snap());
        DispatchesGrow(x0, reactions, rets, ret);
        last := Snap();
        t, xs := t + [last], xs + [DispatchReply(reaction, ret)];
        rets := rets + [ret];
      }
    }

    lemma NoDispatches(xs: seq<ClientAction>, reactions: seq<seq<Request>>)
      ensures xs + Dispatches(reactions, []) == xs
    {
    }

    lemma DispatchesGrow(xs: seq<ClientAction>, reactions: seq<seq<Request>>, rets: seq<Option<nat>>, ret: Option<nat>)
      ensures xs + Dispatches(reactions, rets) + [DispatchReply(if |rets| < |reactions| then reactions[|rets|] else [], ret)] ==
              xs + Dispatches(reactions, rets + [ret])
    {
    }

    /** One round of the client: the trace is a run of steps of the protocol, with the turns of
        the plan.  The turns that the timed loops have time for, and what the callbacks issue,
        are parameters; the values that the callbacks get are the result.  Not ok stands for
        undefined behaviour. */
    method DoLoop(txTurns: nat, rxTurns: nat, reactions: seq<seq<Request>>)
      returns (ok: bool, rets: seq<Option<nat>>, ghost t: seq<ClientSnap>, ghost xs: seq<ClientAction>, ghost n: nat)
      requires Valid()
      modifies this`mem, this`issued, ep.Footprint(), registry, stubs
      ensures ClientRoundTrace(cfg, txTurns, rxTurns, reactions, t, xs, n, rets, ok)
      ensures |t| > 0 && t[0] == old(Snap()) && (ok ==> Valid() && t[|t| - 1] == Snap())
    {
      hide Valid, Snap, ClientMove, Matched, Dispatches, Repeat, Local, View;
      ghost var t2, x2;
      t2, x2, n := TransmitAndReceive(txTurns, rxTurns);
      assert ClientRun(cfg, t2, t2, x2, Snap());
      ghost var last;
      ok, rets, t, xs, last := DispatchLoop(reactions, t2, t2, x2);
      assert t[0] == t2[0] && t[n + 1] == t2[n + 1];
      if ok {
        QueuesOf();
      }
    }

    method TransmitAndReceive(txTurns: nat, rxTurns: nat) returns (ghost t: seq<ClientSnap>, ghost xs: seq<ClientAction>, ghost n: nat)
      requires Valid()
      modifies ep.Footprint()
      ensures Valid() && ClientTrace(cfg, t, xs) && xs == Repeat(n, Transmit) + [FlushOut] + Repeat(rxTurns, Receive) && |t| == n + rxTurns + 2
      ensures t[0] == old(Snap()) && t[|t| - 1] == Snap() && n <= txTurns
      ensures (n == 0 <==> txTurns == 0 || t[0].peer.tx.queue == []) && (n < txTurns ==> t[n + 1].peer.tx.queue == [])
    {
      hide Valid, Snap, ClientMove, Local, View;
      QueuesOf();
      ghost var base := [Snap()];
      assert ClientRun(cfg, base, base, [], Snap());
      ghost var t1, x1;
      t1, x1, n := TransmitLoop(txTurns, base, base, []);
      assert x1 == Repeat(n, Transmit) + [FlushOut];
      QueuesOf();
      assert ClientRun(cfg, t1, t1, x1, Snap());
      t, xs := ReceiveLoop(rxTurns, t1, t1, x1);
      assert t[0] == t1[0] == base[0] && t[n + 1] == t1[n + 1];
    }

    lemma QueuesOf()
      requires Valid()
      ensures Snap().peer.rx.inbox == ep.rxMsgBuffer && Snap().peer.tx.queue == ep.txMsgBuffer
    {
      hide Endpoint.Local, StubsValid, Stubs;
      ep.QueueIs();
    }
  }

  lemma {:induction false} IssueAllRx(cfg: Config, c: Client, rs: seq<Request>)
    ensures IssueAll(cfg, c, rs).rx == c.rx
  {
    if rs != [] { IssueAllRx(cfg, c, rs[..|rs| - 1]); }
  }
}
