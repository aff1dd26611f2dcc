/** A client and a server connected by two channels, as one state machine, with the history
    that the theorems talk about. */
module Protocol {
  import opened Bytes
  import opened Frame
  import opened ParamTypes
  import opened PrototypeModule
  import opened Marshaller
  import opened ChannelModule
  import opened Peers

  /** A call that was accepted: its arguments, with their values at that time, and its id. */
  datatype Call = Call(key: Key, proto: Prototype, actuals: seq<Actual>, vals: seq<Value>, id: nat)

  /** A request that was served: its number, the function called, and the state it found. */
  datatype Served<!W> = Served(no: nat, call: Call, f: Impl<W>, world: W)

  /** A reply that was dispatched: the call whose entry was found, and the value for its
      callback. */
  datatype Completion = Completion(no: nat, ret: Option<nat>)

  datatype System<!W> = System(
    client: Client, server: Server<W>, up: seq<byte>, down: seq<byte>,
    // History: the calls accepted, the number of requests taken by the server, the requests
    // served, the replies dispatched, the numbers of the calls whose request was dropped, and
    // the initial state of the server's device.
    calls: seq<Call>, taken: nat, served: seq<Served<W>>, fired: seq<Completion>,
    dropped: seq<nat>, origin: W)

  // The messages that were sent.

  function RequestOf(cfg: Config, c: Call): Message {
    Message(c.id, c.key, if FitAll(c.proto.params, c.vals) then EncodeArgs(cfg.cln, c.proto.params, c.vals) else [])
  }

  /** What the function leaves when called locally on the values that arrive. */
  function Result<W>(x: Served<W>): Outcome<W> {
    x.f(x.world, WireAll(x.call.vals))
  }

  function ReplyOf<W>(cfg: Config, x: Served<W>): Message {
    var out, format := Result(x), InFormat(x.call.proto.params);
    Message(x.call.id, x.call.key,
            if FitFormat(format, out.args)
            then EncodeReply(cfg.srv, RetIdOf(x.call.proto.ret), out.ret, format, out.args) else [])
  }

  function Requests(cfg: Config, calls: seq<Call>): seq<Message> {
    seq(|calls|, i requires 0 <= i < |calls| => RequestOf(cfg, calls[i]))
  }

  function Replies<W>(cfg: Config, served: seq<Served<W>>): seq<Message> {
    seq(|served|, i requires 0 <= i < |served| => ReplyOf(cfg, served[i]))
  }

  function UpChannel<W>(cfg: Config, s: System<W>): Channel {
    Channel(s.client.tx, s.up, s.server.rx, Requests(cfg, s.calls), s.taken)
  }

  function DownChannel<W>(cfg: Config, s: System<W>): Channel {
    Channel(s.server.tx, s.down, s.client.rx, Replies(cfg, s.served), |s.fired|)
  }

  // The steps.

  datatype Direction = UP | DOWN

  datatype Label<!W> =
    | Connect(proto: Prototype)
    | Disconnect(key: Key)
    | Async(request: Request)
    | Dispatch(reaction: seq<Request>)
    | Serve
    | Provide(proto: Prototype, f: Impl<W>)
    | Withdraw(key: Key)
    | Assign(addr: Addr, value: Value)
    | Turn(dir: Direction, hop: Hop)

  function CallOf(c: Client, r: Request): Call
    requires Accepted(c, r)
  {
    var stub := c.stubs[r.key];
    Call(r.key, stub.proto, r.actuals, ReadAll(c.mem, r.actuals), NextId(stub))
  }

  function AsyncStep<W>(cfg: Config, s: System<W>, r: Request): System<W> {
    if !Accepted(s.client, r) then s
    else
      var call := CallOf(s.client, r);
      s.(client := Issue(cfg, s.client, r), calls := s.calls + [call])
  }

  function AsyncSteps<W>(cfg: Config, s: System<W>, rs: seq<Request>): System<W> {
    if rs == [] then s else AsyncStep(cfg, AsyncSteps(cfg, s, rs[..|rs| - 1]), rs[|rs| - 1])
  }

  function FinishDispatch<W>(s: System<W>, key: Key, i: nat, ret: Option<nat>): System<W>
    requires key in s.client.stubs && i < |s.client.stubs[key].pending| && s.client.rx.inbox != []
  {
    var stub := s.client.stubs[key];
    s.(client := s.client.(stubs := s.client.stubs[key := stub.(pending := Erase(stub.pending, i))],
                           rx := s.client.rx.(inbox := s.client.rx.inbox[1..])),
       fired := s.fired + [Completion(stub.pending[i].call, ret)])
  }

  /** A reply is dispatched, and its callback issues the calls `reaction`. */
  ghost predicate DispatchStep<W(!new)>(cfg: Config, s: System<W>, reaction: seq<Request>, s': System<W>) {
    match Matched(cfg, s.client)
    case None => false
    case Some((i, ret, mem)) =>
      var key := s.client.rx.inbox[0].name;
      var s1 := AsyncSteps(cfg, s.(client := s.client.(mem := mem)), reaction);
      && key in s1.client.stubs && i < |s1.client.stubs[key].pending| && s1.client.rx.inbox != []
      && s' == FinishDispatch(s1, key, i, ret)
      && DispatchNext(cfg, s.client, reaction) == Some(s'.client)
  }

  predicate Drops<W>(v: Server<W>, key: Key) {
    key !in v.skels || v.skels[key].None?
  }

  /** The history of a request that the server took and dropped. */
  function DropRequest<W>(s: System<W>, v: Server<W>): System<W> {
    s.(server := v, taken := s.taken + 1, dropped := s.dropped + [s.taken])
  }

  /** The history of a request that the server took and answered. */
  function AnswerRequest<W>(s: System<W>, v: Server<W>, f: Impl<W>): System<W>
    requires s.taken < |s.calls|
  {
    s.(server := v, taken := s.taken + 1, served := s.served + [Served(s.taken, s.calls[s.taken], f, s.server.world)])
  }

  ghost predicate ServeStep<W(!new)>(cfg: Config, s: System<W>, s': System<W>) {
    && s.server.rx.inbox != [] && s.taken < |s.calls|
    && ServeNext(cfg, s.server) == Some(s'.server)
    && var key := s.server.rx.inbox[0].name;
       s' == if Drops(s.server, key) then DropRequest(s, s'.server)
             else AnswerRequest(s, s'.server, s.server.skels[key].value.f)
  }

  /** One turn of a transfer loop, in one direction. */
  ghost predicate TurnStep<W(!new)>(cfg: Config, s: System<W>, dir: Direction, hop: Hop, s': System<W>) {
    match dir
    case UP =>
      && HopStep(hop, UpChannel(cfg, s), UpChannel(cfg, s'))
      && s' == s.(client := s.client.(tx := s'.client.tx), up := s'.up, server := s.server.(rx := s'.server.rx))
    case DOWN =>
      && HopStep(hop, DownChannel(cfg, s), DownChannel(cfg, s'))
      && s' == s.(server := s.server.(tx := s'.server.tx), down := s'.down, client := s.client.(rx := s'.client.rx))
  }

  /** One step of a run.  A stub is disconnected only when none of its calls is outstanding;
      between steps the application may assign to its variables. */
  ghost predicate Step<W(!new)>(cfg: Config, s: System<W>, l: Label<W>, s': System<W>) {
    match l
    case Connect(p) => Connectable(p) && s' == s.(client := ConnectStub(s.client, p))
    case Disconnect(k) =>
      && k in s.client.stubs && s.client.stubs[k].pending == []
      && s' == s.(client := s.client.(stubs := s.client.stubs - {k}))
    case Async(r) => s' == AsyncStep(cfg, s, r)
    case Dispatch(reaction) => DispatchStep(cfg, s, reaction, s')
    case Serve => ServeStep(cfg, s, s')
    case Provide(p, f) => Connectable(p) && Typed(p, f) && s' == s.(server := Register(s.server, p, f))
    case Withdraw(k) => s' == s.(server := Unregister(s.server, k))
    case Assign(a, v) => s' == s.(client := s.client.(mem := s.client.mem[a := v]))
    case Turn(dir, hop) => TurnStep(cfg, s, dir, hop, s')
  }

  ghost predicate Start<W(!new)>(cfg: Config, s: System<W>) {
    && s.client == Client(map[], s.client.mem, Sender(cfg.cln.order, [], 0, []), Receiver(cfg.cln.order, [], [], []), 0)
    && s.server == Server(map[], s.origin, Sender(cfg.srv.order, [], 0, []), Receiver(cfg.srv.order, [], [], []))
    && s.up == [] && s.down == []
    && s.calls == [] && s.taken == 0 && s.served == [] && s.fired == [] && s.dropped == []
  }
}
