/** The state of a client and of a server, and the steps of their loops that are not about
    bytes: issuing a call, serving a request, dispatching a reply, and (de)registering
    procedures.  The classes are proved to take these steps. */
module Peers {
  import opened Bytes
  import opened Frame
  import opened ByteOrder
  import opened PrototypeModule
  import opened Marshaller
  import opened ChannelModule

  const MAX_CLIENT_MSG_BUFFER_SIZE: nat := 512

  /** An entry of a stub's invocation list.  `call` is history, which nothing but the theorems
      about runs reads: the number of the call among all calls of the client.  It is not ghost
      because entries are compared as values. */
  datatype Invocation = Invocation(id: nat, addresses: seq<Addr>, call: nat)

  datatype StubState = StubState(proto: Prototype, invokations: nat, pending: seq<Invocation>)

  /** `issued` numbers the entries: the number of calls that were accepted so far. */
  datatype Client = Client(stubs: map<Key, StubState>, mem: Store, tx: Sender, rx: Receiver, issued: nat)

  datatype SkeletonState<!W> = SkeletonState(proto: Prototype, f: Impl<W>)

  /** A procedure that was asked for and is not registered has the entry None. */
  datatype Server<!W> = Server(skels: map<Key, Option<SkeletonState<W>>>, world: W, tx: Sender, rx: Receiver)

  /** What a call of `asyncRPC` passes: the stub and the arguments. */
  datatype Request = Request(key: Key, actuals: seq<Actual>)

  datatype Config = Config(cln: End, srv: End)

  /** Hosts of one byte order, which the headers of the frames need, and an even number of
      swaps in both directions. */
  ghost predicate Sound(cfg: Config) {
    cfg.cln.order == cfg.srv.order && Reconciled(cfg.cln, cfg.srv) && Reconciled(cfg.srv, cfg.cln)
  }

  /** Of the build settings, these are sound: both ends on one machine, or hosts of one order. */
  lemma SettingsSound(loopback: bool, machine: Endian, client: Endian, server: Endian)
    ensures var (c, s) := Ends(loopback, machine, client, server);
            Sound(Config(c, s)) <==> loopback || client == server
  {
  }

  // The client.

  /** A call is accepted unless the queue is over-full; it compiles only if well called. */
  predicate Accepted(c: Client, r: Request) {
    && r.key in c.stubs
    && WellCalled(c.stubs[r.key].proto.params, r.actuals, c.mem)
    && |c.tx.queue| <= MAX_CLIENT_MSG_BUFFER_SIZE
  }

  function NextId(stub: StubState): (id: nat)
    ensures id < TWO16
  {
    (stub.invokations + 1) % TWO16
  }

  /** `asyncRPC` */
  function Issue(cfg: Config, c: Client, r: Request): Client {
    if !Accepted(c, r) then c
    else
      var stub := c.stubs[r.key];
      var id := NextId(stub);
      var (args, addresses) := SerializeArgs(cfg.cln, stub.proto.params, r.actuals, c.mem);
      c.(stubs := c.stubs[r.key := StubState(stub.proto, id, stub.pending + [Invocation(id, addresses, c.issued)])],
         tx := c.tx.(queue := c.tx.queue + [Message(id, r.key, args)]),
         issued := c.issued + 1)
  }

  /** A call of a connected procedure, with arguments that fit: while no more than 512 messages
      are queued, exactly one message and one entry are appended, with the next number; otherwise
      nothing changes. */
  lemma IssueExactly(cfg: Config, c: Client, r: Request)
    requires r.key in c.stubs && WellCalled(c.stubs[r.key].proto.params, r.actuals, c.mem)
    ensures var stub, c' := c.stubs[r.key], Issue(cfg, c, r);
            if |c.tx.queue| <= 512 then
              var id := (stub.invokations + 1) % 0x1_0000;
              var (args, addresses) := SerializeArgs(cfg.cln, stub.proto.params, r.actuals, c.mem);
              && c'.tx == c.tx.(queue := c.tx.queue + [Message(id, r.key, args)])
              && c'.stubs == c.stubs[r.key := StubState(stub.proto, id, stub.pending + [Invocation(id, addresses, c.issued)])]
              && c'.mem == c.mem && c'.rx == c.rx && c'.issued == c.issued + 1
            else c' == c
  {
    hide SerializeArgs, WellCalled;
  }

  /** What a callback issues while it runs. */
  function IssueAll(cfg: Config, c: Client, rs: seq<Request>): Client {
    if rs == [] then c else Issue(cfg, IssueAll(cfg, c, rs[..|rs| - 1]), rs[|rs| - 1])
  }

  /** The search through the invocation list: the first entry with that id. */
  function Find(pending: seq<Invocation>, id: nat): (i: nat)
    ensures i <= |pending|
    ensures i < |pending| ==> pending[i].id == id
    ensures forall j :: 0 <= j < i ==> pending[j].id != id
  {
    if pending == [] || pending[0].id == id then 0 else 1 + Find(pending[1..], id)
  }

  function Erase(pending: seq<Invocation>, i: nat): seq<Invocation> {
    if i < |pending| then pending[..i] + pending[i + 1..] else pending
  }

  /** The first half of `unmarshall_and_dispatch`: the entry that the oldest reply belongs
      to, the value for its callback, and the variables after the results were stored.
      None stands for undefined behaviour: an unknown stub, a search that runs off the end
      of the list, or a reply that is too short. */
  function Matched(cfg: Config, c: Client): Option<(nat, Option<nat>, Store)> {
    if c.rx.inbox == [] || c.rx.inbox[0].name !in c.stubs then None
    else
      var m := c.rx.inbox[0];
      var stub := c.stubs[m.name];
      var i := Find(stub.pending, m.id);
      if i == |stub.pending| then None
      else
        match Accept(cfg.cln, stub.proto, m.value, stub.pending[i].addresses, c.mem)
        case None => None
        case Some((ret, mem)) => Some((i, ret, mem))
  }

  /** Dispatching the oldest reply, with a callback that issues the calls `reaction`; the
      entry is erased after the callback has run. */
  function DispatchNext(cfg: Config, c: Client, reaction: seq<Request>): Option<Client> {
    match Matched(cfg, c)
    case None => None
    case Some((i, ret, mem)) =>
      var key := c.rx.inbox[0].name;
      var c' := IssueAll(cfg, c.(mem := mem), reaction);
      if key !in c'.stubs then None
      else
        var stub := c'.stubs[key];
        Some(c'.(stubs := c'.stubs[key := stub.(pending := Erase(stub.pending, i))],
                 rx := c.rx.(inbox := c.rx.inbox[1..])))
  }

  function ConnectStub(c: Client, p: Prototype): Client
    requires p.params != []
  {
    if KeyOf(p) in c.stubs then c else c.(stubs := c.stubs[KeyOf(p) := StubState(p, 0, [])])
  }

  // The server.

  /** Serving the oldest request: an unregistered procedure leaves a null entry behind and
      the request is dropped; otherwise the reply is queued with the id of the request.
      None stands for undefined behaviour: a request that is too short. */
  function ServeNext<W>(cfg: Config, v: Server<W>): Option<Server<W>> {
    if v.rx.inbox == [] then None
    else
      var m := v.rx.inbox[0];
      var rx := v.rx.(inbox := v.rx.inbox[1..]);
      if m.name !in v.skels || v.skels[m.name].None? then Some(v.(skels := v.skels[m.name := None], rx := rx))
      else
        var k := v.skels[m.name].value;
        match Perform(cfg.srv, k.proto, k.f, v.world, m.value)
        case None => None
        case Some((w, reply)) =>
          Some(v.(world := w, tx := v.tx.(queue := v.tx.queue + [Message(m.id, m.name, reply)]), rx := rx))
  }

  /** A null entry counts as registered. */
  function Register<W>(v: Server<W>, p: Prototype, f: Impl<W>): Server<W>
    requires p.params != []
  {
    if KeyOf(p) in v.skels then v else v.(skels := v.skels[KeyOf(p) := Some(SkeletonState(p, f))])
  }

  function Unregister<W>(v: Server<W>, key: Key): Server<W> {
    if key in v.skels && v.skels[key].Some? then v.(skels := v.skels - {key}) else v
  }

  /** A function is registered where nothing is, and nowhere else anything changes. */
  lemma RegisterExactly<W(!new)>(v: Server<W>, p: Prototype, f: Impl<W>)
    requires p.params != []
    ensures var k, v' := KeyOf(p), Register(v, p, f);
            && (k !in v.skels ==> v' == v.(skels := v.skels[k := Some(SkeletonState(p, f))]))
            && (k in v.skels ==> v' == v)
  {
    hide KeyOf;
  }

  /** A registered function is removed, its entry included, and no other; a null entry stays. */
  lemma UnregisterExactly<W(!new)>(v: Server<W>, key: Key)
    ensures var v' := Unregister(v, key);
            && (key in v'.skels <==> key in v.skels && v.skels[key].None?)
            && (forall k :: k != key ==> (k in v'.skels <==> k in v.skels))
            && (forall k :: k in v'.skels ==> v'.skels[k] == v.skels[k])
            && v'.world == v.world && v'.tx == v.tx && v'.rx == v.rx
  {
  }

  // Traces: what one end does, with the bytes of the link as it sees them.

  datatype ClientSnap = ClientSnap(peer: Client, outgoing: seq<byte>, incoming: seq<byte>)

  datatype ServerSnap<!W> = ServerSnap(peer: Server<W>, outgoing: seq<byte>, incoming: seq<byte>)

  /** A reply is dispatched with a callback that gets the value `ret` and issues `reaction`. */
  datatype ClientAction = Transmit | FlushOut | Receive | DispatchReply(reaction: seq<Request>, ret: Option<nat>)

  ghost predicate ClientMove(cfg: Config, a: ClientSnap, x: ClientAction, b: ClientSnap) {
    match x
    case Transmit =>
      && TxStep(a.peer.tx, a.outgoing, b.peer.tx, b.outgoing)
      && b == a.(peer := a.peer.(tx := b.peer.tx), outgoing := b.outgoing)
    case FlushOut =>
      && FlushStep(a.peer.tx, a.outgoing, b.peer.tx, b.outgoing)
      && b == a.(peer := a.peer.(tx := b.peer.tx), outgoing := b.outgoing)
    case Receive =>
      && RxStep(a.peer.rx, a.incoming, b.peer.rx, b.incoming)
      && b == a.(peer := a.peer.(rx := b.peer.rx), incoming := b.incoming)
    case DispatchReply(reaction, ret) =>
      && Matched(cfg, a.peer).Some? && ret == Matched(cfg, a.peer).value.1
      && DispatchNext(cfg, a.peer, reaction) == Some(b.peer) && b == a.(peer := b.peer)
  }

  ghost predicate ClientTrace(cfg: Config, t: seq<ClientSnap>, xs: seq<ClientAction>) {
    |t| == |xs| + 1 && forall i :: 0 <= i < |xs| ==> ClientMove(cfg, t[i], xs[i], t[i + 1])
  }

  lemma ClientTraceGrows(cfg: Config, t: seq<ClientSnap>, xs: seq<ClientAction>, x: ClientAction, b: ClientSnap)
    requires ClientTrace(cfg, t, xs) && ClientMove(cfg, t[|t| - 1], x, b)
    ensures ClientTrace(cfg, t + [b], xs + [x])
  {
    hide ClientMove;
    forall i | 0 <= i < |xs| + 1 ensures ClientMove(cfg, (t + [b])[i], (xs + [x])[i], (t + [b])[i + 1]) {
      if i < |xs| {
        assert ClientMove(cfg, t[i], xs[i], t[i + 1]);
      }
    }
  }

  /** A trace that goes on from t0 and ends in b. */
  ghost predicate ClientRun(cfg: Config, t0: seq<ClientSnap>, t: seq<ClientSnap>, xs: seq<ClientAction>, b: ClientSnap) {
    ClientTrace(cfg, t, xs) && t0 <= t && t[|t| - 1] == b
  }

  lemma ClientRunGrows(cfg: Config, t0: seq<ClientSnap>, t: seq<ClientSnap>, xs: seq<ClientAction>, a: ClientSnap, x: ClientAction, b: ClientSnap)
    requires ClientRun(cfg, t0, t, xs, a) && ClientMove(cfg, a, x, b)
    ensures ClientRun(cfg, t0, t + [b], xs + [x], b)
  {
    hide ClientMove;
    ClientTraceGrows(cfg, t, xs, x, b);
  }

  function Repeat<T>(n: nat, x: T): seq<T> {
    seq(n, _ => x)
  }

  lemma RepeatGrows<T>(xs: seq<T>, n: nat, x: T)
    ensures xs + Repeat(n, x) + [x] == xs + Repeat(n + 1, x)
  {
  }

  /** The i-th callback of a round gets the i-th value and issues the i-th list of calls, later
      ones nothing. */
  function Dispatches(reactions: seq<seq<Request>>, rets: seq<Option<nat>>): seq<ClientAction> {
    seq(|rets|, i requires 0 <= i < |rets| => DispatchReply(if i < |reactions| then reactions[i] else [], rets[i]))
  }

  /** What one round of the client consists of: n turns of the transmit loop and the flush, rx
      turns of the receive loop, and the dispatch of replies with the values rets. */
  function ClientPlan(n: nat, rx: nat, reactions: seq<seq<Request>>, rets: seq<Option<nat>>): seq<ClientAction> {
    Repeat(n, Transmit) + [FlushOut] + Repeat(rx, Receive) + Dispatches(reactions, rets)
  }

  /** The trace of a round whose transmit loop has time for tx turns and whose receive loop has
      time for rx turns.  Turns are made while there is time and something to send.  In the end
      all replies are dispatched, unless one of them leads to undefined behaviour. */
  ghost predicate ClientRoundTrace(cfg: Config, tx: nat, rx: nat, reactions: seq<seq<Request>>, t: seq<ClientSnap>, xs: seq<ClientAction>,
                                   n: nat, rets: seq<Option<nat>>, ok: bool)
  {
    && ClientTrace(cfg, t, xs) && xs == ClientPlan(n, rx, reactions, rets) && n <= tx
    && (n == 0 <==> tx == 0 || t[0].peer.tx.queue == []) && (n < tx ==> t[n + 1].peer.tx.queue == [])
    && var last := t[|t| - 1].peer;
       if ok then last.rx.inbox == [] else last.rx.inbox != [] && Matched(cfg, last).None?
  }

  datatype ServerAction = Transmit' | FlushOut' | Receive' | ServeRequest

  ghost predicate ServerMove<W(!new)>(cfg: Config, a: ServerSnap<W>, x: ServerAction, b: ServerSnap<W>) {
    match x
    case Transmit' =>
      && TxStep(a.peer.tx, a.outgoing, b.peer.tx, b.outgoing)
      && b == a.(peer := a.peer.(tx := b.peer.tx), outgoing := b.outgoing)
    case FlushOut' =>
      && FlushStep(a.peer.tx, a.outgoing, b.peer.tx, b.outgoing)
      && b == a.(peer := a.peer.(tx := b.peer.tx), outgoing := b.outgoing)
    case Receive' =>
      && RxStep(a.peer.rx, a.incoming, b.peer.rx, b.incoming)
      && b == a.(peer := a.peer.(rx := b.peer.rx), incoming := b.incoming)
    case ServeRequest =>
      ServeNext(cfg, a.peer) == Some(b.peer) && b == a.(peer := b.peer)
  }

  /** One round of the server: rx turns of the receive loop, d requests served, n turns of the
      transmit loop and the flush. */
  function ServerPlan(rx: nat, d: nat, n: nat): seq<ServerAction> {
    Repeat(rx, Receive') + Repeat(d, ServeRequest) + Repeat(n, Transmit') + [FlushOut']
  }

  ghost predicate ServerTrace<W(!new)>(cfg: Config, t: seq<ServerSnap<W>>, xs: seq<ServerAction>) {
    |t| == |xs| + 1 && forall i :: 0 <= i < |xs| ==> ServerMove(cfg, t[i], xs[i], t[i + 1])
  }

  lemma ServerTraceGrows<W(!new)>(cfg: Config, t: seq<ServerSnap<W>>, xs: seq<ServerAction>, x: ServerAction, b: ServerSnap<W>)
    requires ServerTrace(cfg, t, xs) && ServerMove(cfg, t[|t| - 1], x, b)
    ensures ServerTrace(cfg, t + [b], xs + [x])
  {
    hide ServerMove;
    forall i | 0 <= i < |xs| + 1 ensures ServerMove(cfg, (t + [b])[i], (xs + [x])[i], (t + [b])[i + 1]) {
      if i < |xs| {
        assert ServerMove(cfg, t[i], xs[i], t[i + 1]);
      }
    }
  }

  ghost predicate ServerRun<W(!new)>(cfg: Config, t0: seq<ServerSnap<W>>, t: seq<ServerSnap<W>>, xs: seq<ServerAction>, b: ServerSnap<W>) {
    ServerTrace(cfg, t, xs) && t0 <= t && t[|t| - 1] == b
  }

  lemma ServerRunGrows<W(!new)>(cfg: Config, t0: seq<ServerSnap<W>>, t: seq<ServerSnap<W>>, xs: seq<ServerAction>, a: ServerSnap<W>, x: ServerAction, b: ServerSnap<W>)
    requires ServerRun(cfg, t0, t, xs, a) && ServerMove(cfg, a, x, b)
    ensures ServerRun(cfg, t0, t + [b], xs + [x], b)
  {
    hide ServerMove;
    ServerTraceGrows(cfg, t, xs, x, b);
  }

  /** The same for the server: between receiving and transmitting, all requests are served. */
  ghost predicate ServerRoundTrace<W(!new)>(cfg: Config, rx: nat, tx: nat, t: seq<ServerSnap<W>>, xs: seq<ServerAction>, d: nat, n: nat, ok: bool) {
    && ServerTrace(cfg, t, xs)
    && if ok then
         && xs == ServerPlan(rx, d, n) && n <= tx
         && (n == 0 <==> tx == 0 || t[rx + d].peer.tx.queue == []) && t[rx + d].peer.rx.inbox == []
         && (n < tx ==> t[|t| - 1].peer.tx.queue == [])
       else
         var last := t[|t| - 1].peer; last.rx.inbox != [] && ServeNext(cfg, last).None?
  }
}
