/** The classes run the protocol: what client and server objects do is, event by event, a run of
    the state machine, so that the theorems about its runs hold for the objects. */
module Session {
  import DataLink
  import opened Bytes
  import opened Frame
  import opened PrototypeModule
  import opened Marshaller
  import opened ChannelModule
  import opened Peers
  import opened Registry
  import opened Protocol
  import opened Invariant
  import opened Runs
  import opened Theorems
  import opened Liveness
  import opened Progress
  import opened Schedule
  import opened ClientModule
  import opened ServerModule
  import opened EndpointModule

  function ClientSide<W>(s: System<W>): ClientSnap {
    ClientSnap(s.client, s.up, s.down)
  }

  function ServerSide<W>(s: System<W>): ServerSnap<W> {
    ServerSnap(s.server, s.down, s.up)
  }

  /** What a client object does is a step of the protocol. */
  lemma ClientMoveIsStep<W(!new)>(cfg: Config, s: System<W>, x: ClientAction, b: ClientSnap) returns (s': System<W>)
    requires Sound(cfg) && Inv(cfg, s) && ClientMove(cfg, ClientSide(s), x, b)
    ensures Step(cfg, s, ClientLabel(x), s') && ClientSide(s') == b && s'.server == s.server
  {
    hide TxStep, FlushStep, RxStep, LogInv, ChannelInv, Requests, Replies, Matched;
    match x {
      case Transmit => s' := s.(client := b.peer, up := b.outgoing);
      case FlushOut => s' := s.(client := b.peer, up := b.outgoing);
      case Receive => s' := s.(client := b.peer, down := b.incoming);
      case DispatchReply(reaction, _) =>
        assert s.client.rx.inbox != [] by { InboxOf(cfg, s.client); }
        s' := DispatchIs(cfg, s, reaction);
    }
  }

  lemma InboxOf(cfg: Config, c: Client)
    requires Matched(cfg, c).Some?
    ensures c.rx.inbox != []
  {
  }

  lemma DispatchIs<W(!new)>(cfg: Config, s: System<W>, reaction: seq<Request>) returns (s': System<W>)
    requires Sound(cfg) && Inv(cfg, s) && s.client.rx.inbox != []
    ensures Step(cfg, s, Dispatch(reaction), s') && DispatchNext(cfg, s.client, reaction) == Some(s'.client)
    ensures s'.server == s.server && s'.up == s.up && s'.down == s.down
  {
    hide Inv, Matched, DispatchNext, AsyncSteps, IssueAll, Find, Stored, WireAll, Result, ReturnOf;
    s' := DispatchDefined(cfg, s, reaction);
    MatchedReply(cfg, s);
    var mem := Matched(cfg, s.client).value.2;
    MemoryInv(cfg, s, mem);
    AsyncStepsInv(cfg, s.(client := s.client.(mem := mem)), reaction);
  }

  /** What a server object does is a step of the protocol. */
  lemma ServerMoveIsStep<W(!new)>(cfg: Config, s: System<W>, x: ServerAction, b: ServerSnap<W>) returns (s': System<W>)
    requires Sound(cfg) && Inv(cfg, s) && ServerMove(cfg, ServerSide(s), x, b)
    ensures Step(cfg, s, ServerLabel(x), s') && ServerSide(s') == b && s'.client == s.client
  {
    hide TxStep, FlushStep, RxStep, LogInv, ChannelInv, Requests, Replies, Perform;
    match x {
      case Transmit' => s' := s.(server := b.peer, down := b.outgoing);
      case FlushOut' => s' := s.(server := b.peer, down := b.outgoing);
      case Receive' => s' := s.(server := b.peer, up := b.incoming);
      case ServeRequest =>
        OldestRequest(cfg, s);
        var key := s.server.rx.inbox[0].name;
        s' := if Drops(s.server, key) then DropRequest(s, b.peer)
              else AnswerRequest(s, b.peer, s.server.skels[key].value.f);
    }
  }

  /** The states that a system goes through while the client makes the steps of a trace. */
  ghost predicate ClientDrives<W(!new)>(cfg: Config, s: System<W>, t: seq<ClientSnap>, xs: seq<ClientAction>, states: seq<System<W>>) {
    && |states| == |t| == |xs| + 1 && states[0] == s
    && (forall i :: 0 <= i < |xs| ==> Step(cfg, states[i], ClientLabel(xs[i]), states[i + 1]))
    && (forall i :: 0 <= i < |t| ==> ClientSide(states[i]) == t[i] && states[i].server == s.server)
  }

  ghost predicate ServerDrives<W(!new)>(cfg: Config, s: System<W>, t: seq<ServerSnap<W>>, xs: seq<ServerAction>, states: seq<System<W>>) {
    && |states| == |t| == |xs| + 1 && states[0] == s
    && (forall i :: 0 <= i < |xs| ==> Step(cfg, states[i], ServerLabel(xs[i]), states[i + 1]))
    && (forall i :: 0 <= i < |t| ==> ServerSide(states[i]) == t[i] && states[i].client == s.client)
  }

  lemma {:induction false} ClientTraceIsRun<W(!new)>(cfg: Config, s: System<W>, t: seq<ClientSnap>, xs: seq<ClientAction>)
    returns (states: seq<System<W>>)
    requires Sound(cfg) && Inv(cfg, s) && ClientTrace(cfg, t, xs) && t[0] == ClientSide(s)
    ensures ClientDrives(cfg, s, t, xs, states) && Inv(cfg, states[|xs|])
    decreases |xs|
  {
    hide Inv, ClientMove, Step;
    if xs == [] {
      states := [s];
    } else {
      var n := |xs|;
      assert ClientMove(cfg, t[n - 1], xs[n - 1], t[n]);
      var ss := ClientTraceIsRun(cfg, s, t[..n], xs[..n - 1]);
      var z' := ClientMoveIsStep(cfg, ss[n - 1], xs[n - 1], t[n]);
      StepInv(cfg, ss[n - 1], ClientLabel(xs[n - 1]), z');
      states := ss + [z'];
      forall i | 0 <= i < |xs| ensures Step(cfg, states[i], ClientLabel(xs[i]), states[i + 1]) {
        if i < n - 1 {
          assert xs[..n - 1][i] == xs[i];
          assert Step(cfg, ss[i], ClientLabel(xs[..n - 1][i]), ss[i + 1]);
        }
      }
    }
  }

  lemma {:induction false} ServerTraceIsRun<W(!new)>(cfg: Config, s: System<W>, t: seq<ServerSnap<W>>, xs: seq<ServerAction>)
    returns (states: seq<System<W>>)
    requires Sound(cfg) && Inv(cfg, s) && ServerTrace(cfg, t, xs) && t[0] == ServerSide(s)
    ensures ServerDrives(cfg, s, t, xs, states) && Inv(cfg, states[|xs|])
    decreases |xs|
  {
    hide Inv, ServerMove, Step;
    if xs == [] {
      states := [s];
    } else {
      var n := |xs|;
      assert ServerMove(cfg, t[n - 1], xs[n - 1], t[n]);
      var ss := ServerTraceIsRun(cfg, s, t[..n], xs[..n - 1]);
      var z' := ServerMoveIsStep(cfg, ss[n - 1], xs[n - 1], t[n]);
      StepInv(cfg, ss[n - 1], ServerLabel(xs[n - 1]), z');
      states := ss + [z'];
      forall i | 0 <= i < |xs| ensures Step(cfg, states[i], ServerLabel(xs[i]), states[i + 1]) {
        if i < n - 1 {
          assert xs[..n - 1][i] == xs[i];
          assert Step(cfg, ss[i], ServerLabel(xs[..n - 1][i]), ss[i + 1]);
        }
      }
    }
  }

  // The values that callbacks get.

  lemma FiredSame<W(!new)>(cfg: Config, s: System<W>, l: Label<W>, s': System<W>)
    requires Step(cfg, s, l, s') && !l.Dispatch?
    ensures s'.fired == s.fired
  {
    hide HopStep, ServeNext, Issue, Register, Unregister, ConnectStub;
  }

  lemma FiredOne<W(!new)>(cfg: Config, s: System<W>, reaction: seq<Request>, s': System<W>)
    requires Inv(cfg, s) && DispatchStep(cfg, s, reaction, s')
    ensures Matched(cfg, s.client).Some? && |s'.fired| == |s.fired| + 1 && s.fired <= s'.fired
    ensures s'.fired[|s.fired|].ret == Matched(cfg, s.client).value.1
  {
    hide Inv, Matched, AsyncSteps, IssueAll, Erase, DispatchNext;
    var (i, ret, mem) := Matched(cfg, s.client).value;
    MemoryInv(cfg, s, mem);
    AsyncStepsInv(cfg, s.(client := s.client.(mem := mem)), reaction);
  }

  lemma FiredBy<W(!new)>(cfg: Config, s: System<W>, x: ClientAction, s': System<W>)
    requires Inv(cfg, s) && Step(cfg, s, ClientLabel(x), s') && ClientMove(cfg, ClientSide(s), x, ClientSide(s'))
    ensures s.fired <= s'.fired
    ensures Gained(s, s') == if x.DispatchReply? then [x.ret] else []
  {
    match x {
      case DispatchReply(reaction, ret) =>
        hide Inv, DispatchStep, Matched, DispatchNext;
        FiredOne(cfg, s, reaction, s');
      case _ =>
        hide ClientMove, Inv, Step;
        FiredSame(cfg, s, ClientLabel(x), s');
    }
  }

  /** The turns before the dispatches give nothing, each dispatch gives its value. */
  function GivenAfter(rets: seq<Option<nat>>, before: nat, i: nat): seq<Option<nat>>
    requires i <= before + |rets|
  {
    if i <= before then [] else rets[..i - before]
  }

  lemma {:induction false} PlanGains<W(!new)>(cfg: Config, s: System<W>, t: seq<ClientSnap>, xs: seq<ClientAction>, states: seq<System<W>>,
                                              n: nat, rx: nat, reactions: seq<seq<Request>>, rets: seq<Option<nat>>, i: nat)
    requires Sound(cfg) && Inv(cfg, s) && ClientDrives(cfg, s, t, xs, states) && ClientTrace(cfg, t, xs)
    requires xs == ClientPlan(n, rx, reactions, rets) && i <= |xs|
    ensures Inv(cfg, states[i]) && s.fired <= states[i].fired && Gained(s, states[i]) == GivenAfter(rets, n + 1 + rx, i)
  {
    hide Inv, ClientMove, Step, Gained;
    if i == 0 {
      assert Gained(s, s) == [] by { NothingGained(s); }
    } else {
      PlanGains(cfg, s, t, xs, states, n, rx, reactions, rets, i - 1);
      assert Step(cfg, states[i - 1], ClientLabel(xs[i - 1]), states[i - 1 + 1]);
      assert ClientMove(cfg, t[i - 1], xs[i - 1], t[i - 1 + 1]);
      StepInv(cfg, states[i - 1], ClientLabel(xs[i - 1]), states[i]);
      FiredBy(cfg, states[i - 1], xs[i - 1], states[i]);
      GainedOn(s, states[i - 1], states[i]);
      GivenNext(n, rx, reactions, rets, i - 1);
    }
  }

  lemma NothingGained<W(!new)>(s: System<W>)
    ensures Gained(s, s) == []
  {
  }

  lemma GivenNext(n: nat, rx: nat, reactions: seq<seq<Request>>, rets: seq<Option<nat>>, i: nat)
    requires i < |ClientPlan(n, rx, reactions, rets)|
    ensures i < n + 1 + rx + |rets|
    ensures var x := ClientPlan(n, rx, reactions, rets)[i];
            GivenAfter(rets, n + 1 + rx, i + 1) == GivenAfter(rets, n + 1 + rx, i) + if x.DispatchReply? then [x.ret] else []
  {
    var b := n + 1 + rx;
    if i >= b {
      assert ClientPlan(n, rx, reactions, rets)[i] == Dispatches(reactions, rets)[i - b];
      assert rets[..i + 1 - b] == rets[..i - b] + [rets[i - b]];
    }
  }

  // Rounds of a client object and a server object on one link.

  ghost function Buffers(ep: Endpoint): set<array<byte>> {
    {ep.streamer.txBuffer, ep.streamer.rxBuffer}
  }

  ghost function Queues(ep: Endpoint): set<array<byte>> {
    {ep.streamer.com.sb.inQueue, ep.streamer.com.sb.outQueue}
  }

  /** Two ends of one link that share nothing else. */
  ghost predicate Joined<W(!new)>(c: RpcClient, v: RpcServer<W>) {
    && c.cfg == v.cfg && c.ep.streamer.com.sb == v.ep.streamer.com.sb
    && c.ep.streamer.com != v.ep.streamer.com
    && c.ep != v.ep && c.ep.serializer != v.ep.serializer && c.ep.deserializer != v.ep.deserializer
    && c.ep.streamer != v.ep.streamer && c.registry as object != v.registry
    && Buffers(c.ep) !! Buffers(v.ep)
    && Buffers(c.ep) !! Queues(c.ep) && Buffers(v.ep) !! Queues(v.ep)
  }

  /** The objects are in the state s of the protocol. */
  ghost predicate Represents<W(!new)>(c: RpcClient, v: RpcServer<W>, s: System<W>)
    reads c, c.ep, c.ep.serializer, c.ep.deserializer, c.ep.streamer, c.ep.streamer.com, c.ep.streamer.com.Footprint()
    reads c.ep.streamer.com.sb, c.ep.streamer.txBuffer, c.ep.streamer.rxBuffer, c.registry, c.stubs
    reads v, v.ep, v.ep.serializer, v.ep.deserializer, v.ep.streamer, v.ep.streamer.com, v.ep.streamer.com.Footprint()
    reads v.ep.streamer.com.sb, v.ep.streamer.txBuffer, v.ep.streamer.rxBuffer, v.registry, v.skels, v.heap
  {
    c.Valid() && v.Valid() && c.Snap() == ClientSide(s) && v.Snap() == ServerSide(s)
  }

  /** The steps stand for the event x in the state s, and lead to z. */
  ghost predicate After<W(!new)>(cfg: Config, x: Event<W>, s: System<W>, states: seq<System<W>>, labels: seq<Label<W>>, z: System<W>) {
    StandsFor(cfg, x, states, labels) && states[0] == s && states[|labels|] == z && Inv(cfg, z)
  }

  /** The loop of the client, which does not touch the server. */
  method DriveClient<W(!new)>(c: RpcClient, v: RpcServer<W>, txTurns: nat, rxTurns: nat, reactions: seq<seq<Request>>)
    returns (ok: bool, rets: seq<Option<nat>>, ghost t: seq<ClientSnap>, ghost xs: seq<ClientAction>, ghost n: nat)
    requires Joined(c, v) && c.Valid() && v.Valid()
    modifies c`mem, c`issued, c.ep.Footprint(), c.registry, c.stubs
    ensures ClientRoundTrace(c.cfg, txTurns, rxTurns, reactions, t, xs, n, rets, ok)
    ensures |t| > 0 && t[0] == old(c.Snap()) && (ok ==> c.Valid() && t[|t| - 1] == c.Snap())
    ensures v.Local() && v.View() == old(v.View()) && v.ep.streamer.com.open
    ensures c.stubs == old(c.stubs) && v.skels == old(v.skels)
  {
    hide Endpoint.Local, Endpoint.Tx, Endpoint.Rx, RpcServer.SkelsValid, RpcServer.Skels, RpcClient.StubsValid, RpcClient.Stubs;
    hide ClientRoundTrace;
    ok, rets, t, xs, n := c.DoLoop(txTurns, rxTurns, reactions);
  }

  /** The loop of the server, which does not touch the client. */
  method DriveServer<W(!new)>(c: RpcClient, v: RpcServer<W>, rxTurns: nat, txTurns: nat)
    returns (ok: bool, ghost t: seq<ServerSnap<W>>, ghost xs: seq<ServerAction>, ghost d: nat, ghost n: nat)
    requires Joined(c, v) && c.Valid() && v.Valid()
    modifies v`world, v.ep.Footprint(), v.registry, v.skels, v.heap
    ensures ServerRoundTrace(v.cfg, rxTurns, txTurns, t, xs, d, n, ok)
    ensures |t| > 0 && t[0] == old(v.Snap()) && (ok ==> v.Valid() && t[|t| - 1] == v.Snap())
    ensures c.Local() && c.View() == old(c.View()) && c.ep.streamer.com.open
    ensures c.stubs == old(c.stubs) && v.skels == old(v.skels)
  {
    hide Endpoint.Local, Endpoint.Tx, Endpoint.Rx, RpcServer.SkelsValid, RpcServer.Skels, RpcClient.StubsValid, RpcClient.Stubs;
    hide ServerRoundTrace;
    ok, t, xs, d, n := v.DoLoop(rxTurns, txTurns);
  }

  lemma ClientDrivesSteps<W(!new)>(cfg: Config, s: System<W>, t: seq<ClientSnap>, xs: seq<ClientAction>, states: seq<System<W>>)
    requires ClientDrives(cfg, s, t, xs, states)
    ensures Steps(cfg, states, ClientLabels(xs))
  {
    hide Step;
  }

  lemma ServerDrivesSteps<W(!new)>(cfg: Config, s: System<W>, t: seq<ServerSnap<W>>, xs: seq<ServerAction>, states: seq<System<W>>)
    requires ServerDrives(cfg, s, t, xs, states)
    ensures Steps(cfg, states, ServerLabels(xs))
  {
    hide Step;
  }

  /** A round of the client is a run of the system by the turns of its plan, gives its callbacks
      the values of the run, and never leads to undefined behaviour. */
  lemma ClientRoundIsRun<W(!new)>(cfg: Config, s: System<W>, tx: nat, rx: nat, reactions: seq<seq<Request>>,
                                  t: seq<ClientSnap>, xs: seq<ClientAction>, n: nat, rets: seq<Option<nat>>, ok: bool)
    returns (states: seq<System<W>>, z: System<W>)
    requires Sound(cfg) && Inv(cfg, s)
    requires ClientRoundTrace(cfg, tx, rx, reactions, t, xs, n, rets, ok) && t[0] == ClientSide(s)
    ensures ok && After(cfg, ClientLoop(tx, rx, reactions), s, states, ClientLabels(xs), z)
    ensures ClientSide(z) == t[|t| - 1] && z.server == s.server && Gained(s, z) == rets
  {
    hide Inv, ClientMove, Step, Sound, Matched;
    states := ClientTraceIsRun(cfg, s, t, xs);
    z := states[|xs|];
    if z.client.rx.inbox != [] {
      NeverUnmatched(cfg, z);
    }
    PlanGains(cfg, s, t, xs, states, n, rx, reactions, rets, |xs|);
    assert rets[..|rets|] == rets;
    assert Gained(s, z) == rets;
    ClientDrivesSteps(cfg, s, t, xs, states);
    assert |ClientLabels<W>(xs)| == |xs|;
    hide Gained, ClientPlan, Steps, ClientTrace, ClientLabels;
    assert ClientSide(states[0]) == t[0] && (n < tx ==> ClientSide(states[n + 1]) == t[n + 1]);
    assert ClientTurns(tx, rx, reactions, states, ClientLabels(xs), n);
  }

  /** A round of the client leads from a state of the protocol to another, whatever its
      timeouts and callbacks do; it never runs into undefined behaviour. */
  method ClientRound<W(!new)>(c: RpcClient, v: RpcServer<W>, txTurns: nat, rxTurns: nat, reactions: seq<seq<Request>>, ghost s: System<W>)
    returns (rets: seq<Option<nat>>, ghost states: seq<System<W>>, ghost labels: seq<Label<W>>, ghost z: System<W>)
    requires Joined(c, v) && Represents(c, v, s) && Sound(c.cfg) && Inv(c.cfg, s)
    modifies c`mem, c`issued, c.ep.Footprint(), c.registry, c.stubs
    ensures Represents(c, v, z) && After(c.cfg, ClientLoop(txTurns, rxTurns, reactions), s, states, labels, z) && rets == Gained(s, z)
    ensures c.stubs == old(c.stubs) && v.skels == old(v.skels)
  {
    hide Inv, Sound, ClientRoundTrace, After, Gained, ClientLabels;
    hide Endpoint.Local, Endpoint.Tx, Endpoint.Rx, RpcServer.SkelsValid, RpcServer.Skels, RpcClient.StubsValid, RpcClient.Stubs;
    var ok;
    ghost var t, xs, n;
    ok, rets, t, xs, n := DriveClient(c, v, txTurns, rxTurns, reactions);
    states, z := ClientRoundIsRun(c.cfg, s, txTurns, rxTurns, reactions, t, xs, n, rets, ok);
    labels := ClientLabels(xs);
  }

  lemma NeverUnmatched<W(!new)>(cfg: Config, s: System<W>)
    requires Sound(cfg) && Inv(cfg, s) && s.client.rx.inbox != []
    ensures Matched(cfg, s.client).Some?
  {
    MatchedReply(cfg, s);
  }

  lemma ServerRoundIsRun<W(!new)>(cfg: Config, s: System<W>, rx: nat, tx: nat,
                                  t: seq<ServerSnap<W>>, xs: seq<ServerAction>, d: nat, n: nat, ok: bool)
    returns (states: seq<System<W>>, z: System<W>)
    requires Sound(cfg) && Inv(cfg, s)
    requires ServerRoundTrace(cfg, rx, tx, t, xs, d, n, ok) && t[0] == ServerSide(s)
    ensures ok && After(cfg, ServerLoop(rx, tx), s, states, ServerLabels(xs), z)
    ensures ServerSide(z) == t[|t| - 1] && z.client == s.client && Gained(s, z) == []
  {
    hide Inv, ServerMove, Step, Sound, ServeNext, Gained;
    states := ServerTraceIsRun(cfg, s, t, xs);
    z := states[|xs|];
    if z.server.rx.inbox != [] {
      ServeDefined(cfg, z);
    }
    ServerDrivesSteps(cfg, s, t, xs, states);
    ServerFires(cfg, s, t, xs, states, |xs|);
    NothingGained(s);
    GainedSame(s, z);
    assert |ServerLabels<W>(xs)| == |xs| == rx + d + n + 1;
    hide ServerPlan, Steps, ServerTrace, ServerLabels;
    assert ServerSide(states[rx + d]) == t[rx + d] && ServerSide(states[|xs|]) == t[|xs|];
    assert ServerTurns(rx, tx, states, ServerLabels(xs), d, n);
  }

  lemma GainedSame<W(!new)>(s: System<W>, z: System<W>)
    requires z.fired == s.fired
    ensures Gained(s, z) == []
  {
  }

  lemma {:induction false} ServerFires<W(!new)>(cfg: Config, s: System<W>, t: seq<ServerSnap<W>>, xs: seq<ServerAction>,
                                                states: seq<System<W>>, i: nat)
    requires ServerDrives(cfg, s, t, xs, states) && i < |states|
    ensures states[i].fired == s.fired
  {
    hide Step;
    if i > 0 {
      ServerFires(cfg, s, t, xs, states, i - 1);
      assert Step(cfg, states[i - 1], ServerLabel(xs[i - 1]), states[i - 1 + 1]);
      FiredSame(cfg, states[i - 1], ServerLabel(xs[i - 1]), states[i]);
    }
  }

  /** A round of the server, likewise. */
  method ServerRound<W(!new)>(c: RpcClient, v: RpcServer<W>, rxTurns: nat, txTurns: nat, ghost s: System<W>)
    returns (ghost states: seq<System<W>>, ghost labels: seq<Label<W>>, ghost z: System<W>)
    requires Joined(c, v) && Represents(c, v, s) && Sound(c.cfg) && Inv(c.cfg, s)
    modifies v`world, v.ep.Footprint(), v.registry, v.skels, v.heap
    ensures Represents(c, v, z) && After(c.cfg, ServerLoop(rxTurns, txTurns), s, states, labels, z) && Gained(s, z) == []
    ensures c.stubs == old(c.stubs) && v.skels == old(v.skels)
  {
    hide Inv, Sound, ServerRoundTrace, After, Gained, ServerLabels;
    hide Endpoint.Local, Endpoint.Tx, Endpoint.Rx, RpcServer.SkelsValid, RpcServer.Skels, RpcClient.StubsValid, RpcClient.Stubs;
    var ok;
    ghost var t, xs, d, n;
    ok, t, xs, d, n := DriveServer(c, v, rxTurns, txTurns);
    states, z := ServerRoundIsRun(c.cfg, s, rxTurns, txTurns, t, xs, d, n, ok);
    labels := ServerLabels(xs);
  }

  /** A call issued by the application. */
  method CallRound<W(!new)>(c: RpcClient, v: RpcServer<W>, r: Request, ghost s: System<W>)
    returns (ghost z: System<W>)
    requires Joined(c, v) && Represents(c, v, s) && Sound(c.cfg) && Inv(c.cfg, s)
    modifies c`issued, c.ep, c.stubs
    ensures Represents(c, v, z) && Inv(c.cfg, z) && Step(c.cfg, s, Async(r), z)
  {
    hide Inv, Issue;
    hide Endpoint.Local, Endpoint.Tx, Endpoint.Rx, RpcServer.SkelsValid, RpcServer.Skels, RpcClient.StubsValid, RpcClient.Stubs;
    c.IssueRequest(r);
    z := AsyncStep(c.cfg, s, r);
    AsyncInv(c.cfg, s, r);
    AsyncClient(c.cfg, s, r);
    AsyncExtends(c.cfg, s, r);
  }

  method AddStub<W(!new)>(c: RpcClient, v: RpcServer<W>, p: Prototype)
    requires Joined(c, v) && c.Valid() && v.Valid() && Connectable(p)
    modifies c.registry, c`stubs
    ensures c.Valid() && c.Snap() == old(c.Snap()).(peer := ConnectStub(old(c.Snap()).peer, p)) && fresh(c.stubs - old(c.stubs))
    ensures v.Valid() && v.Snap() == old(v.Snap())
  {
    hide Connectable, ConnectStub, KeyOf;
    hide Endpoint.Local, Endpoint.Tx, Endpoint.Rx, RpcServer.SkelsValid, RpcServer.Skels, RpcClient.StubsValid, RpcClient.Stubs;
    var stub := c.Connect(p.name, p);
  }

  /** The application connects to a procedure. */
  method ConnectRound<W(!new)>(c: RpcClient, v: RpcServer<W>, p: Prototype, ghost s: System<W>)
    returns (ghost z: System<W>)
    requires Joined(c, v) && Represents(c, v, s) && Inv(c.cfg, s) && Connectable(p)
    modifies c.registry, c`stubs
    ensures Represents(c, v, z) && Inv(c.cfg, z) && Step(c.cfg, s, Connect(p), z) && fresh(c.stubs - old(c.stubs))
  {
    z := s.(client := ConnectStub(s.client, p));
    hide Inv, Connectable, ConnectStub, KeyOf, RpcClient.Valid, RpcServer.Valid, RpcClient.Snap, RpcServer.Snap;
    AddStub(c, v, p);
    ConnectInv(c.cfg, s, p);
  }

  /** The stub of a procedure is removed, unless calls of it are outstanding. */
  method RemoveStub<W(!new)>(c: RpcClient, v: RpcServer<W>, key: Key) returns (done: bool)
    requires Joined(c, v) && c.Valid() && v.Valid()
    modifies c.registry, c.stubs
    ensures c.Valid() && v.Valid() && v.Snap() == old(v.Snap())
    ensures done <==> key in old(c.Snap()).peer.stubs && old(c.Snap()).peer.stubs[key].pending == []
    ensures c.Snap() == if done then old(c.Snap()).(peer := old(c.Snap()).peer.(stubs := old(c.Snap()).peer.stubs - {key}))
                        else old(c.Snap())
  {
    hide Endpoint.Local, Endpoint.Tx, Endpoint.Rx, RpcServer.SkelsValid, RpcServer.Skels, RpcClient.StubsValid, RpcClient.Stubs;
    done := c.DisconnectIdle(key);
  }

  method DisconnectRound<W(!new)>(c: RpcClient, v: RpcServer<W>, key: Key, ghost s: System<W>) returns (done: bool, ghost z: System<W>)
    requires Joined(c, v) && Represents(c, v, s) && Inv(c.cfg, s)
    modifies c.registry, c.stubs
    ensures Represents(c, v, z) && Inv(c.cfg, z)
    ensures done <==> key in s.client.stubs && s.client.stubs[key].pending == []
    ensures if done then Step(c.cfg, s, Disconnect(key), z) else z == s
  {
    hide Inv, RpcClient.Valid, RpcServer.Valid, RpcClient.Snap, RpcServer.Snap;
    done := RemoveStub(c, v, key);
    z := s;
    if done {
      z := s.(client := s.client.(stubs := s.client.stubs - {key}));
      DisconnectInv(c.cfg, s, key);
    }
  }

  /** The application assigns to one of its variables. */
  method AssignRound<W(!new)>(c: RpcClient, v: RpcServer<W>, addr: Addr, value: Value, ghost s: System<W>)
    returns (ghost z: System<W>)
    requires Joined(c, v) && Represents(c, v, s) && Inv(c.cfg, s)
    modifies c`mem
    ensures Represents(c, v, z) && Inv(c.cfg, z) && Step(c.cfg, s, Assign(addr, value), z)
  {
    hide Inv;
    hide Endpoint.Local, Endpoint.Tx, Endpoint.Rx, RpcServer.SkelsValid, RpcServer.Skels, RpcClient.StubsValid, RpcClient.Stubs;
    c.mem := c.mem[addr := value];
    z := s.(client := s.client.(mem := s.client.mem[addr := value]));
    MemoryInv(c.cfg, s, z.client.mem);
  }

  method AddSkeleton<W(!new)>(c: RpcClient, v: RpcServer<W>, p: Prototype, f: Impl<W>)
    requires Joined(c, v) && c.Valid() && v.Valid() && Connectable(p) && Typed(p, f)
    modifies v.registry, v`skels
    ensures v.Valid() && v.Snap() == old(v.Snap()).(peer := Register(old(v.Snap()).peer, p, f)) && fresh(v.skels - old(v.skels))
    ensures c.Valid() && c.Snap() == old(c.Snap())
  {
    hide Connectable, Register, Typed, KeyOf;
    hide Endpoint.Local, Endpoint.Tx, Endpoint.Rx, RpcServer.SkelsValid, RpcServer.Skels, RpcClient.StubsValid, RpcClient.Stubs;
    var k := v.Connect(p, f);
  }

  lemma ProvideStep<W(!new)>(cfg: Config, s: System<W>, p: Prototype, f: Impl<W>, z: System<W>)
    requires Connectable(p) && Typed(p, f) && z == s.(server := Register(s.server, p, f))
    ensures Step(cfg, s, Provide(p, f), z)
  {
    hide Register, Typed, Connectable, TurnStep, DispatchStep, ServeStep, AsyncStep, ConnectStub, Unregister;
  }

  /** The server registers a function. */
  method ProvideRound<W(!new)>(c: RpcClient, v: RpcServer<W>, p: Prototype, f: Impl<W>, ghost s: System<W>)
    returns (ghost z: System<W>)
    requires Joined(c, v) && Represents(c, v, s) && Inv(c.cfg, s) && Connectable(p) && Typed(p, f)
    modifies v.registry, v`skels
    ensures Represents(c, v, z) && Inv(c.cfg, z) && Step(c.cfg, s, Provide(p, f), z) && fresh(v.skels - old(v.skels))
  {
    z := s.(server := Register(s.server, p, f));
    ProvideInv(c.cfg, s, p, f);
    ProvideStep(c.cfg, s, p, f, z);
    hide Step, Inv, Connectable, Register, Typed, KeyOf, RpcClient.Valid, RpcServer.Valid, RpcClient.Snap, RpcServer.Snap;
    AddSkeleton(c, v, p, f);
  }

  method RemoveSkeleton<W(!new)>(c: RpcClient, v: RpcServer<W>, key: Key)
    requires Joined(c, v) && c.Valid() && v.Valid()
    modifies v.registry
    ensures c.Valid() && v.Valid() && c.Snap() == old(c.Snap())
    ensures v.Snap() == old(v.Snap()).(peer := Unregister(old(v.Snap()).peer, key))
  {
    hide Endpoint.Local, Endpoint.Tx, Endpoint.Rx, RpcClient.StubsValid, RpcClient.Stubs, Unregister, RpcServer.SkelsValid, RpcServer.Skels;
    NotRegistered(v, key);
    var q := v.registry.Find(key);
    if q.Some? {
      v.Disconnect(q.value);
    }
  }

  lemma NotRegistered<W(!new)>(v: RpcServer<W>, key: Key)
    requires v.Valid()
    ensures v.registry.Valid()
    ensures var q := Lookup(v.registry.functionsMap, key);
            if q.Some? then q.value.id == key else Unregister(v.View(), key) == v.View()
  {
    hide Endpoint.Local, Endpoint.Tx, Endpoint.Rx, Bijective, KeyOf;
  }

  /** The server takes a function back. */
  method WithdrawRound<W(!new)>(c: RpcClient, v: RpcServer<W>, key: Key, ghost s: System<W>) returns (ghost z: System<W>)
    requires Joined(c, v) && Represents(c, v, s) && Inv(c.cfg, s)
    modifies v.registry
    ensures Represents(c, v, z) && Inv(c.cfg, z) && Step(c.cfg, s, Withdraw(key), z)
  {
    hide Inv, Unregister, RpcClient.Valid, RpcServer.Valid, RpcClient.Snap, RpcServer.Snap;
    RemoveSkeleton(c, v, key);
    z := s.(server := Unregister(s.server, key));
    WithdrawInv(c.cfg, s, key);
  }

  // Schedules.

  lemma OneStep<W(!new)>(cfg: Config, x: Event<W>, s: System<W>, l: Label<W>, z: System<W>)
    requires Step(cfg, s, l, z) && Inv(cfg, z) && !l.Dispatch?
    requires (x.Application? && DeedLabels(s, x.deed) == [l]) || (x.Device? && ChoreLabel(x.chore) == l)
    ensures After(cfg, x, s, [s, z], [l], z) && Gained(s, z) == []
  {
    hide Inv, Step, DeedLabels, ChoreLabel, Gained;
    FiredSame(cfg, s, l, z);
    GainedSame(s, z);
  }

  lemma NoStep<W(!new)>(cfg: Config, x: Event<W>, s: System<W>)
    requires Inv(cfg, s) && x.Application? && DeedLabels(s, x.deed) == []
    ensures After(cfg, x, s, [s], [], s) && Gained(s, s) == []
  {
    hide Inv, Step, DeedLabels;
  }

  /** What the application does. */
  method RunDeed<W(!new)>(c: RpcClient, v: RpcServer<W>, x: Deed, ghost s: System<W>)
    returns (ghost states: seq<System<W>>, ghost labels: seq<Label<W>>, ghost z: System<W>)
    requires Joined(c, v) && Represents(c, v, s) && Sound(c.cfg) && Inv(c.cfg, s)
    requires x.Connects? ==> Connectable(x.proto)
    modifies c`mem, c`issued, c`stubs, c.ep.Footprint(), c.registry, c.stubs
    ensures Represents(c, v, z) && After(c.cfg, Application(x), s, states, labels, z) && Gained(s, z) == []
    ensures fresh(c.stubs - old(c.stubs)) && v.skels == old(v.skels)
  {
    hide Joined, Represents, Inv, Connectable, Sound, Step, After, Gained;
    labels := DeedLabels(s, x);
    match x {
      case Calls(r) => z := CallRound(c, v, r, s);
      case Connects(p) => z := ConnectRound(c, v, p, s);
      case Disconnects(key) =>
        var done;
        done, z := DisconnectRound(c, v, key, s);
      case Assigns(addr, value) => z := AssignRound(c, v, addr, value, s);
    }
    if labels == [] {
      states := [s];
      NoStep(c.cfg, Application(x), s);
    } else {
      states := [s, z];
      OneStep(c.cfg, Application(x), s, labels[0], z);
    }
  }

  /** What is done to the functions of the server. */
  method RunChore<W(!new)>(c: RpcClient, v: RpcServer<W>, x: Chore<W>, ghost s: System<W>)
    returns (ghost states: seq<System<W>>, ghost labels: seq<Label<W>>, ghost z: System<W>)
    requires Joined(c, v) && Represents(c, v, s) && Sound(c.cfg) && Inv(c.cfg, s)
    requires x.Provides? ==> Connectable(x.proto) && Typed(x.proto, x.f)
    modifies v`skels, v.registry
    ensures Represents(c, v, z) && After(c.cfg, Device(x), s, states, labels, z) && Gained(s, z) == []
    ensures fresh(v.skels - old(v.skels)) && c.stubs == old(c.stubs)
  {
    hide Joined, Represents, Inv, Connectable, Typed, Sound, Step, After, Gained;
    labels := [ChoreLabel(x)];
    match x {
      case Provides(p, f) => z := ProvideRound(c, v, p, f, s);
      case Withdraws(key) => z := WithdrawRound(c, v, key, s);
    }
    states := [s, z];
    OneStep(c.cfg, Device(x), s, labels[0], z);
  }

  /** One event, executed by the objects. */
  method RunEvent<W(!new)>(c: RpcClient, v: RpcServer<W>, x: Event<W>, ghost s: System<W>)
    returns (rets: seq<Option<nat>>, ghost states: seq<System<W>>, ghost labels: seq<Label<W>>, ghost z: System<W>)
    requires Joined(c, v) && Represents(c, v, s) && Sound(c.cfg) && Inv(c.cfg, s) && GoodEvent(x)
    modifies c`mem, c`issued, c`stubs, c.ep.Footprint(), c.registry, c.stubs
    modifies v`world, v`skels, v.ep.Footprint(), v.registry, v.skels, v.heap
    ensures Represents(c, v, z) && After(c.cfg, x, s, states, labels, z) && rets == Gained(s, z)
    ensures fresh(c.stubs - old(c.stubs)) && fresh(v.skels - old(v.skels))
  {
    hide Joined, Represents, Inv, Typed, Connectable, Sound, Endpoint.Footprint, After, Gained;
    rets := [];
    match x {
      case ClientLoop(txTurns, rxTurns, reactions) => rets, states, labels, z := ClientRound(c, v, txTurns, rxTurns, reactions, s);
      case ServerLoop(rxTurns, txTurns) => states, labels, z := ServerRound(c, v, rxTurns, txTurns, s);
      case Application(deed) => states, labels, z := RunDeed(c, v, deed, s);
      case Device(chore) => states, labels, z := RunChore(c, v, chore, s);
    }
  }

  /** The run so far is an execution of the events, from s to z, and the values are those that
      callbacks got in it. */
  ghost predicate Executed<W(!new)>(cfg: Config, events: seq<Event<W>>, s: System<W>, trace: seq<System<W>>, labels: seq<Label<W>>, cuts: seq<nat>,
                                    z: System<W>, rets: seq<Option<nat>>)
  {
    && Executes(cfg, events, trace, labels, cuts) && trace[0] == s && trace[|labels|] == z
    && Inv(cfg, z) && s.fired <= z.fired && rets == Gained(s, z)
  }

  lemma ExecutedNothing<W(!new)>(cfg: Config, s: System<W>)
    requires Inv(cfg, s)
    ensures Executed(cfg, [], s, [s], [], [0], s, [])
  {
    hide Inv;
    ExecutesNothing(cfg, s);
  }

  lemma ExecutedOn<W(!new)>(cfg: Config, events: seq<Event<W>>, s: System<W>, trace: seq<System<W>>, labels: seq<Label<W>>, cuts: seq<nat>,
                            m: System<W>, rets: seq<Option<nat>>,
                            x: Event<W>, part: seq<System<W>>, ls: seq<Label<W>>, z: System<W>, cut: nat)
    requires Executed(cfg, events, s, trace, labels, cuts, m, rets) && After(cfg, x, m, part, ls, z) && cut == |labels| + |ls|
    ensures Executed(cfg, events + [x], s, trace + NextStates(part), labels + ls, cuts + [cut], z, rets + Gained(m, z))
  {
    hide Executes, StandsFor, Inv, Gained;
    StandsSteps(cfg, x, part, ls);
    ExecutesSize(cfg, events, trace, labels, cuts);
    ExecutesOn(cfg, events, trace, labels, cuts, x, part, ls);
    GainedOn(s, m, z);
  }

  /** Any schedule of connections, calls and rounds of the two loops, executed by the objects, is
      a run of the protocol: event by event its steps are those that the event stands for, and
      callbacks get the values of the run. */
  method RunSchedule<W(!new)>(c: RpcClient, v: RpcServer<W>, events: seq<Event<W>>, ghost s: System<W>)
    returns (rets: seq<Option<nat>>, ghost trace: seq<System<W>>, ghost labels: seq<Label<W>>, ghost cuts: seq<nat>, ghost z: System<W>)
    requires Joined(c, v) && Represents(c, v, s) && Sound(c.cfg) && Inv(c.cfg, s)
    requires forall i :: 0 <= i < |events| ==> GoodEvent(events[i])
    modifies c`mem, c`issued, c`stubs, c.ep.Footprint(), c.registry, c.stubs
    modifies v`world, v`skels, v.ep.Footprint(), v.registry, v.skels, v.heap
    ensures Represents(c, v, z) && Executed(c.cfg, events, s, trace, labels, cuts, z, rets)
  {
    hide Joined, Represents, Inv, Sound, GoodEvent, Endpoint.Footprint, Executed, After, Gained;
    rets, trace, labels, cuts, z := [], [s], [], [0], s;
    ExecutedNothing(c.cfg, s);
    var i := 0;
    assert events[..0] == [];
    while i < |events|
      invariant 0 <= i <= |events|
      invariant Represents(c, v, z) && Executed(c.cfg, events[..i], s, trace, labels, cuts, z, rets)
      invariant forall x :: x in c.stubs ==> x in old(c.stubs) || fresh(x)
      invariant forall x :: x in v.skels ==> x in old(v.skels) || fresh(x)
    {
      ghost var stubs, skels, m := c.stubs, v.skels, z;
      label Before:
      ghost var part, ls;
      var more;
      ExecutedInv(c.cfg, events[..i], s, trace, labels, cuts, m, rets);
      more, part, ls, z := RunEvent(c, v, events[i], m);
      ExecutedOn(c.cfg, events[..i], s, trace, labels, cuts, m, rets, events[i], part, ls, z, |labels| + |ls|);
      assert events[..i] + [events[i]] == events[..i + 1];
      cuts := cuts + [|labels| + |ls|];
      trace, labels := trace + NextStates(part), labels + ls;
      rets := rets + more;
      forall x | x in c.stubs ensures x in old(c.stubs) || fresh(x) {
        if x !in stubs {
          assert x in c.stubs - stubs;
          assert fresh@Before(x);
        }
      }
      forall x | x in v.skels ensures x in old(v.skels) || fresh(x) {
        if x !in skels {
          assert x in v.skels - skels;
          assert fresh@Before(x);
        }
      }
      i := i + 1;
    }
    assert events[..i] == events;
  }

  lemma ExecutedInv<W(!new)>(cfg: Config, events: seq<Event<W>>, s: System<W>, trace: seq<System<W>>, labels: seq<Label<W>>, cuts: seq<nat>,
                             z: System<W>, rets: seq<Option<nat>>)
    requires Executed(cfg, events, s, trace, labels, cuts, z, rets)
    ensures Inv(cfg, z)
  {
  }

  /** Rounds in which each timed loop has time for a turn, executed by the objects: as many as
      there is work left, counting the work of the calls that callbacks issue meanwhile, answer
      every call, except those whose own request was dropped. */
  method RunRounds<W(!new)>(c: RpcClient, v: RpcServer<W>, events: seq<Event<W>>, n: nat, ghost s: System<W>)
    returns (rets: seq<Option<nat>>, ghost trace: seq<System<W>>, ghost labels: seq<Label<W>>, ghost cuts: seq<nat>, ghost z: System<W>)
    requires Joined(c, v) && Represents(c, v, s) && Sound(c.cfg) && Inv(c.cfg, s) && RoundsFrom(events, 0, n)
    modifies c`mem, c`issued, c`stubs, c.ep.Footprint(), c.registry, c.stubs
    modifies v`world, v`skels, v.ep.Footprint(), v.registry, v.skels, v.heap
    ensures Represents(c, v, z) && Executed(c.cfg, events, s, trace, labels, cuts, z, rets) && s.calls <= z.calls
    ensures n > 0 && n >= Remaining(c.cfg, s) + Work(c.cfg, z.calls[|s.calls|..]) ==> AllAnswered(s, z)
  {
    hide Joined, Represents, Inv, Sound, Endpoint.Footprint, Gained, Remaining, Work, AllAnswered, Executes, RoundsFrom;
    RoundsAreGood(events, n);
    rets, trace, labels, cuts, z := RunSchedule(c, v, events, s);
    ExecutesSize(c.cfg, events, trace, labels, cuts);
    RoundsAnswer(c.cfg, events, trace, labels, cuts, 0, n);
  }

  lemma RoundsAreGood<W(!new)>(events: seq<Event<W>>, n: nat)
    requires RoundsFrom(events, 0, n)
    ensures forall i :: 0 <= i < |events| ==> GoodEvent(events[i])
  {
    forall i | 0 <= i < |events| ensures GoodEvent(events[i]) {
      assert RoundAt(events, 0, i / 2);
    }
  }

  method OpenLink() returns (a: DataLink.Com, b: DataLink.Com)
    ensures a.Valid() && b.Valid() && a.open && b.open && a != b && a.sb == b.sb
    ensures a.side.ClientSide? && b.side.ServerSide? && a.sb.In() == [] && a.sb.Out() == []
    ensures fresh(a) && fresh(b) && fresh(a.sb) && fresh(a.sb.inQueue) && fresh(a.sb.outQueue)
  {
    var sb := new DataLink.SharedBuffer();
    a := new DataLink.Com(sb, DataLink.ClientSide);
    b := new DataLink.Com(sb, DataLink.ServerSide);
    var r := a.Open();
    r := b.Open();
  }

  lemma StartOf<W(!new)>(cfg: Config, mem: Store, world: W) returns (s: System<W>)
    requires Sound(cfg)
    ensures Start(cfg, s) && Inv(cfg, s) && s.client.mem == mem && s.origin == world && s.up == s.down == []
    ensures s.client == Client(map[], mem, Sender(cfg.cln.order, [], 0, []), Receiver(cfg.cln.order, [], [], []), 0)
    ensures s.server == Server(map[], world, Sender(cfg.srv.order, [], 0, []), Receiver(cfg.srv.order, [], [], []))
  {
    hide Inv;
    s := System(Client(map[], mem, Sender(cfg.cln.order, [], 0, []), Receiver(cfg.cln.order, [], [], []), 0),
                Server(map[], world, Sender(cfg.srv.order, [], 0, []), Receiver(cfg.srv.order, [], [], [])),
                [], [], [], 0, [], [], [], world);
    StartInv(cfg, s);
  }

  /** A link, its two ends opened, a client and a server: the start of the protocol. */
  method Open<W(!new)>(cfg: Config, mem: Store, world: W) returns (c: RpcClient, v: RpcServer<W>, ghost s: System<W>)
    requires Sound(cfg)
    ensures Joined(c, v) && Represents(c, v, s) && Start(cfg, s) && Inv(cfg, s) && c.cfg == cfg
    ensures s.client.mem == mem && s.origin == world
    ensures fresh(c) && fresh(c.ep.Footprint()) && fresh(c.registry) && c.stubs == {}
    ensures fresh(v) && fresh(v.ep.Footprint()) && fresh(v.registry) && fresh(v.heap) && v.skels == {}
  {
    hide Inv, Start, Sound, Endpoint.Local, Endpoint.Tx, Endpoint.Rx;
    hide RpcServer.SkelsValid, RpcServer.Skels, RpcClient.StubsValid, RpcClient.Stubs;
    var a, b := OpenLink();
    c := new RpcClient(cfg, a, mem);
    ghost var view := c.View();
    v := new RpcServer(cfg, b, world);
    assert c.View() == view;
    s := StartOf(cfg, mem, world);
  }

  /** From the construction of the objects on, whatever is scheduled, the objects are in the last
      state of a run of the protocol whose steps are, event by event, those of the schedule; and
      the values that their callbacks got are those of the replies dispatched in this run. */
  method Execute<W(!new)>(cfg: Config, mem: Store, world: W, events: seq<Event<W>>)
    returns (c: RpcClient, v: RpcServer<W>, rets: seq<Option<nat>>, ghost trace: seq<System<W>>, ghost labels: seq<Label<W>>, ghost cuts: seq<nat>)
    requires Sound(cfg) && forall i :: 0 <= i < |events| ==> GoodEvent(events[i])
    ensures Run(cfg, trace, labels) && Executes(cfg, events, trace, labels, cuts)
    ensures Joined(c, v) && c.cfg == cfg && Represents(c, v, trace[|labels|]) && Inv(cfg, trace[|labels|])
    ensures trace[0].client.mem == mem && trace[0].origin == world && rets == Values(trace[|labels|].fired)
    ensures CallbacksAreLocal(trace[|labels|], rets)
  {
    hide Joined, Represents, Inv, Sound, GoodEvent, Executes, Executed, Run, Values, CallbacksAreLocal, Start;
    ghost var s, z;
    c, v, s := Open(cfg, mem, world);
    rets, trace, labels, cuts, z := RunSchedule(c, v, events, s);
    ExecutionIsRun(cfg, events, s, trace, labels, cuts, z, rets);
    LocalValues(cfg, trace, labels, rets);
  }

  /** The j-th value that a callback got is what the j-th served call returns when the served calls
      are executed in order; with short strings and blobs, what it returns when they are executed
      locally. */
  ghost predicate CallbacksAreLocal<W(!new)>(s: System<W>, rets: seq<Option<nat>>) {
    && |rets| <= |s.served|
    && forall j :: 0 <= j < |rets| ==>
         && rets[j] == RemoteReturn(s.origin, s.served, j)
         && (ShortCalls(s.served[..j + 1]) ==> rets[j] == LocalReturn(s.origin, s.served, j))
  }

  lemma LocalValues<W(!new)>(cfg: Config, trace: seq<System<W>>, labels: seq<Label<W>>, rets: seq<Option<nat>>)
    requires Sound(cfg) && Run(cfg, trace, labels) && |trace| == |labels| + 1 && rets == Values(trace[|labels|].fired)
    ensures CallbacksAreLocal(trace[|labels|], rets)
  {
    hide Run, Sound, RemoteReturn, LocalReturn, ShortCalls, RemoteWorld, LocalWorld;
    ReturnsAreLocal(cfg, trace, labels, |labels|);
    var s := trace[|labels|];
    forall j | 0 <= j < |rets| ensures rets[j] == s.fired[j].ret {
    }
  }

  lemma ExecutionIsRun<W(!new)>(cfg: Config, events: seq<Event<W>>, s: System<W>, trace: seq<System<W>>, labels: seq<Label<W>>, cuts: seq<nat>,
                                z: System<W>, rets: seq<Option<nat>>)
    requires Executed(cfg, events, s, trace, labels, cuts, z, rets) && Start(cfg, s)
    ensures Run(cfg, trace, labels) && Executes(cfg, events, trace, labels, cuts) && |trace| == |labels| + 1
    ensures trace[0] == s && trace[|labels|] == z && Inv(cfg, z)
    ensures rets == Values(z.fired)
  {
    hide Inv, Step, Part;
    assert z.fired[0..] == z.fired;
  }
}
