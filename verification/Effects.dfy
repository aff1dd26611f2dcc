/** What the steps and events of a run do, in terms of the caller's variables, the requests that
    were made, and the functions that were registered. */
module Effects {
  import opened Bytes
  import opened Frame
  import opened ParamTypes
  import opened PrototypeModule
  import opened Marshaller
  import opened ChannelModule
  import opened Peers
  import opened Protocol
  import opened Invariant
  import opened Runs
  import opened Schedule

  // The calls that are issued.

  /** The call is the request, made when the variables were `mem`: its values are those passed. */
  ghost predicate IsRequest(c: Call, r: Request, mem: Store) {
    c.key == r.key && c.actuals == r.actuals && Passes(mem, r.actuals, c.vals)
  }

  /** Can be issued while the queue has room. */
  predicate Ready(c: Client, r: Request) {
    r.key in c.stubs && WellCalled(c.stubs[r.key].proto.params, r.actuals, c.mem)
  }

  /** The calls `more`, with their messages, were added, and nothing else of this happened. */
  ghost predicate Added<W(!new)>(cfg: Config, s: System<W>, s': System<W>, more: seq<Call>) {
    && s'.calls == s.calls + more && s'.client.mem == s.client.mem
    && s'.client.tx == s.client.tx.(queue := s.client.tx.queue + Requests(cfg, more))
  }

  /** A request that is ready is issued if and only if at most 512 messages are queued. */
  lemma AsyncExactly<W(!new)>(cfg: Config, s: System<W>, r: Request) returns (more: seq<Call>)
    requires Inv(cfg, s)
    ensures Added(cfg, s, AsyncStep(cfg, s, r), more)
    ensures if Ready(s.client, r) && |s.client.tx.queue| <= 512 then |more| == 1 && IsRequest(more[0], r, s.client.mem)
            else more == [] && AsyncStep(cfg, s, r) == s
    ensures forall q :: Ready(s.client, q) ==> Ready(AsyncStep(cfg, s, r).client, q)
  {
    hide Inv, AsyncStep, WellCalled, Added, IsRequest;
    more := [];
    if Accepted(s.client, r) {
      more := [CallOf(s.client, r)];
      StubsFine(cfg, s);
      AsyncAdds(cfg, s, r);
    } else {
      AsyncRefused(cfg, s, r);
      NothingAdded(cfg, s);
    }
    forall q | Ready(s.client, q) ensures Ready(AsyncStep(cfg, s, r).client, q) {
      AsyncKeepsReady(cfg, s, r, q);
    }
  }

  lemma StubsFine<W(!new)>(cfg: Config, s: System<W>)
    requires Inv(cfg, s)
    ensures StubsOk(s.client.stubs)
  {
  }

  lemma AsyncAdds<W(!new)>(cfg: Config, s: System<W>, r: Request)
    requires StubsOk(s.client.stubs) && Accepted(s.client, r)
    ensures Added(cfg, s, AsyncStep(cfg, s, r), [CallOf(s.client, r)]) && IsRequest(CallOf(s.client, r), r, s.client.mem)
  {
    var call := CallOf(s.client, r);
    ReadsPassed(s.client.mem, r.actuals, call.vals);
    AsyncPushes(cfg, s, r);
    AsyncExtends(cfg, s, r);
    RequestsOne(cfg, call);
    assert AsyncStep(cfg, s, r).calls == s.calls + [call];
    hide AsyncStep, StubsOk, Accepted, ReadAll, Passes, RequestOf, Requests, Extends;
  }

  lemma AsyncRefused<W(!new)>(cfg: Config, s: System<W>, r: Request)
    requires !Accepted(s.client, r)
    ensures AsyncStep(cfg, s, r) == s
  {
  }

  lemma AsyncKeepsReady<W(!new)>(cfg: Config, s: System<W>, r: Request, q: Request)
    requires Ready(s.client, q)
    ensures Ready(AsyncStep(cfg, s, r).client, q)
  {
    hide WellCalled, SerializeArgs, ReadAll;
  }

  lemma RequestsOne(cfg: Config, c: Call)
    ensures Requests(cfg, [c]) == [RequestOf(cfg, c)]
  {
  }

  /** The indices of the requests that were issued. */
  ghost predicate Increasing(js: seq<nat>, n: nat) {
    && (forall i :: 0 <= i < |js| ==> js[i] < n)
    && (forall i, k :: 0 <= i < k < |js| ==> js[i] < js[k])
  }

  ghost predicate Issued(more: seq<Call>, rs: seq<Request>, js: seq<nat>, mem: Store) {
    |more| == |js| && Increasing(js, |rs|) && forall i :: 0 <= i < |js| ==> IsRequest(more[i], rs[js[i]], mem)
  }

  ghost predicate AllReady(c: Client, rs: seq<Request>) {
    forall i :: 0 <= i < |rs| ==> Ready(c, rs[i])
  }

  function UpTo(n: nat): seq<nat> {
    seq(n, i => i)
  }

  /** What a callback issues is issued in its order, each request at most once, with the values
      that the variables have then; all of it when the procedures are connected and the queue has
      room for it. */
  lemma {:induction false} AsyncStepsOrder<W(!new)>(cfg: Config, s: System<W>, rs: seq<Request>) returns (more: seq<Call>, js: seq<nat>)
    requires Inv(cfg, s)
    ensures Added(cfg, s, AsyncSteps(cfg, s, rs), more) && Issued(more, rs, js, s.client.mem)
    ensures forall q :: Ready(s.client, q) ==> Ready(AsyncSteps(cfg, s, rs).client, q)
    ensures AllReady(s.client, rs) && |s.client.tx.queue| + |rs| <= 513 ==> js == UpTo(|rs|)
  {
    hide Inv, AsyncStep, Ready, IsRequest, Requests;
    if rs == [] {
      more, js := [], [];
      NothingAdded(cfg, s);
    } else {
      var n := |rs| - 1;
      var s1 := AsyncSteps(cfg, s, rs[..n]);
      var m1, j1 := AsyncStepsOrder(cfg, s, rs[..n]);
      AsyncStepsInv(cfg, s, rs[..n]);
      var m2 := AsyncExactly(cfg, s1, rs[n]);
      more, js := m1 + m2, if m2 == [] then j1 else j1 + [n];
      AddedOn(cfg, s, s1, AsyncStep(cfg, s1, rs[n]), m1, m2);
      IssuedOn(m1, rs, j1, s.client.mem, m2);
      if AllReady(s.client, rs) && |s.client.tx.queue| + |rs| <= 513 {
        assert AllReady(s.client, rs[..n]);
        assert Ready(s.client, rs[n]);
        assert |s1.client.tx.queue| == |s.client.tx.queue| + n by { RequestCount(cfg, m1); }
        assert UpTo(n) + [n] == UpTo(n + 1);
      }
    }
  }

  lemma RequestCount(cfg: Config, calls: seq<Call>)
    ensures |Requests(cfg, calls)| == |calls|
  {
  }

  lemma NothingAdded<W(!new)>(cfg: Config, s: System<W>)
    ensures Added(cfg, s, s, [])
  {
    assert Requests(cfg, []) == [];
  }

  lemma AddedOn<W(!new)>(cfg: Config, a: System<W>, b: System<W>, c: System<W>, m1: seq<Call>, m2: seq<Call>)
    requires Added(cfg, a, b, m1) && Added(cfg, b, c, m2)
    ensures Added(cfg, a, c, m1 + m2)
  {
    assert Requests(cfg, m1 + m2) == Requests(cfg, m1) + Requests(cfg, m2) by { hide RequestOf; }
    hide Requests;
  }

  lemma IssuedOn(m1: seq<Call>, rs: seq<Request>, j1: seq<nat>, mem: Store, m2: seq<Call>)
    requires rs != [] && Issued(m1, rs[..|rs| - 1], j1, mem) && |m2| <= 1
    requires m2 != [] ==> IsRequest(m2[0], rs[|rs| - 1], mem)
    ensures Issued(m1 + m2, rs, if m2 == [] then j1 else j1 + [|rs| - 1], mem)
  {
    hide IsRequest;
    var n := |rs| - 1;
    var js := if m2 == [] then j1 else j1 + [n];
    forall i | 0 <= i < |js| ensures IsRequest((m1 + m2)[i], rs[js[i]], mem) {
      if i < |j1| {
        assert IsRequest(m1[i], rs[..n][j1[i]], mem);
      }
    }
  }

  /** Dispatching a reply issues the calls of its callback in the order in which the callback makes
      them, behind what was queued, with the values that the variables have after the results
      were stored. */
  lemma CallbackOrder<W(!new)>(cfg: Config, s: System<W>, reaction: seq<Request>, s': System<W>) returns (more: seq<Call>, js: seq<nat>)
    requires Inv(cfg, s) && DispatchStep(cfg, s, reaction, s')
    ensures Added(cfg, s.(client := s.client.(mem := s'.client.mem)), s', more) && Issued(more, reaction, js, s'.client.mem)
    ensures AllReady(s.client.(mem := s'.client.mem), reaction) && |s.client.tx.queue| + |reaction| <= 513 ==> js == UpTo(|reaction|)
  {
    hide Inv, Matched, AsyncSteps, Erase, DispatchNext, Requests, Ready, IsRequest, IssueAll;
    var (i, ret, mem) := Matched(cfg, s.client).value;
    var s0 := s.(client := s.client.(mem := mem));
    MemoryInv(cfg, s, mem);
    more, js := AsyncStepsOrder(cfg, s0, reaction);
  }

  // The calls of a run.

  /** A step adds calls only as requests of the application or of a callback, on the values that
      the variables have then. */
  lemma StepCalls<W(!new)>(cfg: Config, s: System<W>, l: Label<W>, s': System<W>) returns (more: seq<Call>, rs: seq<Request>, js: seq<nat>)
    requires Inv(cfg, s) && Step(cfg, s, l, s')
    ensures s'.calls == s.calls + more && Issued(more, rs, js, s'.client.mem)
    ensures rs == match l case Async(r) => [r] case Dispatch(reaction) => reaction case _ => []
  {
    hide Inv, DispatchStep, AsyncStep, HopStep, ServeNext, Register, Unregister, ConnectStub, Passes, Requests;
    more, rs, js := [], [], [];
    match l {
      case Async(r) =>
        rs := [r];
        more := AsyncExactly(cfg, s, r);
        js := if more == [] then [] else [0];
      case Dispatch(reaction) =>
        rs := reaction;
        more, js := CallbackOrder(cfg, s, reaction, s');
      case _ =>
        assert s'.calls == s.calls;
    }
  }

  /** Every call of a run was made in some step of it, by the application or by a callback, and its
      values are those that were passed then. */
  lemma {:induction false} CallsAreRequests<W(!new)>(cfg: Config, trace: seq<System<W>>, labels: seq<Label<W>>, i: nat, n: nat) returns (j: nat, r: Request)
    requires Sound(cfg) && Run(cfg, trace, labels) && i < |trace| && n < |trace[i].calls|
    ensures j < i && |trace[j].calls| <= n < |trace[j + 1].calls| && trace[j + 1].calls <= trace[i].calls
    ensures IsRequest(trace[i].calls[n], r, trace[j + 1].client.mem)
    ensures labels[j] == Async(r) || (labels[j].Dispatch? && r in labels[j].reaction)
    decreases i
  {
    hide Inv, Step, IsRequest;
    if i == 0 {
      NoCalls(cfg, trace, labels);
      assert false;
    } else {
      RunInv(cfg, trace, labels, i - 1);
      assert Step(cfg, trace[i - 1], labels[i - 1], trace[i - 1 + 1]);
      var more, rs, js := StepCalls(cfg, trace[i - 1], labels[i - 1], trace[i]);
      if n < |trace[i - 1].calls| {
        j, r := CallsAreRequests(cfg, trace, labels, i - 1, n);
      } else {
        var k := n - |trace[i - 1].calls|;
        j, r := i - 1, rs[js[k]];
        assert IsRequest(more[k], rs[js[k]], trace[i].client.mem);
      }
    }
  }

  lemma NoCalls<W(!new)>(cfg: Config, trace: seq<System<W>>, labels: seq<Label<W>>)
    requires Run(cfg, trace, labels)
    ensures |trace| > 0 && trace[0].calls == []
  {
    hide Step;
  }

  // What the functions make of the calls.

  /** In every state of every run: each function found the device as the one served before had left
      it, and every callback got what the function of its own call returned, on the arguments as
      they arrived, or nothing from a `void` function. */
  lemma FunctionsInRuns<W(!new)>(cfg: Config, trace: seq<System<W>>, labels: seq<Label<W>>, i: nat)
    requires Sound(cfg) && Run(cfg, trace, labels) && i < |trace|
    ensures var s := trace[i];
            && |s.fired| <= |s.served|
            && (forall j :: 0 <= j < |s.served| ==> s.served[j].world == Left(s.origin, s.served, j))
            && s.server.world == Left(s.origin, s.served, |s.served|)
            && forall j :: 0 <= j < |s.fired| ==>
                 var x := s.served[j];
                 s.fired[j] == Completion(x.no, if x.call.proto.ret == Void then None
                                                else Some(x.f(x.world, WireAll(x.call.vals)).ret))
  {
    hide Run, Sound, WireAll, Inv, Left;
    RunInv(cfg, trace, labels, i);
    var s := trace[i];
    HistoryOk(cfg, s);
    forall j | 0 <= j <= |s.served| ensures WorldAt(s.origin, s.served, j) == Left(s.origin, s.served, j) {
      LeftIs(s.origin, s.served, j);
    }
    hide WorldAt, Result;
    forall j | 0 <= j < |s.fired|
      ensures s.fired[j] == Completion(s.served[j].no, if s.served[j].call.proto.ret == Void then None
                                                       else Some(s.served[j].f(s.served[j].world, WireAll(s.served[j].call.vals)).ret))
    {
      ReturnIs(s.served[j]);
    }
  }

  lemma HistoryOk<W(!new)>(cfg: Config, s: System<W>)
    requires Inv(cfg, s)
    ensures WorldsOk(s.served, s.origin, s.server.world) && FiredOk(s.served, s.fired)
  {
    hide CallsOk, StubsOk, SkelsOk, AnsweredOk, DroppedOk, PendingOk, ChannelInv, NumbersOk, WorldsOk, FiredOk;
  }

  lemma LeftIs<W(!new)>(origin: W, served: seq<Served<W>>, j: nat)
    requires j <= |served|
    ensures WorldAt(origin, served, j) == Left(origin, served, j)
  {
    hide WireAll;
  }

  lemma ReturnIs<W(!new)>(x: Served<W>)
    ensures ReturnOf(x) == if x.call.proto.ret == Void then None else Some(x.f(x.world, WireAll(x.call.vals)).ret)
  {
    hide WireAll;
  }

  /** The device after the first j of the served calls. */
  function Left<W>(origin: W, served: seq<Served<W>>, j: nat): W
    requires j <= |served|
  {
    if j == 0 then origin else var x := served[j - 1]; x.f(x.world, WireAll(x.call.vals)).world
  }

  // Registering and taking back.

  /** When a registered function is taken back, the next request of its procedure is dropped. */
  lemma WithdrawnDrops<W(!new)>(cfg: Config, s: System<W>, k: Key, s1: System<W>, s2: System<W>)
    requires s1.server.rx.inbox != [] && s1.server.rx.inbox[0].name == k
    requires Sound(cfg) && Inv(cfg, s) && !Drops(s.server, k) && Step(cfg, s, Withdraw(k), s1) && Step(cfg, s1, Serve, s2)
    ensures k !in s1.server.skels && s2.dropped == s1.dropped + [s1.taken] && s2.served == s1.served
    ensures s2.server.tx == s1.server.tx && s2.server.world == s1.server.world
  {
    hide Inv, ServeStep, ReplyOf, Result, GoodServed, UpChannel, DownChannel, Push, Pop;
    UnregisterExactly(s.server, k);
    WithdrawInv(cfg, s, k);
    hide Unregister;
    ServeChannels(cfg, s1, s2);
  }

  /** Or another function can be registered in its place, and no other entry has changed. */
  lemma WithdrawnReplaced<W(!new)>(cfg: Config, s: System<W>, p: Prototype, g: Impl<W>, s1: System<W>, s2: System<W>)
    requires Connectable(p) && !Drops(s.server, KeyOf(p))
    requires Step(cfg, s, Withdraw(KeyOf(p)), s1) && Step(cfg, s1, Provide(p, g), s2)
    ensures s2.server.skels == s.server.skels[KeyOf(p) := Some(SkeletonState(p, g))]
  {
    var k := KeyOf(p);
    UnregisterExactly(s.server, k);
    RegisterExactly(s1.server, p, g);
    hide Unregister, Register, KeyOf;
  }

  // Events.

  /** A call of the application, when the procedure is connected, the arguments fit and at most 512
      messages are queued, adds one call with the values passed; otherwise it changes nothing. */
  lemma CallEvent<W(!new)>(cfg: Config, r: Request, states: seq<System<W>>, labels: seq<Label<W>>)
    requires StandsFor(cfg, Application(Calls(r)), states, labels) && Inv(cfg, states[0])
    ensures var s, z := states[0], states[|labels|];
            if Ready(s.client, r) && |s.client.tx.queue| <= 512 then
              |z.calls| == |s.calls| + 1 && s.calls <= z.calls && IsRequest(z.calls[|s.calls|], r, s.client.mem)
            else z == s
  {
    hide Inv, Ready, IsRequest, Requests, AsyncStep, StandsFor;
    CallStep(cfg, r, states, labels);
    var more := AsyncExactly(cfg, states[0], r);
  }

  lemma CallStep<W(!new)>(cfg: Config, r: Request, states: seq<System<W>>, labels: seq<Label<W>>)
    requires StandsFor(cfg, Application(Calls(r)), states, labels)
    ensures |labels| == 1 && |states| == 2 && states[1] == AsyncStep(cfg, states[0], r)
  {
    hide AsyncStep;
    assert |labels| == 1 && Step(cfg, states[0], labels[0], states[0 + 1]);
  }

  /** The calls that callbacks issue in a round of the client wait for the next one: at its end
      their requests are queued, whole and in order, behind all others. */
  lemma CallbackCallsWait<W(!new)>(cfg: Config, tx: nat, rx: nat, reactions: seq<seq<Request>>, states: seq<System<W>>, labels: seq<Label<W>>)
    requires Sound(cfg) && StandsFor(cfg, ClientLoop(tx, rx, reactions), states, labels) && Inv(cfg, states[0])
    ensures var s, z := states[0], states[|labels|];
            && s.calls <= z.calls
            && |z.calls| - |s.calls| <= |z.client.tx.queue|
            && z.client.tx.queue[|z.client.tx.queue| - (|z.calls| - |s.calls|)..] == Requests(cfg, z.calls[|s.calls|..])
  {
    hide Inv, Step, Gained, Requests;
    var n, rets := RoundPlan(cfg, tx, rx, reactions, states, labels);
    hide StandsFor, ClientPlan, ClientLabels;
    var b := n + 1 + rx;
    TurnsIssueNothing(cfg, n, rx, reactions, rets, states, labels, b);
    DispatchesQueue(cfg, n, rx, reactions, rets, states, labels, |rets|);
    var z, m := states[|labels|], states[b];
    var more := z.calls[|m.calls|..];
    RequestCount(cfg, more);
    LastOf(m.client.tx.queue, Requests(cfg, more));
  }

  lemma RoundPlan<W(!new)>(cfg: Config, tx: nat, rx: nat, reactions: seq<seq<Request>>, states: seq<System<W>>, labels: seq<Label<W>>)
    returns (n: nat, rets: seq<Option<nat>>)
    requires StandsFor(cfg, ClientLoop(tx, rx, reactions), states, labels)
    ensures Steps(cfg, states, labels) && |states| == |labels| + 1
    ensures labels == ClientLabels(ClientPlan(n, rx, reactions, rets)) && |labels| == n + 1 + rx + |rets|
  {
    hide Step, Gained;
    n :| ClientTurns(tx, rx, reactions, states, labels, n);
    rets := Gained(states[0], states[|labels|]);
  }

  lemma LastOf<T>(a: seq<T>, b: seq<T>)
    ensures (a + b)[|a + b| - |b|..] == b
  {
  }

  lemma {:induction false} TurnsIssueNothing<W(!new)>(cfg: Config, n: nat, rx: nat, reactions: seq<seq<Request>>, rets: seq<Option<nat>>,
                                                      states: seq<System<W>>, labels: seq<Label<W>>, i: nat)
    requires Sound(cfg) && Steps(cfg, states, labels) && labels == ClientLabels(ClientPlan(n, rx, reactions, rets))
    requires Inv(cfg, states[0]) && i <= n + 1 + rx
    ensures Inv(cfg, states[i]) && states[i].calls == states[0].calls
  {
    hide Inv, Step;
    if i > 0 {
      TurnsIssueNothing(cfg, n, rx, reactions, rets, states, labels, i - 1);
      assert Step(cfg, states[i - 1], labels[i - 1], states[i - 1 + 1]);
      assert labels[i - 1].Turn?;
      StepInv(cfg, states[i - 1], labels[i - 1], states[i]);
      TurnCalls(cfg, states[i - 1], labels[i - 1], states[i]);
    }
  }

  lemma TurnCalls<W(!new)>(cfg: Config, s: System<W>, l: Label<W>, s': System<W>)
    requires Step(cfg, s, l, s') && l.Turn?
    ensures s'.calls == s.calls
  {
    hide HopStep;
  }

  lemma {:induction false} DispatchesQueue<W(!new)>(cfg: Config, n: nat, rx: nat, reactions: seq<seq<Request>>, rets: seq<Option<nat>>,
                                                    states: seq<System<W>>, labels: seq<Label<W>>, j: nat)
    requires Sound(cfg) && Steps(cfg, states, labels) && labels == ClientLabels(ClientPlan(n, rx, reactions, rets))
    requires n + 1 + rx < |states| && Inv(cfg, states[n + 1 + rx]) && j <= |rets|
    ensures n + 1 + rx + j < |states|
    ensures var m, z := states[n + 1 + rx], states[n + 1 + rx + j];
            && Inv(cfg, z) && m.calls <= z.calls
            && z.client.tx.queue == m.client.tx.queue + Requests(cfg, z.calls[|m.calls|..])
    decreases j
  {
    hide Inv, Step, Requests;
    var b := n + 1 + rx;
    assert |labels| == b + |rets|;
    var m := states[b];
    if j == 0 {
      assert m.calls[|m.calls|..] == [];
      NothingAdded(cfg, m);
    } else {
      DispatchesQueue(cfg, n, rx, reactions, rets, states, labels, j - 1);
      var s, z := states[b + j - 1], states[b + j];
      assert Step(cfg, states[b + j - 1], labels[b + j - 1], states[b + j - 1 + 1]);
      assert labels[b + j - 1].Dispatch? by { assert ClientPlan(n, rx, reactions, rets)[b + j - 1] == Dispatches(reactions, rets)[j - 1]; }
      StepInv(cfg, s, labels[b + j - 1], z);
      hide ClientPlan, ClientLabels, Steps;
      DispatchQueues(cfg, s, labels[b + j - 1], z);
      QueueOn(cfg, m, s, z);
    }
  }

  lemma DispatchQueues<W(!new)>(cfg: Config, s: System<W>, l: Label<W>, z: System<W>)
    requires Inv(cfg, s) && Step(cfg, s, l, z) && l.Dispatch?
    ensures s.calls <= z.calls && z.client.tx.queue == s.client.tx.queue + Requests(cfg, z.calls[|s.calls|..])
  {
    hide Inv, DispatchStep, Requests, Issued;
    var more, js := CallbackOrder(cfg, s, l.reaction, z);
    assert z.calls[|s.calls|..] == more;
  }

  lemma QueueOn<W(!new)>(cfg: Config, a: System<W>, b: System<W>, c: System<W>)
    requires a.calls <= b.calls <= c.calls
    requires b.client.tx.queue == a.client.tx.queue + Requests(cfg, b.calls[|a.calls|..])
    requires c.client.tx.queue == b.client.tx.queue + Requests(cfg, c.calls[|b.calls|..])
    ensures c.client.tx.queue == a.client.tx.queue + Requests(cfg, c.calls[|a.calls|..])
  {
    hide RequestOf;
    var m1, m2 := b.calls[|a.calls|..], c.calls[|b.calls|..];
    assert c.calls[|a.calls|..] == m1 + m2;
    assert Requests(cfg, m1 + m2) == Requests(cfg, m1) + Requests(cfg, m2);
  }

  /** What the other events of application and device do. */
  lemma OtherEvents<W(!new)>(cfg: Config, x: Event<W>, states: seq<System<W>>, labels: seq<Label<W>>)
    requires StandsFor(cfg, x, states, labels)
    ensures var s, z := states[0], states[|labels|];
            match x
            case Application(Connects(p)) =>
              && Connectable(p) && KeyOf(p) in z.client.stubs
              && (KeyOf(p) !in s.client.stubs ==> z.client.stubs[KeyOf(p)] == StubState(p, 0, []))
              && (forall k :: k in s.client.stubs ==> k in z.client.stubs && z.client.stubs[k] == s.client.stubs[k])
            case Application(Disconnects(k)) =>
              k in z.client.stubs <==> k in s.client.stubs && s.client.stubs[k].pending != []
            case Application(Assigns(a, v)) => z.client.mem == s.client.mem[a := v]
            case Device(Provides(p, f)) =>
              && Connectable(p) && KeyOf(p) in z.server.skels
              && (KeyOf(p) !in s.server.skels ==> z.server.skels == s.server.skels[KeyOf(p) := Some(SkeletonState(p, f))])
            case Device(Withdraws(k)) => Drops(z.server, k)
            case _ => true
  {
    hide KeyOf, ClientTurns, ServerTurns, AsyncStep;
    if x.Application? || x.Device? {
      if |labels| > 0 {
        assert |labels| == 1 && Step(cfg, states[0], labels[0], states[0 + 1]);
      }
    }
  }
}
