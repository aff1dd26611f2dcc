/** The theorems about whole runs of a client and a server. */
module Runs {
  import opened Bytes
  import opened Frame
  import opened PrototypeModule
  import opened Marshaller
  import opened ChannelModule
  import opened Peers
  import opened Protocol
  import opened Invariant

  // Dispatching keeps the invariant and is always defined.

  lemma MemoryInv<W(!new)>(cfg: Config, s: System<W>, mem: Store)
    requires Inv(cfg, s)
    ensures Inv(cfg, s.(client := s.client.(mem := mem)))
  {
    hide CallsOk, StubsOk, SkelsOk, ServedOk, AnsweredOk, FiredOk, PendingOk, DroppedOk, ChannelInv, Outstanding;
    var s' := s.(client := s.client.(mem := mem));
    assert UpChannel(cfg, s') == UpChannel(cfg, s) && DownChannel(cfg, s') == DownChannel(cfg, s);
  }

  /** Between the match and the erasure a callback may issue calls; the entry stays where
      it is. */
  lemma DispatchInv<W(!new)>(cfg: Config, s: System<W>, reaction: seq<Request>, s': System<W>)
    requires Sound(cfg) && Inv(cfg, s) && DispatchStep(cfg, s, reaction, s')
    ensures Inv(cfg, s')
  {
    hide Inv, AsyncSteps, FinishDispatch, DispatchNext, Find, Stored;
    assert s.client.rx.inbox != [] by { hide Accept; }
    MatchedReply(cfg, s);
    hide Matched;
    var (i, ret, mem) := Matched(cfg, s.client).value;
    var s0 := s.(client := s.client.(mem := mem));
    MemoryInv(cfg, s, mem);
    AsyncStepsInv(cfg, s0, reaction);
    OldestReplyOf(cfg, s);
    FinishInv(cfg, AsyncSteps(cfg, s0, reaction));
  }

  lemma OldestReplyOf<W(!new)>(cfg: Config, s: System<W>)
    requires Inv(cfg, s) && s.client.rx.inbox != []
    ensures |s.fired| < |s.served| && s.client.rx.inbox[0] == ReplyOf(cfg, s.served[|s.fired|])
  {
    hide LogInv;
    OldestReply(cfg, s);
  }

  /** Whatever the callback does, the oldest reply can be dispatched: the search never runs
      off the end of the invocation list. */
  lemma DispatchDefined<W(!new)>(cfg: Config, s: System<W>, reaction: seq<Request>) returns (s': System<W>)
    requires Sound(cfg) && Inv(cfg, s) && s.client.rx.inbox != []
    ensures DispatchStep(cfg, s, reaction, s')
  {
    hide Inv, AsyncSteps, Find, Stored;
    MatchedReply(cfg, s);
    hide Matched;
    var (i, ret, mem) := Matched(cfg, s.client).value;
    var s0 := s.(client := s.client.(mem := mem));
    MemoryInv(cfg, s, mem);
    AsyncStepsInv(cfg, s0, reaction);
    var s1 := AsyncSteps(cfg, s0, reaction);
    var key := s.client.rx.inbox[0].name;
    assert key in s0.client.stubs;
    s' := FinishDispatch(s1, key, i, ret);
  }

  // Registration keeps the invariant.

  lemma ConnectPending(stubs: map<Key, StubState>, calls: seq<Call>, nos: seq<nat>, k: Key, p: Prototype)
    requires PendingOk(stubs, calls, nos) && k !in stubs
    ensures PendingOk(stubs[k := StubState(p, 0, [])], calls, nos)
  {
    OfNone(calls, nos, k);
    assert StubOk(calls, nos, k, StubState(p, 0, [])) by {
      assert PendingNos([]) == [];
    }
    hide StubOk;
  }

  lemma ConnectInv<W(!new)>(cfg: Config, s: System<W>, p: Prototype)
    requires Inv(cfg, s) && Connectable(p)
    ensures Inv(cfg, s.(client := ConnectStub(s.client, p)))
  {
    hide CallsOk, SkelsOk, ServedOk, AnsweredOk, FiredOk, PendingOk, DroppedOk, ChannelInv, KeyOf, PlainName, Outstanding;
    var s' := s.(client := ConnectStub(s.client, p));
    assert UpChannel(cfg, s') == UpChannel(cfg, s) && DownChannel(cfg, s') == DownChannel(cfg, s);
    if KeyOf(p) !in s.client.stubs {
      ConnectPending(s.client.stubs, s.calls, OutstandingIn(s), KeyOf(p), p);
    }
  }

  lemma DisconnectPending(stubs: map<Key, StubState>, calls: seq<Call>, nos: seq<nat>, k: Key)
    requires PendingOk(stubs, calls, nos) && k in stubs && stubs[k].pending == []
    ensures PendingOk(stubs - {k}, calls, nos)
  {
    assert StubOk(calls, nos, k, stubs[k]);
    forall n | n in nos ensures calls[n].key != k {
      InOf(calls, nos, n);
    }
    hide StubOk;
  }

  lemma DisconnectInv<W(!new)>(cfg: Config, s: System<W>, k: Key)
    requires Inv(cfg, s) && k in s.client.stubs && s.client.stubs[k].pending == []
    ensures Inv(cfg, s.(client := s.client.(stubs := s.client.stubs - {k})))
  {
    hide CallsOk, SkelsOk, ServedOk, AnsweredOk, FiredOk, PendingOk, DroppedOk, ChannelInv, KeyOf, Connectable, Outstanding;
    var s' := s.(client := s.client.(stubs := s.client.stubs - {k}));
    assert UpChannel(cfg, s') == UpChannel(cfg, s) && DownChannel(cfg, s') == DownChannel(cfg, s);
    DisconnectPending(s.client.stubs, s.calls, OutstandingIn(s), k);
  }

  /** The entries of the server may change as long as the null ones stay. */
  lemma SkelsInv<W(!new)>(cfg: Config, s: System<W>, skels: map<Key, Option<SkeletonState<W>>>)
    requires Inv(cfg, s) && SkelsOk(skels)
    requires forall k :: k in s.server.skels && s.server.skels[k].None? ==> k in skels && skels[k].None?
    ensures Inv(cfg, s.(server := s.server.(skels := skels)))
  {
    hide CallsOk, StubsOk, SkelsOk, ServedOk, AnsweredOk, FiredOk, PendingOk, ChannelInv, Outstanding;
    var s' := s.(server := s.server.(skels := skels));
    assert UpChannel(cfg, s') == UpChannel(cfg, s) && DownChannel(cfg, s') == DownChannel(cfg, s);
  }

  lemma SkelsGrow<W(!new)>(skels: map<Key, Option<SkeletonState<W>>>, k: Key, x: SkeletonState<W>)
    requires SkelsOk(skels) && GoodSkel(k, x)
    ensures SkelsOk(skels[k := Some(x)])
  {
    hide GoodSkel;
  }

  lemma ProvideInv<W(!new)>(cfg: Config, s: System<W>, p: Prototype, f: Impl<W>)
    requires Inv(cfg, s) && Connectable(p) && Typed(p, f)
    ensures Inv(cfg, s.(server := Register(s.server, p, f)))
  {
    var k, x := KeyOf(p), SkeletonState(p, f);
    assert GoodSkel(k, x);
    SkelsGrow(s.server.skels, k, x);
    if k !in s.server.skels {
      SkelsInv(cfg, s, s.server.skels[k := Some(x)]);
      hide Inv, KeyOf;
    } else {
      hide Inv, KeyOf;
      assert s.(server := s.server) == s;
    }
  }

  lemma WithdrawSkels<W(!new)>(v: Server<W>, k: Key)
    requires SkelsOk(v.skels)
    ensures SkelsOk(Unregister(v, k).skels)
    ensures forall k' :: k' in v.skels && v.skels[k'].None? ==> k' in Unregister(v, k).skels && Unregister(v, k).skels[k'].None?
  {
    hide GoodSkel;
  }

  lemma WithdrawInv<W(!new)>(cfg: Config, s: System<W>, k: Key)
    requires Inv(cfg, s)
    ensures Inv(cfg, s.(server := Unregister(s.server, k)))
  {
    var v := Unregister(s.server, k);
    WithdrawSkels(s.server, k);
    SkelsInv(cfg, s, v.skels);
    hide Inv;
    assert v == s.server.(skels := v.skels);
  }

  /** Every step of the protocol keeps the invariant. */
  lemma StepInv<W(!new)>(cfg: Config, s: System<W>, l: Label<W>, s': System<W>)
    requires Sound(cfg) && Inv(cfg, s) && Step(cfg, s, l, s')
    ensures Inv(cfg, s')
  {
    hide Inv, DispatchStep, ServeStep, TurnStep, AsyncStep, ConnectStub, Register, Unregister, Connectable, Typed;
    match l {
      case Connect(p) => ConnectInv(cfg, s, p);
      case Disconnect(k) => DisconnectInv(cfg, s, k);
      case Async(r) => AsyncInv(cfg, s, r);
      case Dispatch(reaction) => DispatchInv(cfg, s, reaction, s');
      case Serve => ServeInv(cfg, s, s');
      case Provide(p, f) => ProvideInv(cfg, s, p, f);
      case Withdraw(k) => WithdrawInv(cfg, s, k);
      case Assign(a, v) => MemoryInv(cfg, s, s.client.mem[a := v]);
      case Turn(dir, hop) => TurnInv(cfg, s, dir, hop, s');
    }
  }

  // Runs.

  /** A run from the start, with any interleaving of the steps of client and server. */
  ghost predicate Run<W(!new)>(cfg: Config, trace: seq<System<W>>, labels: seq<Label<W>>) {
    && |trace| == |labels| + 1 && Start(cfg, trace[0])
    && forall i :: 0 <= i < |labels| ==> Step(cfg, trace[i], labels[i], trace[i + 1])
  }

  /** The invariant holds in every state of every run. */
  lemma {:induction false} RunInv<W(!new)>(cfg: Config, trace: seq<System<W>>, labels: seq<Label<W>>, i: nat)
    requires Sound(cfg) && Run(cfg, trace, labels) && i < |trace|
    ensures Inv(cfg, trace[i])
  {
    hide Inv, Step, Start;
    if i == 0 {
      StartInv(cfg, trace[0]);
    } else {
      RunInv(cfg, trace, labels, i - 1);
      assert Step(cfg, trace[i - 1], labels[i - 1], trace[i - 1 + 1]);
      StepInv(cfg, trace[i - 1], labels[i - 1], trace[i]);
    }
  }

  /** In every state of every run, per direction: the bytes of all messages ever queued are
      those decoded, consumed, in the receive ring, on the link, in the transmit ring and
      unwritten, in this order. */
  lemma BytesConserved<W(!new)>(cfg: Config, trace: seq<System<W>>, labels: seq<Label<W>>, i: nat)
    requires Sound(cfg) && Run(cfg, trace, labels) && i < |trace|
    ensures var up, down := UpChannel(cfg, trace[i]), DownChannel(cfg, trace[i]);
            && Decoded(up) <= |up.pushed| && EncAll(up.tx.order, up.pushed) == EncAll(up.tx.order, up.pushed[..Decoded(up)]) + Stream(up)
            && Decoded(down) <= |down.pushed| && EncAll(down.tx.order, down.pushed) == EncAll(down.tx.order, down.pushed[..Decoded(down)]) + Stream(down)
  {
    hide Run, EncAll, Stream, LogInv;
    RunInv(cfg, trace, labels, i);
    Conservation(UpChannel(cfg, trace[i]));
    Conservation(DownChannel(cfg, trace[i]));
  }

  // Dropped requests.

  /** What a step does to the history: calls, requests served and requests dropped are only
      ever appended, and a request is served only if its procedure has a function. */
  ghost predicate Later<W(!new)>(s: System<W>, s': System<W>) {
    && s.calls <= s'.calls && s.dropped <= s'.dropped && s.served <= s'.served
    && (forall n :: |s.served| <= n < |s'.served| ==> !Drops(s.server, s'.served[n].call.key))
  }

  lemma StepLater<W(!new)>(cfg: Config, s: System<W>, l: Label<W>, s': System<W>)
    requires Sound(cfg) && Inv(cfg, s) && Step(cfg, s, l, s')
    ensures Later(s, s')
  {
    hide Inv, DispatchStep, HopStep, Issue, Register, Unregister, ConnectStub, ServeNext;
    match l {
      case Dispatch(reaction) => DispatchLater(cfg, s, reaction, s');
      case Serve => assert s.server.rx.inbox[0].name == s.calls[s.taken].key by { NextName(cfg, s); }
      case _ =>
    }
  }

  lemma NextName<W(!new)>(cfg: Config, s: System<W>)
    requires Inv(cfg, s) && s.server.rx.inbox != []
    ensures s.taken < |s.calls| && s.server.rx.inbox[0].name == s.calls[s.taken].key
  {
    hide LogInv;
    OldestRequest(cfg, s);
  }

  lemma DispatchLater<W(!new)>(cfg: Config, s: System<W>, reaction: seq<Request>, s': System<W>)
    requires Inv(cfg, s) && DispatchStep(cfg, s, reaction, s')
    ensures Later(s, s')
  {
    hide Inv, Matched, AsyncSteps, IssueAll, Erase, DispatchNext;
    var (i, ret, mem) := Matched(cfg, s.client).value;
    MemoryInv(cfg, s, mem);
    AsyncStepsInv(cfg, s.(client := s.client.(mem := mem)), reaction);
  }

  /** Once a request of a procedure was dropped, no later request of it is ever served, not
      even when a function is registered for it in the meantime. */
  lemma {:induction false} NeverServedAgain<W(!new)>(cfg: Config, trace: seq<System<W>>, labels: seq<Label<W>>, i: nat, j: nat, d: nat)
    requires Sound(cfg) && Run(cfg, trace, labels) && i <= j < |trace| && d in trace[i].dropped
    ensures d < |trace[i].calls| && trace[i].calls <= trace[j].calls && trace[i].dropped <= trace[j].dropped
    ensures forall n :: |trace[i].served| <= n < |trace[j].served| ==> trace[j].served[n].call.key != trace[i].calls[d].key
    ensures trace[i].served <= trace[j].served
    decreases j
  {
    hide Inv, Step, Start;
    RunInv(cfg, trace, labels, j);
    DropsForever(cfg, trace[j]);
    if i < j {
      NeverServedAgain(cfg, trace, labels, i, j - 1, d);
      RunInv(cfg, trace, labels, j - 1);
      DropsForever(cfg, trace[j - 1]);
      assert Step(cfg, trace[j - 1], labels[j - 1], trace[j - 1 + 1]);
      StepLater(cfg, trace[j - 1], labels[j - 1], trace[j]);
      assert d in trace[j - 1].dropped;
    }
  }

  /** Every null entry is under the key of a dropped call. */
  ghost predicate NullsDropped<W(!new)>(s: System<W>) {
    forall k :: k in s.server.skels && s.server.skels[k].None? ==>
      exists d :: d in s.dropped && d < |s.calls| && s.calls[d].key == k
  }

  lemma StepNulls<W(!new)>(cfg: Config, s: System<W>, l: Label<W>, s': System<W>)
    requires Sound(cfg) && Inv(cfg, s) && Step(cfg, s, l, s') && NullsDropped(s)
    ensures NullsDropped(s')
  {
    hide Inv, Step, Drops;
    StepLater(cfg, s, l, s');
    StepEntries(cfg, s, l, s');
    forall k | k in s'.server.skels && s'.server.skels[k].None?
      ensures exists d :: d in s'.dropped && d < |s'.calls| && s'.calls[d].key == k
    {
      if k in s.server.skels && s.server.skels[k].None? {
        var d :| d in s.dropped && d < |s.calls| && s.calls[d].key == k;
        assert d in s'.dropped;
      } else {
        assert s.taken in s'.dropped;
      }
    }
  }

  /** A null entry is new only where a request was dropped. */
  lemma StepEntries<W(!new)>(cfg: Config, s: System<W>, l: Label<W>, s': System<W>)
    requires Sound(cfg) && Inv(cfg, s) && Step(cfg, s, l, s')
    ensures forall k :: k in s'.server.skels && s'.server.skels[k].None? ==>
              || (k in s.server.skels && s.server.skels[k].None?)
              || (s.taken < |s.calls| && s.calls[s.taken].key == k && s.taken in s'.dropped)
  {
    hide Inv, DispatchStep, ServeStep, HopStep, Issue, ConnectStub, KeyOf, ReplyOf, GoodServed, Result, Push, Pop, UpChannel, DownChannel;
    match l {
      case Dispatch(reaction) => DispatchKeeps(cfg, s, reaction, s');
      case Serve => ServeChannels(cfg, s, s');
      case _ =>
    }
  }

  /** A dispatch leaves the server alone. */
  lemma DispatchKeeps<W(!new)>(cfg: Config, s: System<W>, reaction: seq<Request>, s': System<W>)
    requires Inv(cfg, s) && DispatchStep(cfg, s, reaction, s')
    ensures s'.server == s.server && s'.dropped == s.dropped && s.calls <= s'.calls
  {
    hide Inv, Matched, AsyncSteps, IssueAll, Erase, DispatchNext;
    var (i, ret, mem) := Matched(cfg, s.client).value;
    MemoryInv(cfg, s, mem);
    AsyncStepsInv(cfg, s.(client := s.client.(mem := mem)), reaction);
  }

  lemma {:induction false} RunNulls<W(!new)>(cfg: Config, trace: seq<System<W>>, labels: seq<Label<W>>, i: nat)
    requires Sound(cfg) && Run(cfg, trace, labels) && i < |trace|
    ensures NullsDropped(trace[i])
  {
    hide Inv, Step, NullsDropped;
    if i == 0 {
      NoNulls(cfg, trace[0]);
    } else {
      RunNulls(cfg, trace, labels, i - 1);
      RunInv(cfg, trace, labels, i - 1);
      assert Step(cfg, trace[i - 1], labels[i - 1], trace[i - 1 + 1]);
      StepNulls(cfg, trace[i - 1], labels[i - 1], trace[i]);
    }
  }

  lemma NoNulls<W(!new)>(cfg: Config, s: System<W>)
    requires Start(cfg, s)
    ensures NullsDropped(s)
  {
  }

  /** In every state of every run, registering a function leaves its procedure with a function
      if and only if no request of the procedure was ever dropped. */
  lemma RegistersExactly<W(!new)>(cfg: Config, trace: seq<System<W>>, labels: seq<Label<W>>, i: nat, p: Prototype, f: Impl<W>)
    requires Sound(cfg) && Run(cfg, trace, labels) && i < |trace| && Connectable(p)
    ensures var s := trace[i];
            !Drops(Register(s.server, p, f), KeyOf(p)) <==>
            forall d :: d in s.dropped ==> d < |s.calls| && s.calls[d].key != KeyOf(p)
  {
    hide Run, Inv, KeyOf;
    RunInv(cfg, trace, labels, i);
    DropsForever(cfg, trace[i]);
    RunNulls(cfg, trace, labels, i);
  }

  lemma DropsForever<W(!new)>(cfg: Config, s: System<W>)
    requires Inv(cfg, s)
    ensures forall d :: d in s.dropped ==>
              d < |s.calls| && s.calls[d].key in s.server.skels && s.server.skels[s.calls[d].key].None?
  {
  }

  /** A request that comes before its function is registered: the registration does nothing,
      and the next request is dropped too. */
  lemma ServedTooEarly<W>(cfg: Config, v: Server<W>, p: Prototype, f: Impl<W>)
    requires p.params != [] && KeyOf(p) !in v.skels
    requires |v.rx.inbox| >= 2 && v.rx.inbox[0].name == v.rx.inbox[1].name == KeyOf(p)
    ensures ServeNext(cfg, v).Some?
    ensures var v1 := ServeNext(cfg, v).value;
            var v2 := Register(v1, p, f);
            && v2 == v1 && ServeNext(cfg, v2).Some?
            && ServeNext(cfg, v2).value.tx == v.tx && ServeNext(cfg, v2).value.world == v.world
  {
    hide Perform, KeyOf;
  }
}
