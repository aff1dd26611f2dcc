/** The invariant of every run of the protocol, and its preservation by every step. */
module Invariant {
  import opened Bytes
  import opened Frame
  import opened ParamTypes
  import opened PrototypeModule
  import opened Marshaller
  import opened ChannelModule
  import opened Peers
  import opened Protocol

  ghost predicate GoodCall(c: Call) {
    && Connectable(c.proto) && KeyOf(c.proto) == c.key && c.id < TWO16
    && FitAll(c.proto.params, c.vals) && Addressed(c.proto.params, c.actuals)
  }

  ghost predicate CallsOk(calls: seq<Call>) {
    forall i :: 0 <= i < |calls| ==> GoodCall(calls[i])
  }

  ghost predicate StubsOk(stubs: map<Key, StubState>) {
    forall k :: k in stubs ==> Connectable(stubs[k].proto) && KeyOf(stubs[k].proto) == k
  }

  ghost predicate SkelsOk<W(!new)>(skels: map<Key, Option<SkeletonState<W>>>) {
    forall k :: k in skels && skels[k].Some? ==> GoodSkel(k, skels[k].value)
  }

  ghost predicate GoodSkel<W(!new)>(k: Key, x: SkeletonState<W>) {
    Connectable(x.proto) && KeyOf(x.proto) == k && Typed(x.proto, x.f)
  }

  /** The state of the device after the first j served requests, executed one by one. */
  function WorldAt<W>(origin: W, served: seq<Served<W>>, j: nat): W
    requires j <= |served|
  {
    if j == 0 then origin else Result(served[j - 1]).world
  }

  ghost predicate GoodServed<W(!new)>(calls: seq<Call>, x: Served<W>) {
    x.no < |calls| && x.call == calls[x.no] && GoodCall(x.call) && Typed(x.call.proto, x.f)
  }

  /** The served requests are calls, in the order of the calls, and each found the device as
      the one before had left it. */
  ghost predicate ServedOk<W(!new)>(calls: seq<Call>, taken: nat, served: seq<Served<W>>, origin: W, world: W) {
    NumbersOk(calls, taken, served) && WorldsOk(served, origin, world)
  }

  ghost predicate NumbersOk<W(!new)>(calls: seq<Call>, taken: nat, served: seq<Served<W>>) {
    && taken <= |calls|
    && (forall j :: 0 <= j < |served| ==> GoodServed(calls, served[j]) && served[j].no < taken)
    && (forall i, j :: 0 <= i < j < |served| ==> served[i].no < served[j].no)
  }

  ghost predicate WorldsOk<W(!new)>(served: seq<Served<W>>, origin: W, world: W) {
    && (forall j :: 0 <= j < |served| ==> served[j].world == WorldAt(origin, served, j))
    && world == WorldAt(origin, served, |served|)
  }

  ghost predicate WasServed<W(!new)>(served: seq<Served<W>>, i: nat) {
    exists j :: 0 <= j < |served| && served[j].no == i
  }

  /** A request that was taken was either served or dropped. */
  ghost predicate AnsweredOk<W(!new)>(taken: nat, served: seq<Served<W>>, dropped: seq<nat>) {
    && (forall d :: d in dropped ==> d < taken)
    && forall i :: 0 <= i < taken ==> (WasServed(served, i) <==> i !in dropped)
  }

  /** A dropped request leaves a null entry, and nothing ever takes it away. */
  ghost predicate DroppedOk<W(!new)>(calls: seq<Call>, dropped: seq<nat>, skels: map<Key, Option<SkeletonState<W>>>) {
    forall d :: d in dropped ==> d < |calls| && calls[d].key in skels && skels[calls[d].key].None?
  }

  function ReturnOf<W>(x: Served<W>): Option<nat> {
    if x.call.proto.ret.Void? then None else Some(Result(x).ret)
  }

  /** Replies are dispatched in order, each to its own call, with the value that this call
      returned. */
  ghost predicate FiredOk<W(!new)>(served: seq<Served<W>>, fired: seq<Completion>) {
    && |fired| <= |served|
    && forall i :: 0 <= i < |fired| ==> fired[i] == Completion(served[i].no, ReturnOf(served[i]))
  }

  // The calls that a stub still has in its list.

  /** The calls whose reply is under way, oldest first. */
  function ReplyNos<W>(served: seq<Served<W>>, nf: nat): (r: seq<nat>)
    decreases |served| - nf
  {
    if nf < |served| then [served[nf].no] + ReplyNos(served, nf + 1) else []
  }

  /** The calls whose request is under way. */
  function RequestNos(taken: nat, n: nat): seq<nat> {
    if taken <= n then seq(n - taken, j => taken + j) else []
  }

  /** Replies under way, then dropped calls, then requests under way. */
  function Outstanding<W>(n: nat, taken: nat, served: seq<Served<W>>, nf: nat, dropped: seq<nat>): seq<nat> {
    ReplyNos(served, nf) + dropped + RequestNos(taken, n)
  }

  /** Those of a procedure. */
  function Of(calls: seq<Call>, nos: seq<nat>, k: Key): seq<nat> {
    if nos == [] then []
    else if nos[0] < |calls| && calls[nos[0]].key == k then [nos[0]] + Of(calls, nos[1..], k)
    else Of(calls, nos[1..], k)
  }

  function PendingNos(pending: seq<Invocation>): seq<nat> {
    seq(|pending|, i requires 0 <= i < |pending| => pending[i].call)
  }

  function PendingIds(pending: seq<Invocation>): seq<nat> {
    seq(|pending|, i requires 0 <= i < |pending| => pending[i].id)
  }

  ghost predicate GoodEntry(calls: seq<Call>, k: Key, proto: Prototype, e: Invocation) {
    && e.call < |calls|
    && var c := calls[e.call];
       && c.key == k && c.proto == proto && e.id == c.id && Addressed(proto.params, c.actuals)
       && e.addresses == AddressesOf(proto.params, c.actuals)
  }

  /** The invocation list of a stub: every entry is a call, and the entries are, in order,
      exactly the outstanding calls of the procedure. */
  ghost predicate StubOk(calls: seq<Call>, nos: seq<nat>, k: Key, stub: StubState) {
    && (forall e :: e in stub.pending ==> GoodEntry(calls, k, stub.proto, e))
    && PendingNos(stub.pending) == Of(calls, nos, k)
  }

  ghost predicate PendingOk(stubs: map<Key, StubState>, calls: seq<Call>, nos: seq<nat>) {
    && (forall k :: k in stubs ==> StubOk(calls, nos, k, stubs[k]))
    && (forall n :: n in nos ==> n < |calls| && calls[n].key in stubs)
  }

  ghost predicate Inv<W(!new)>(cfg: Config, s: System<W>) {
    && ChannelInv(UpChannel(cfg, s)) && ChannelInv(DownChannel(cfg, s))
    && LogInv(s)
  }

  function OutstandingIn<W>(s: System<W>): seq<nat> {
    Outstanding(|s.calls|, s.taken, s.served, |s.fired|, s.dropped)
  }

  /** The part that the turns of the transfer loops do not touch. */
  ghost predicate LogInv<W(!new)>(s: System<W>) {
    && CallsOk(s.calls) && |s.calls| == s.client.issued
    && StubsOk(s.client.stubs) && SkelsOk(s.server.skels)
    && ServedOk(s.calls, s.taken, s.served, s.origin, s.server.world)
    && AnsweredOk(s.taken, s.served, s.dropped) && DroppedOk(s.calls, s.dropped, s.server.skels)
    && FiredOk(s.served, s.fired)
    && PendingOk(s.client.stubs, s.calls, OutstandingIn(s))
  }

  lemma StartInv<W(!new)>(cfg: Config, s: System<W>)
    requires Sound(cfg) && Start(cfg, s)
    ensures Inv(cfg, s)
  {
    EmptyInv(cfg.cln.order);
    assert UpChannel(cfg, s) == Empty(cfg.cln.order);
    assert DownChannel(cfg, s) == Empty(cfg.cln.order);
    StartLog(cfg, s);
  }

  lemma StartLog<W(!new)>(cfg: Config, s: System<W>)
    requires Start(cfg, s)
    ensures LogInv(s)
  {
    assert OutstandingIn(s) == [];
  }

  lemma TurnInv<W(!new)>(cfg: Config, s: System<W>, dir: Direction, hop: Hop, s': System<W>)
    requires Inv(cfg, s) && TurnStep(cfg, s, dir, hop, s')
    ensures Inv(cfg, s')
  {
    match dir {
      case UP => HopInv(hop, UpChannel(cfg, s), UpChannel(cfg, s'));
      case DOWN => HopInv(hop, DownChannel(cfg, s), DownChannel(cfg, s'));
    }
  }

  // Sequences of calls.

  lemma {:induction false} OfConcat(calls: seq<Call>, a: seq<nat>, b: seq<nat>, k: Key)
    ensures Of(calls, a + b, k) == Of(calls, a, k) + Of(calls, b, k)
  {
    if a == [] {
      assert a + b == b;
    } else {
      assert (a + b)[1..] == a[1..] + b;
      OfConcat(calls, a[1..], b, k);
    }
  }

  lemma OfOne(calls: seq<Call>, n: nat, k: Key)
    requires n < |calls|
    ensures Of(calls, [n], k) == if calls[n].key == k then [n] else []
  {
    assert Of(calls, [n][1..], k) == [];
  }

  lemma {:induction false} OfNone(calls: seq<Call>, nos: seq<nat>, k: Key)
    requires forall n :: n in nos ==> n < |calls| && calls[n].key != k
    ensures Of(calls, nos, k) == []
  {
    if nos != [] {
      assert nos[0] in nos && forall n :: n in nos[1..] ==> n in nos;
      OfNone(calls, nos[1..], k);
    }
  }

  /** The calls of a procedure among more calls. */
  lemma {:induction false} OfGrows(calls: seq<Call>, c: Call, nos: seq<nat>, k: Key)
    requires forall n :: n in nos ==> n < |calls|
    ensures Of(calls + [c], nos, k) == Of(calls, nos, k)
  {
    if nos != [] {
      assert nos[0] in nos && forall n :: n in nos[1..] ==> n in nos;
      OfGrows(calls, c, nos[1..], k);
    }
  }

  lemma {:induction false} InOf(calls: seq<Call>, nos: seq<nat>, n: nat)
    requires n in nos && n < |calls|
    ensures n in Of(calls, nos, calls[n].key)
  {
    if nos[0] != n { InOf(calls, nos[1..], n); }
  }

  // Issuing a call.

  lemma RequestWellformed(cfg: Config, c: Call)
    requires GoodCall(c)
    ensures Wellformed(RequestOf(cfg, c))
  {
    KeyFacts(c.proto, c.proto);
    EncodeArgsLength(cfg.cln, c.proto.params, c.vals);
  }

  lemma GoodNewCall(c: Client, r: Request)
    requires StubsOk(c.stubs) && Accepted(c, r)
    ensures GoodCall(CallOf(c, r))
  {
  }

  lemma AsyncChannels<W(!new)>(cfg: Config, s: System<W>, r: Request)
    requires ChannelInv(UpChannel(cfg, s)) && StubsOk(s.client.stubs) && Accepted(s.client, r)
    ensures ChannelInv(UpChannel(cfg, AsyncStep(cfg, s, r)))
    ensures DownChannel(cfg, AsyncStep(cfg, s, r)) == DownChannel(cfg, s)
  {
    var call, up := CallOf(s.client, r), UpChannel(cfg, s);
    GoodNewCall(s.client, r);
    RequestWellformed(cfg, call);
    PushInv(up, RequestOf(cfg, call));
    AsyncPushes(cfg, s, r);
  }

  lemma AsyncPushes<W>(cfg: Config, s: System<W>, r: Request)
    requires StubsOk(s.client.stubs) && Accepted(s.client, r)
    ensures UpChannel(cfg, AsyncStep(cfg, s, r)) == Push(UpChannel(cfg, s), RequestOf(cfg, CallOf(s.client, r)))
  {
    var call := CallOf(s.client, r);
    SerializedBytes(cfg.cln, call.proto.params, r.actuals, s.client.mem);
    assert Requests(cfg, s.calls + [call]) == Requests(cfg, s.calls) + [RequestOf(cfg, call)];
  }

  lemma OutstandingGrows<W>(n: nat, taken: nat, served: seq<Served<W>>, nf: nat, dropped: seq<nat>)
    requires taken <= n
    ensures Outstanding(n + 1, taken, served, nf, dropped) == Outstanding(n, taken, served, nf, dropped) + [n]
  {
    assert RequestNos(taken, n + 1) == RequestNos(taken, n) + [n];
  }

  lemma EntriesKept(calls: seq<Call>, c: Call, k: Key, stub: StubState)
    requires forall e :: e in stub.pending ==> GoodEntry(calls, k, stub.proto, e)
    ensures forall e :: e in stub.pending ==> GoodEntry(calls + [c], k, stub.proto, e)
  {
  }

  lemma OtherStubKept(calls: seq<Call>, nos: seq<nat>, k: Key, stub: StubState, c: Call)
    requires StubOk(calls, nos, k, stub) && c.key != k && forall n :: n in nos ==> n < |calls|
    ensures StubOk(calls + [c], nos + [|calls|], k, stub)
  {
    EntriesKept(calls, c, k, stub);
    OfGrows(calls, c, nos, k);
    OfConcat(calls + [c], nos, [|calls|], k);
    OfOne(calls + [c], |calls|, k);
  }

  lemma OwnStubGrows(calls: seq<Call>, nos: seq<nat>, stub: StubState, c: Call, n: nat)
    requires StubOk(calls, nos, c.key, stub) && GoodCall(c) && c.proto == stub.proto
    requires forall n :: n in nos ==> n < |calls|
    ensures StubOk(calls + [c], nos + [|calls|], c.key,
                   StubState(stub.proto, n, stub.pending + [Invocation(c.id, AddressesOf(c.proto.params, c.actuals), |calls|)]))
  {
    var e := Invocation(c.id, AddressesOf(c.proto.params, c.actuals), |calls|);
    EntriesKept(calls, c, c.key, stub);
    OfGrows(calls, c, nos, c.key);
    OfConcat(calls + [c], nos, [|calls|], c.key);
    OfOne(calls + [c], |calls|, c.key);
    assert PendingNos(stub.pending + [e]) == PendingNos(stub.pending) + [|calls|];
    hide GoodCall, Of, AddressesOf;
    assert GoodEntry(calls + [c], c.key, stub.proto, e);
  }

  lemma PendingGrows(stubs: map<Key, StubState>, calls: seq<Call>, nos: seq<nat>, c: Call, n: nat)
    requires PendingOk(stubs, calls, nos) && c.key in stubs && GoodCall(c) && c.proto == stubs[c.key].proto
    ensures var e := Invocation(c.id, AddressesOf(c.proto.params, c.actuals), |calls|);
            PendingOk(stubs[c.key := StubState(c.proto, n, stubs[c.key].pending + [e])], calls + [c], nos + [|calls|])
  {
    var e := Invocation(c.id, AddressesOf(c.proto.params, c.actuals), |calls|);
    hide StubOk, GoodCall;
    var stubs' := stubs[c.key := StubState(c.proto, n, stubs[c.key].pending + [e])];
    forall k | k in stubs' ensures StubOk(calls + [c], nos + [|calls|], k, stubs'[k]) {
      if k == c.key {
        OwnStubGrows(calls, nos, stubs[k], c, n);
      } else {
        OtherStubKept(calls, nos, k, stubs[k], c);
      }
    }
  }

  lemma AsyncPending<W(!new)>(cfg: Config, s: System<W>, r: Request)
    requires LogInv(s) && Accepted(s.client, r)
    ensures var s' := AsyncStep(cfg, s, r); PendingOk(s'.client.stubs, s'.calls, OutstandingIn(s'))
  {
    var call := CallOf(s.client, r);
    GoodNewCall(s.client, r);
    SerializedAddresses(cfg.cln, call.proto.params, r.actuals, s.client.mem);
    OutstandingGrows(|s.calls|, s.taken, s.served, |s.fired|, s.dropped);
    PendingGrows(s.client.stubs, s.calls, OutstandingIn(s), call, call.id);
    hide Outstanding, PendingOk, AnsweredOk, DroppedOk, FiredOk, WorldsOk, NumbersOk, SkelsOk, CallsOk, StubsOk, GoodCall, AddressesOf, SerializeArgs;
  }

  lemma ServedKept<W(!new)>(calls: seq<Call>, taken: nat, served: seq<Served<W>>, origin: W, world: W, c: Call)
    requires ServedOk(calls, taken, served, origin, world)
    ensures ServedOk(calls + [c], taken, served, origin, world)
  {
    forall j | 0 <= j < |served| ensures GoodServed(calls + [c], served[j]) && served[j].no < taken {
      assert GoodServed(calls, served[j]);
    }
  }

  lemma AsyncStubs(cfg: Config, c: Client, r: Request)
    requires StubsOk(c.stubs)
    ensures StubsOk(Issue(cfg, c, r).stubs)
  {
  }

  lemma AsyncInv<W(!new)>(cfg: Config, s: System<W>, r: Request)
    requires Inv(cfg, s)
    ensures Inv(cfg, AsyncStep(cfg, s, r))
  {
    if Accepted(s.client, r) {
      AsyncChannels(cfg, s, r);
      AsyncLog(cfg, s, r);
    }
  }

  lemma AsyncLog<W(!new)>(cfg: Config, s: System<W>, r: Request)
    requires LogInv(s) && Accepted(s.client, r)
    ensures LogInv(AsyncStep(cfg, s, r))
  {
    hide StubsOk, SkelsOk, ServedOk, AnsweredOk, FiredOk, PendingOk, GoodCall, Outstanding;
    var call := CallOf(s.client, r);
    GoodNewCall(s.client, r);
    AsyncStubs(cfg, s.client, r);
    ServedKept(s.calls, s.taken, s.served, s.origin, s.server.world, call);
    AsyncPending(cfg, s, r);
  }

  // Serving a request.

  /** The oldest request in the inbox is the next call that was not yet taken. */
  lemma OldestRequest<W(!new)>(cfg: Config, s: System<W>)
    requires ChannelInv(UpChannel(cfg, s)) && s.server.rx.inbox != []
    ensures s.taken < |s.calls| && s.server.rx.inbox[0] == RequestOf(cfg, s.calls[s.taken])
  {
    var up := UpChannel(cfg, s);
    assert up.rx.inbox[0] == up.pushed[up.popped];
  }

  /** The skeleton found for a request has the prototype of the call. */
  lemma SameProcedure<W(!new)>(c: Call, skels: map<Key, Option<SkeletonState<W>>>)
    requires GoodCall(c) && SkelsOk(skels) && c.key in skels && skels[c.key].Some?
    ensures skels[c.key].value.proto == c.proto
  {
    KeyFacts(c.proto, skels[c.key].value.proto);
  }

  /** A request for a registered procedure is served as a local call of the function. */
  lemma ServedAsCall<W(!new)>(cfg: Config, c: Call, no: nat, k: SkeletonState<W>, world: W)
    requires Sound(cfg) && GoodCall(c) && k.proto == c.proto && Typed(k.proto, k.f)
    ensures var x := Served(no, c, k.f, world);
            && Perform(cfg.srv, k.proto, k.f, world, RequestOf(cfg, c).value) == Some((Result(x).world, ReplyOf(cfg, x).value))
            && Wellformed(ReplyOf(cfg, x))
  {
    PerformIsCall(cfg.cln, cfg.srv, k.proto, k.f, world, c.vals);
    KeyFacts(c.proto, c.proto);
    var out, format := k.f(world, WireAll(c.vals)), InFormat(c.proto.params);
    EncodeOutsLength(cfg.srv, format, out.args);
    assert |format| == |c.proto.params|;
  }

  /** Serving never runs into undefined behaviour. */
  lemma ServeDefined<W(!new)>(cfg: Config, s: System<W>)
    requires Sound(cfg) && Inv(cfg, s) && s.server.rx.inbox != []
    ensures ServeNext(cfg, s.server).Some?
  {
    hide ChannelInv, StubsOk, ServedOk, AnsweredOk, DroppedOk, FiredOk, PendingOk, Perform, Connectable, Requests, Replies;
    OldestRequest(cfg, s);
    var c := s.calls[s.taken];
    if !Drops(s.server, c.key) {
      SameProcedure(c, s.server.skels);
      ServedAsCall(cfg, c, s.taken, s.server.skels[c.key].value, s.server.world);
    }
  }

  lemma RequestHead(taken: nat, n: nat)
    requires taken < n
    ensures RequestNos(taken, n) == [taken] + RequestNos(taken + 1, n)
  {
  }

  lemma {:induction false} ReplyGrows<W>(served: seq<Served<W>>, nf: nat, x: Served<W>)
    requires nf <= |served|
    ensures ReplyNos(served + [x], nf) == ReplyNos(served, nf) + [x.no]
    decreases |served| - nf
  {
    if nf < |served| {
      ReplyGrows(served, nf + 1, x);
    } else {
      assert ReplyNos(served + [x], nf + 1) == [];
    }
  }

  /** A dropped request stays outstanding, where it was. */
  lemma OutstandingDropped<W>(n: nat, taken: nat, served: seq<Served<W>>, nf: nat, dropped: seq<nat>)
    requires taken < n
    ensures Outstanding(n, taken + 1, served, nf, dropped + [taken]) == Outstanding(n, taken, served, nf, dropped)
  {
    RequestHead(taken, n);
    hide RequestNos, ReplyNos;
    var a, w := ReplyNos(served, nf), RequestNos(taken + 1, n);
    assert a + (dropped + [taken]) + w == a + dropped + ([taken] + w);
  }

  /** A request that is answered passes the dropped ones, which are of other procedures. */
  lemma OutstandingServed<W>(calls: seq<Call>, taken: nat, served: seq<Served<W>>, nf: nat, dropped: seq<nat>, x: Served<W>, k: Key)
    requires taken < |calls| && nf <= |served| && x.no == taken
    requires forall d :: d in dropped ==> d < |calls| && calls[d].key != calls[taken].key
    ensures Of(calls, Outstanding(|calls|, taken + 1, served + [x], nf, dropped), k) ==
            Of(calls, Outstanding(|calls|, taken, served, nf, dropped), k)
  {
    RequestHead(taken, |calls|);
    ReplyGrows(served, nf, x);
    hide RequestNos, ReplyNos;
    var a, w, t := ReplyNos(served, nf), RequestNos(taken + 1, |calls|), [taken];
    if k == calls[taken].key {
      OfNone(calls, dropped, k);
    }
    OfOne(calls, taken, k);
    Passed(calls, a, t, dropped, w, k);
  }

  lemma Passed(calls: seq<Call>, a: seq<nat>, t: seq<nat>, d: seq<nat>, w: seq<nat>, k: Key)
    requires Of(calls, t, k) == [] || Of(calls, d, k) == []
    ensures Of(calls, (a + t) + d + w, k) == Of(calls, a + d + (t + w), k)
  {
    OfConcat(calls, a + t + d, w, k);
    OfConcat(calls, a + t, d, k);
    OfConcat(calls, a, t, k);
    OfConcat(calls, a + d, t + w, k);
    OfConcat(calls, a, d, k);
    OfConcat(calls, t, w, k);
    hide Of;
    var oa, od, ot, ow := Of(calls, a, k), Of(calls, d, k), Of(calls, t, k), Of(calls, w, k);
    assert oa + ot + od + ow == oa + od + (ot + ow);
  }

  lemma PendingServed<W(!new)>(stubs: map<Key, StubState>, calls: seq<Call>, taken: nat, served: seq<Served<W>>, nf: nat,
                               dropped: seq<nat>, x: Served<W>)
    requires taken < |calls| && nf <= |served| && x.no == taken
    requires forall d :: d in dropped ==> d < |calls| && calls[d].key != calls[taken].key
    requires PendingOk(stubs, calls, Outstanding(|calls|, taken, served, nf, dropped))
    ensures PendingOk(stubs, calls, Outstanding(|calls|, taken + 1, served + [x], nf, dropped))
  {
    var nos, nos' := Outstanding(|calls|, taken, served, nf, dropped), Outstanding(|calls|, taken + 1, served + [x], nf, dropped);
    forall k | k in stubs ensures StubOk(calls, nos', k, stubs[k]) {
      hide Outstanding, Of;
      assert StubOk(calls, nos, k, stubs[k]);
      OutstandingServed(calls, taken, served, nf, dropped, x, k);
    }
    RequestHead(taken, |calls|);
    ReplyGrows(served, nf, x);
    hide RequestNos, ReplyNos, StubOk;
    assert forall n :: n in nos' ==> n in nos;
  }

  lemma NumbersGrow<W(!new)>(calls: seq<Call>, taken: nat, served: seq<Served<W>>, x: Served<W>)
    requires NumbersOk(calls, taken, served) && taken < |calls| && GoodServed(calls, x) && x.no == taken
    ensures NumbersOk(calls, taken + 1, served + [x])
  {
    hide GoodServed;
  }

  lemma WorldsGrow<W(!new)>(served: seq<Served<W>>, origin: W, world: W, x: Served<W>)
    requires WorldsOk(served, origin, world) && x.world == world
    ensures WorldsOk(served + [x], origin, Result(x).world)
  {
    hide Result;
    var served' := served + [x];
    forall j | 0 <= j < |served'| ensures served'[j].world == WorldAt(origin, served', j) {
      assert WorldAt(origin, served', j) == WorldAt(origin, served, j);
    }
  }

  lemma AnsweredGrows<W(!new)>(taken: nat, served: seq<Served<W>>, dropped: seq<nat>, x: Served<W>)
    requires AnsweredOk(taken, served, dropped) && x.no == taken
    ensures AnsweredOk(taken + 1, served + [x], dropped)
  {
    var served' := served + [x];
    forall i | 0 <= i < taken + 1 ensures WasServed(served', i) <==> i !in dropped {
      if i < taken {
        assert WasServed(served, i) <==> i !in dropped;
        if WasServed(served, i) {
          var j :| 0 <= j < |served| && served[j].no == i;
          assert served'[j].no == i;
        }
      } else {
        assert served'[|served|].no == i;
      }
    }
  }

  lemma AnsweredDrops<W(!new)>(calls: seq<Call>, taken: nat, served: seq<Served<W>>, dropped: seq<nat>)
    requires AnsweredOk(taken, served, dropped) && NumbersOk(calls, taken, served)
    requires taken < |calls|
    ensures AnsweredOk(taken + 1, served, dropped + [taken]) && NumbersOk(calls, taken + 1, served)
  {
    hide GoodServed;
  }

  lemma FiredKept<W(!new)>(served: seq<Served<W>>, fired: seq<Completion>, x: Served<W>)
    requires FiredOk(served, fired)
    ensures FiredOk(served + [x], fired)
  {
    hide ReturnOf;
  }

  lemma DropLog<W(!new)>(s: System<W>, v: Server<W>)
    requires LogInv(s) && s.taken < |s.calls| && SkelsOk(v.skels) && v.world == s.server.world
    requires Drops(s.server, s.calls[s.taken].key) && v.skels == s.server.skels[s.calls[s.taken].key := None]
    ensures LogInv(DropRequest(s, v))
  {
    hide CallsOk, StubsOk, SkelsOk, NumbersOk, WorldsOk, AnsweredOk, FiredOk, PendingOk, Outstanding;
    AnsweredDrops(s.calls, s.taken, s.served, s.dropped);
    OutstandingDropped(|s.calls|, s.taken, s.served, |s.fired|, s.dropped);
  }

  lemma AnswerLog<W(!new)>(s: System<W>, v: Server<W>, f: Impl<W>)
    requires LogInv(s) && s.taken < |s.calls| && v.skels == s.server.skels && !Drops(s.server, s.calls[s.taken].key)
    requires GoodServed(s.calls, Served(s.taken, s.calls[s.taken], f, s.server.world))
    requires v.world == Result(Served(s.taken, s.calls[s.taken], f, s.server.world)).world
    ensures LogInv(AnswerRequest(s, v, f))
  {
    hide CallsOk, StubsOk, SkelsOk, NumbersOk, WorldsOk, AnsweredOk, PendingOk, GoodServed, Result, ReturnOf, Outstanding;
    var x := Served(s.taken, s.calls[s.taken], f, s.server.world);
    NumbersGrow(s.calls, s.taken, s.served, x);
    WorldsGrow(s.served, s.origin, s.server.world, x);
    AnsweredGrows(s.taken, s.served, s.dropped, x);
    FiredKept(s.served, s.fired, x);
    PendingServed(s.client.stubs, s.calls, s.taken, s.served, |s.fired|, s.dropped, x);
  }

  /** What a served request does to the server. */
  lemma ServeEffect<W(!new)>(cfg: Config, s: System<W>)
    requires Sound(cfg) && LogInv(s) && s.server.rx.inbox != [] && s.taken < |s.calls|
    requires s.server.rx.inbox[0] == RequestOf(cfg, s.calls[s.taken]) && !Drops(s.server, s.calls[s.taken].key)
    ensures var c := s.calls[s.taken];
            var k := s.server.skels[c.key].value;
            var x := Served(s.taken, c, k.f, s.server.world);
            && Wellformed(ReplyOf(cfg, x)) && GoodServed(s.calls, x)
            && ServeNext(cfg, s.server) == Some(s.server.(world := Result(x).world,
                 tx := s.server.tx.(queue := s.server.tx.queue + [ReplyOf(cfg, x)]),
                 rx := s.server.rx.(inbox := s.server.rx.inbox[1..])))
  {
    var c := s.calls[s.taken];
    SameProcedure(c, s.server.skels);
    ServedAsCall(cfg, c, s.taken, s.server.skels[c.key].value, s.server.world);
  }

  lemma SkelsAfterDrop<W(!new)>(skels: map<Key, Option<SkeletonState<W>>>, k: Key)
    requires SkelsOk(skels)
    ensures SkelsOk(skels[k := None])
  {
    hide GoodSkel;
  }

  /** What serving does to the two channels: the oldest request is taken, and the reply, if
      there is one, is queued. */
  lemma ServeChannels<W(!new)>(cfg: Config, s: System<W>, s': System<W>)
    requires Sound(cfg) && Inv(cfg, s) && ServeStep(cfg, s, s')
    ensures s.taken < |s.calls| && s.server.rx.inbox[0].name == s.calls[s.taken].key
    ensures s.server.rx.inbox != [] && UpChannel(cfg, s') == Pop(UpChannel(cfg, s))
    ensures var c := s.calls[s.taken];
            if Drops(s.server, c.key) then
              s' == DropRequest(s, s'.server) && s'.server == s.server.(skels := s.server.skels[c.key := None], rx := s'.server.rx)
              && DownChannel(cfg, s') == DownChannel(cfg, s)
            else
              var f := s.server.skels[c.key].value.f;
              var x := Served(s.taken, c, f, s.server.world);
              && s' == AnswerRequest(s, s'.server, f) && GoodServed(s.calls, x) && Wellformed(ReplyOf(cfg, x))
              && s'.server.world == Result(x).world && s'.server.skels == s.server.skels
              && DownChannel(cfg, s') == Push(DownChannel(cfg, s), ReplyOf(cfg, x))
  {
    hide CallsOk, StubsOk, SkelsOk, ServedOk, AnsweredOk, FiredOk, PendingOk, DroppedOk, Outstanding;
    hide ChannelInv, RequestOf, Perform, Requests, Replies, GoodServed, Result, ReplyOf;
    OldestRequest(cfg, s);
    assert s.server.rx.inbox[0].name == s.calls[s.taken].key by { RequestName(cfg, s.calls[s.taken]); }
    if !Drops(s.server, s.calls[s.taken].key) {
      ServeEffect(cfg, s);
      hide ServeNext;
      RepliesGrow(cfg, s.served, Served(s.taken, s.calls[s.taken], s.server.skels[s.calls[s.taken].key].value.f, s.server.world));
    }
  }

  lemma ServeInv<W(!new)>(cfg: Config, s: System<W>, s': System<W>)
    requires Sound(cfg) && Inv(cfg, s) && ServeStep(cfg, s, s')
    ensures Inv(cfg, s')
  {
    hide CallsOk, StubsOk, SkelsOk, ServedOk, AnsweredOk, FiredOk, PendingOk, DroppedOk, Outstanding;
    hide ChannelInv, RequestOf, Perform, Requests, Replies, GoodServed, Result, ReplyOf;
    ServeChannels(cfg, s, s');
    hide ServeStep, ServeNext;
    var c := s.calls[s.taken];
    PopInv(UpChannel(cfg, s));
    if Drops(s.server, c.key) {
      SkelsAfterDrop(s.server.skels, c.key);
      DropLog(s, s'.server);
    } else {
      var f := s.server.skels[c.key].value.f;
      AnswerLog(s, s'.server, f);
      PushInv(DownChannel(cfg, s), ReplyOf(cfg, Served(s.taken, c, f, s.server.world)));
    }
  }

  lemma RequestName(cfg: Config, c: Call)
    ensures RequestOf(cfg, c).name == c.key && RequestOf(cfg, c).id == c.id
  {
  }

  lemma RepliesGrow<W>(cfg: Config, served: seq<Served<W>>, x: Served<W>)
    ensures Replies(cfg, served + [x]) == Replies(cfg, served) + [ReplyOf(cfg, x)]
  {
  }

  // Dispatching a reply.

  /** The oldest reply in the inbox is the answer to the next served request. */
  lemma OldestReply<W(!new)>(cfg: Config, s: System<W>)
    requires ChannelInv(DownChannel(cfg, s)) && s.client.rx.inbox != []
    ensures |s.fired| < |s.served| && s.client.rx.inbox[0] == ReplyOf(cfg, s.served[|s.fired|])
  {
    var down := DownChannel(cfg, s);
    assert down.rx.inbox[0] == down.pushed[down.popped];
  }

  lemma ReplyName<W>(cfg: Config, x: Served<W>)
    ensures ReplyOf(cfg, x).name == x.call.key && ReplyOf(cfg, x).id == x.call.id
  {
  }

  /** The oldest reply under way belongs to the first entry of its stub. */
  lemma FirstEntry<W(!new)>(calls: seq<Call>, taken: nat, served: seq<Served<W>>, nf: nat, dropped: seq<nat>, stub: StubState)
    requires nf < |served| && GoodServed(calls, served[nf])
    requires StubOk(calls, Outstanding(|calls|, taken, served, nf, dropped), served[nf].call.key, stub)
    ensures stub.pending != [] && stub.pending[0].call == served[nf].no && GoodEntry(calls, served[nf].call.key, stub.proto, stub.pending[0])
    ensures Find(stub.pending, served[nf].call.id) == 0
  {
    hide GoodCall;
    var nos, n := Outstanding(|calls|, taken, served, nf, dropped), served[nf].no;
    assert nos[0] == n;
    assert Of(calls, nos, calls[n].key)[0] == n;
    assert PendingNos(stub.pending)[0] == n;
    assert stub.pending[0] in stub.pending;
    assert GoodEntry(calls, served[nf].call.key, stub.proto, stub.pending[0]);
  }

  /** What the client makes of the oldest reply: it matches the first entry of its stub, which
      is that of its own call, and what is stored and returned is that of the remote call. */
  lemma MatchedReply<W(!new)>(cfg: Config, s: System<W>)
    requires Sound(cfg) && Inv(cfg, s) && s.client.rx.inbox != []
    ensures |s.fired| < |s.served|
    ensures var x := s.served[|s.fired|];
            var k := x.call.key;
            && s.client.rx.inbox[0].name == k && s.client.rx.inbox[0].id == x.call.id && k in s.client.stubs
            && s.client.stubs[k].pending != [] && s.client.stubs[k].pending[0].call == x.no
            && Addressed(x.call.proto.params, x.call.actuals)
            && Matched(cfg, s.client) == Some((0, ReturnOf(x), Stored(x, s.client.mem)))
  {
    hide ChannelInv, Find, WireAll, Accept, KeyOf, AnsweredOk, WorldsOk, SkelsOk, FiredOk, Of, Stored;
    OldestReply(cfg, s);
    var x := s.served[|s.fired|];
    var k := x.call.key;
    ReplyName(cfg, x);
    assert GoodServed(s.calls, x);
    var nos := OutstandingIn(s);
    assert nos[0] == x.no && nos[0] in nos;
    var stub := s.client.stubs[k];
    assert StubOk(s.calls, nos, k, stub);
    FirstEntry(s.calls, s.taken, s.served, |s.fired|, s.dropped, stub);
    KeyFacts(x.call.proto, stub.proto);
    AcceptsReply(cfg, x, s.client.mem);
  }

  /** The variables after the results of a served request were stored in them. */
  function Stored<W>(x: Served<W>, mem: Store): Store
    requires Addressed(x.call.proto.params, x.call.actuals)
  {
    RemoteCall(x.call.proto, x.f, x.world, x.call.vals, x.call.actuals, mem).2
  }

  lemma AcceptsReply<W(!new)>(cfg: Config, x: Served<W>, mem: Store)
    requires Sound(cfg) && GoodCall(x.call) && Typed(x.call.proto, x.f)
    ensures var params, actuals := x.call.proto.params, x.call.actuals;
            Accept(cfg.cln, x.call.proto, ReplyOf(cfg, x).value, AddressesOf(params, actuals), mem) ==
            Some((ReturnOf(x), Stored(x, mem)))
  {
    var p := x.call.proto;
    PerformIsCall(cfg.cln, cfg.srv, p, x.f, x.world, x.call.vals);
    hide Accept, AddressesOf, Outs, StoreAll, EncodeReply, WireAll, FitFormat;
    ReplyRoundTrip(cfg.srv, cfg.cln, p, Result(x).ret, Result(x).args, x.call.actuals, mem);
  }

  // Erasing the entry.

  lemma OutstandingTail<W>(n: nat, taken: nat, served: seq<Served<W>>, nf: nat, dropped: seq<nat>)
    requires nf < |served|
    ensures Outstanding(n, taken, served, nf, dropped) == [served[nf].no] + Outstanding(n, taken, served, nf + 1, dropped)
  {
    hide RequestNos;
    assert ReplyNos(served, nf) == [served[nf].no] + ReplyNos(served, nf + 1);
  }

  lemma FinishPending(stubs: map<Key, StubState>, calls: seq<Call>, n: nat, nos: seq<nat>)
    requires PendingOk(stubs, calls, [n] + nos) && n < |calls| && calls[n].key in stubs
    ensures var k := calls[n].key;
            PendingOk(stubs[k := stubs[k].(pending := Erase(stubs[k].pending, 0))], calls, nos)
  {
    var key := calls[n].key;
    var stubs' := stubs[key := stubs[key].(pending := Erase(stubs[key].pending, 0))];
    forall k | k in stubs' ensures StubOk(calls, nos, k, stubs'[k]) {
      hide GoodEntry;
      assert StubOk(calls, [n] + nos, k, stubs[k]);
      OfConcat(calls, [n], nos, k);
      OfOne(calls, n, k);
      if k == key {
        var p := stubs[k].pending;
        assert |PendingNos(p)| == |p| > 0;
        assert Erase(p, 0) == p[1..] && PendingNos(p[1..]) == PendingNos(p)[1..];
      }
    }
    hide StubOk;
    assert forall i :: i in nos ==> i in [n] + nos;
  }

  lemma FiredGrows<W(!new)>(served: seq<Served<W>>, fired: seq<Completion>, f: Completion)
    requires FiredOk(served, fired) && |fired| < |served| && f == Completion(served[|fired|].no, ReturnOf(served[|fired|]))
    ensures FiredOk(served, fired + [f])
  {
    hide ReturnOf;
  }

  lemma StubsAfterErase(stubs: map<Key, StubState>, k: Key, pending: seq<Invocation>)
    requires StubsOk(stubs) && k in stubs
    ensures StubsOk(stubs[k := stubs[k].(pending := pending)])
  {
    hide Connectable, KeyOf;
  }

  lemma FinishInv<W(!new)>(cfg: Config, s: System<W>)
    requires Inv(cfg, s) && s.client.rx.inbox != [] && |s.fired| < |s.served|
    requires s.client.rx.inbox[0] == ReplyOf(cfg, s.served[|s.fired|])
    requires var x := s.served[|s.fired|];
             && x.call.key in s.client.stubs
             && var pending := s.client.stubs[x.call.key].pending; pending != [] && pending[0].call == x.no
    ensures var x := s.served[|s.fired|]; Inv(cfg, FinishDispatch(s, x.call.key, 0, ReturnOf(x)))
  {
    var x := s.served[|s.fired|];
    var k := x.call.key;
    assert GoodServed(s.calls, x);
    hide CallsOk, StubsOk, SkelsOk, ServedOk, AnsweredOk, FiredOk, PendingOk, DroppedOk, ChannelInv, Requests, Replies, ReturnOf, Erase, Outstanding;
    var stub := s.client.stubs[k];
    PopInv(DownChannel(cfg, s));
    OutstandingTail(|s.calls|, s.taken, s.served, |s.fired|, s.dropped);
    FinishPending(s.client.stubs, s.calls, x.no, Outstanding(|s.calls|, s.taken, s.served, |s.fired| + 1, s.dropped));
    FiredGrows(s.served, s.fired, Completion(x.no, ReturnOf(x)));
    StubsAfterErase(s.client.stubs, k, Erase(stub.pending, 0));
    var s' := FinishDispatch(s, k, 0, ReturnOf(x));
    assert UpChannel(cfg, s') == UpChannel(cfg, s);
    assert DownChannel(cfg, s') == Pop(DownChannel(cfg, s));
  }

  /** What a callback issues is appended: to the calls, and to the invocation lists. */
  ghost predicate Extends<W(!new)>(s: System<W>, s': System<W>) {
    && s'.client.rx == s.client.rx && s'.client.mem == s.client.mem && s'.server == s.server
    && s'.served == s.served && s'.fired == s.fired && s'.dropped == s.dropped && s'.taken == s.taken
    && s'.up == s.up && s'.down == s.down && s'.origin == s.origin
    && s.calls <= s'.calls
    && forall k :: k in s.client.stubs ==>
         k in s'.client.stubs && s.client.stubs[k].pending <= s'.client.stubs[k].pending
  }

  lemma AsyncExtends<W(!new)>(cfg: Config, s: System<W>, r: Request)
    ensures Extends(s, AsyncStep(cfg, s, r))
  {
    hide WellCalled, SerializeArgs, ReadAll;
  }

  lemma ExtendsTransitive<W(!new)>(a: System<W>, b: System<W>, c: System<W>)
    requires Extends(a, b) && Extends(b, c)
    ensures Extends(a, c)
  {
  }

  lemma {:induction false} AsyncStepsInv<W(!new)>(cfg: Config, s: System<W>, rs: seq<Request>)
    requires Inv(cfg, s)
    ensures Inv(cfg, AsyncSteps(cfg, s, rs)) && Extends(s, AsyncSteps(cfg, s, rs))
    ensures AsyncSteps(cfg, s, rs).client == IssueAll(cfg, s.client, rs)
  {
    hide Inv, Extends, AsyncStep, Issue;
    if rs == [] {
      assert Extends(s, s) by { ExtendsReflexive(s); }
    } else {
      var s1 := AsyncSteps(cfg, s, rs[..|rs| - 1]);
      AsyncStepsInv(cfg, s, rs[..|rs| - 1]);
      AsyncInv(cfg, s1, rs[|rs| - 1]);
      AsyncExtends(cfg, s1, rs[|rs| - 1]);
      ExtendsTransitive(s, s1, AsyncStep(cfg, s1, rs[|rs| - 1]));
      AsyncClient(cfg, s1, rs[|rs| - 1]);
    }
  }

  lemma ExtendsReflexive<W(!new)>(s: System<W>)
    ensures Extends(s, s)
  {
  }

  lemma AsyncClient<W(!new)>(cfg: Config, s: System<W>, r: Request)
    ensures AsyncStep(cfg, s, r).client == Issue(cfg, s.client, r)
  {
  }
}
