/** What a run means for the users of the client: calls are matched in order, a remote call
    is a local call, and no call is answered twice. */
module Theorems {
  import opened Bytes
  import opened Frame
  import opened Marshaller
  import opened ChannelModule
  import opened Peers
  import opened Protocol
  import opened Invariant
  import opened Runs

  // In-order matching.

  /** The ids of the messages for a procedure, in order. */
  function IdsFor(ms: seq<Message>, k: Key): seq<nat> {
    if ms == [] then []
    else if ms[0].name == k then [ms[0].id] + IdsFor(ms[1..], k)
    else IdsFor(ms[1..], k)
  }

  /** The ids of calls. */
  function IdsAt(calls: seq<Call>, nos: seq<nat>): seq<nat> {
    seq(|nos|, i requires 0 <= i < |nos| => if nos[i] < |calls| then calls[nos[i]].id else 0)
  }

  /** The messages are those of the calls. */
  ghost predicate Matches(calls: seq<Call>, nos: seq<nat>, ms: seq<Message>) {
    && |nos| == |ms|
    && forall i :: 0 <= i < |nos| ==> nos[i] < |calls| && ms[i].name == calls[nos[i]].key && ms[i].id == calls[nos[i]].id
  }

  lemma {:induction false} MatchingIds(calls: seq<Call>, nos: seq<nat>, ms: seq<Message>, k: Key)
    requires Matches(calls, nos, ms)
    ensures IdsAt(calls, Of(calls, nos, k)) == IdsFor(ms, k)
  {
    if nos != [] {
      MatchingIds(calls, nos[1..], ms[1..], k);
      var rest := Of(calls, nos[1..], k);
      IdsAtConcat(calls, [nos[0]], rest);
      assert IdsAt(calls, [nos[0]]) == [calls[nos[0]].id];
    }
  }

  lemma IdsAtConcat(calls: seq<Call>, a: seq<nat>, b: seq<nat>)
    ensures IdsAt(calls, a + b) == IdsAt(calls, a) + IdsAt(calls, b)
  {
  }

  lemma {:induction false} ReplyAt<W>(served: seq<Served<W>>, nf: nat, i: nat)
    requires nf <= |served|
    ensures |ReplyNos(served, nf)| == |served| - nf
    ensures i < |served| - nf ==> ReplyNos(served, nf)[i] == served[nf + i].no
    decreases |served| - nf
  {
    if nf < |served| { ReplyAt(served, nf + 1, if i > 0 then i - 1 else 0); }
  }

  lemma RepliesMatch<W(!new)>(cfg: Config, s: System<W>)
    requires NumbersOk(s.calls, s.taken, s.served) && |s.fired| <= |s.served|
    ensures Matches(s.calls, ReplyNos(s.served, |s.fired|), InFlight(DownChannel(cfg, s)))
  {
    var nf, ms := |s.fired|, InFlight(DownChannel(cfg, s));
    hide ReplyOf, ReplyNos, NumbersOk, InFlight, Replies;
    ReplyAt(s.served, nf, 0);
    RepliesInFlight(cfg, s);
    forall i | 0 <= i < |s.served| - nf
      ensures var no := ReplyNos(s.served, nf)[i]; no < |s.calls| && ms[i].name == s.calls[no].key && ms[i].id == s.calls[no].id
    {
      ReplyAt(s.served, nf, i);
      ServedNo(s.calls, s.taken, s.served, nf + i);
      ReplyName(cfg, s.served[nf + i]);
    }
  }

  lemma ServedNo<W(!new)>(calls: seq<Call>, taken: nat, served: seq<Served<W>>, j: nat)
    requires NumbersOk(calls, taken, served) && j < |served|
    ensures served[j].no < |calls| && served[j].call == calls[served[j].no]
  {
    assert GoodServed(calls, served[j]);
  }

  lemma RepliesInFlight<W(!new)>(cfg: Config, s: System<W>)
    requires |s.fired| <= |s.served|
    ensures |InFlight(DownChannel(cfg, s))| == |s.served| - |s.fired|
    ensures forall i :: 0 <= i < |s.served| - |s.fired| ==> InFlight(DownChannel(cfg, s))[i] == ReplyOf(cfg, s.served[|s.fired| + i])
  {
    hide ReplyOf;
  }

  lemma RequestsMatch<W(!new)>(cfg: Config, s: System<W>)
    requires s.taken <= |s.calls|
    ensures Matches(s.calls, RequestNos(s.taken, |s.calls|), InFlight(UpChannel(cfg, s)))
  {
    hide RequestOf;
    forall i | s.taken <= i < |s.calls| ensures RequestOf(cfg, s.calls[i]).name == s.calls[i].key && RequestOf(cfg, s.calls[i]).id == s.calls[i].id {
      RequestName(cfg, s.calls[i]);
    }
  }

  lemma EntryIds(calls: seq<Call>, k: Key, stub: StubState)
    requires forall e :: e in stub.pending ==> GoodEntry(calls, k, stub.proto, e)
    ensures PendingIds(stub.pending) == IdsAt(calls, PendingNos(stub.pending))
  {
    forall i | 0 <= i < |stub.pending| ensures stub.pending[i].call < |calls| && stub.pending[i].id == calls[stub.pending[i].call].id {
      assert stub.pending[i] in stub.pending;
    }
  }

  /** In every state of every run, the ids in the invocation list of a stub are, in order,
      those of its replies under way, of its calls whose request was dropped, and of its
      requests under way — also after the 16-bit counter has wrapped around. */
  lemma InOrderMatching<W(!new)>(cfg: Config, trace: seq<System<W>>, labels: seq<Label<W>>, i: nat, k: Key)
    requires Sound(cfg) && Run(cfg, trace, labels) && i < |trace| && k in trace[i].client.stubs
    ensures |trace[i].fired| <= |trace[i].served| && trace[i].taken <= |trace[i].calls|
    ensures var s := trace[i];
            PendingIds(s.client.stubs[k].pending) ==
            IdsFor(InFlight(DownChannel(cfg, s)), k) + IdsAt(s.calls, Of(s.calls, s.dropped, k)) + IdsFor(InFlight(UpChannel(cfg, s)), k)
  {
    hide Run, ChannelInv, CallsOk, StubsOk, SkelsOk, WorldsOk, AnsweredOk, Of, IdsFor, IdsAt, PendingIds, PendingNos, InFlight;
    RunInv(cfg, trace, labels, i);
    var s := trace[i];
    var replies, requests := ReplyNos(s.served, |s.fired|), RequestNos(s.taken, |s.calls|);
    RepliesMatch(cfg, s);
    RequestsMatch(cfg, s);
    MatchingIds(s.calls, replies, InFlight(DownChannel(cfg, s)), k);
    MatchingIds(s.calls, requests, InFlight(UpChannel(cfg, s)), k);
    assert StubOk(s.calls, OutstandingIn(s), k, s.client.stubs[k]);
    hide Matches, ReplyNos, RequestNos, NumbersOk, FiredOk, GoodEntry;
    EntryIds(s.calls, k, s.client.stubs[k]);
    OfConcat(s.calls, replies + s.dropped, requests, k);
    OfConcat(s.calls, replies, s.dropped, k);
    IdsAtConcat(s.calls, Of(s.calls, replies, k) + Of(s.calls, s.dropped, k), Of(s.calls, requests, k));
    IdsAtConcat(s.calls, Of(s.calls, replies, k), Of(s.calls, s.dropped, k));
  }

  // A remote call is a local call.

  /** The state of the device after the calls, as their arguments arrive, one after the other. */
  function RemoteWorld<W>(w: W, xs: seq<Served<W>>): W {
    if xs == [] then w
    else
      var x := xs[|xs| - 1];
      x.f(RemoteWorld(w, xs[..|xs| - 1]), WireAll(x.call.vals)).world
  }

  /** The state of the device after executing the calls locally, one after the other. */
  function LocalWorld<W>(w: W, xs: seq<Served<W>>): W {
    if xs == [] then w
    else
      var x := xs[|xs| - 1];
      x.f(LocalWorld(w, xs[..|xs| - 1]), x.call.vals).world
  }

  ghost predicate ShortCalls<W(!new)>(xs: seq<Served<W>>) {
    forall j :: 0 <= j < |xs| ==> Short(xs[j].call.vals)
  }

  lemma {:induction false} WorldIsRemote<W(!new)>(served: seq<Served<W>>, origin: W, world: W, j: nat)
    requires WorldsOk(served, origin, world) && j <= |served|
    ensures WorldAt(origin, served, j) == RemoteWorld(origin, served[..j])
  {
    if j > 0 {
      WorldIsRemote(served, origin, world, j - 1);
      assert served[..j][..j - 1] == served[..j - 1];
      assert served[j - 1].world == WorldAt(origin, served, j - 1);
    }
  }

  lemma {:induction false} ShortWorld<W(!new)>(w: W, xs: seq<Served<W>>)
    requires ShortCalls(xs)
    ensures RemoteWorld(w, xs) == LocalWorld(w, xs)
  {
    if xs != [] {
      WireIsIdentity(xs[|xs| - 1].call.vals);
      hide WireAll, Short;
      ShortWorld(w, xs[..|xs| - 1]);
    }
  }

  /** What is known of a served request: the call it belongs to, and the state it found. */
  lemma ServedFacts<W(!new)>(cfg: Config, s: System<W>, j: nat)
    requires Inv(cfg, s) && j < |s.served|
    ensures var x := s.served[j];
            && x.no < |s.calls| && x.call == s.calls[x.no] && Addressed(x.call.proto.params, x.call.actuals)
            && x.world == RemoteWorld(s.origin, s.served[..j])
            && (ShortCalls(s.served[..j + 1]) ==>
                  x.world == LocalWorld(s.origin, s.served[..j]) && WireAll(x.call.vals) == x.call.vals)
  {
    hide ChannelInv, CallsOk, StubsOk, SkelsOk, AnsweredOk, FiredOk, PendingOk, DroppedOk, RemoteWorld, LocalWorld, WireAll, ShortCalls;
    assert GoodServed(s.calls, s.served[j]);
    WorldIsRemote(s.served, s.origin, s.server.world, j);
    if ShortCalls(s.served[..j + 1]) {
      ShortPrefix(s.origin, s.served, j);
    }
  }

  lemma ShortPrefix<W(!new)>(w: W, xs: seq<Served<W>>, j: nat)
    requires j < |xs| && ShortCalls(xs[..j + 1])
    ensures RemoteWorld(w, xs[..j]) == LocalWorld(w, xs[..j]) && WireAll(xs[j].call.vals) == xs[j].call.vals
  {
    hide RemoteWorld, LocalWorld, WireAll, Short;
    assert xs[..j + 1][j] == xs[j];
    assert forall i :: 0 <= i < j ==> xs[..j][i] == xs[..j + 1][i];
    ShortWorld(w, xs[..j]);
    WireIsIdentity(xs[j].call.vals);
  }

  /** The return value for the callback of a served request, if it is executed locally, in the
      order of the requests served. */
  function LocalReturn<W>(origin: W, served: seq<Served<W>>, j: nat): Option<nat>
    requires j < |served|
  {
    var x := served[j];
    if x.call.proto.ret.Void? then None else Some(x.f(LocalWorld(origin, served[..j]), x.call.vals).ret)
  }

  function RemoteReturn<W>(origin: W, served: seq<Served<W>>, j: nat): Option<nat>
    requires j < |served|
  {
    var x := served[j];
    if x.call.proto.ret.Void? then None else Some(x.f(RemoteWorld(origin, served[..j]), WireAll(x.call.vals)).ret)
  }

  /** Every dispatched reply goes to its own call, and carries what this call returns when the
      calls that reached the server are executed in the order in which they were issued, on
      the values that their arguments had then, as they arrive; when all strings and blobs
      sent so far were short, that is what executing them locally returns. */
  lemma ReturnsAreLocal<W(!new)>(cfg: Config, trace: seq<System<W>>, labels: seq<Label<W>>, i: nat)
    requires Sound(cfg) && Run(cfg, trace, labels) && i < |trace|
    ensures var s := trace[i];
            && |s.fired| <= |s.served|
            && s.server.world == RemoteWorld(s.origin, s.served)
            && (ShortCalls(s.served) ==> s.server.world == LocalWorld(s.origin, s.served))
            && forall j :: 0 <= j < |s.fired| ==>
                 var x := s.served[j];
                 && x.no < |s.calls| && x.call == s.calls[x.no]
                 && s.fired[j] == Completion(x.no, RemoteReturn(s.origin, s.served, j))
                 && (ShortCalls(s.served[..j + 1]) ==> s.fired[j].ret == LocalReturn(s.origin, s.served, j))
  {
    hide Run, Inv, LocalWorld, RemoteWorld, ShortCalls, LocalReturn, RemoteReturn;
    RunInv(cfg, trace, labels, i);
    var s := trace[i];
    WorldFacts(cfg, s);
    forall j | 0 <= j < |s.fired|
      ensures var x := s.served[j];
              && x.no < |s.calls| && x.call == s.calls[x.no]
              && s.fired[j] == Completion(x.no, RemoteReturn(s.origin, s.served, j))
              && (ShortCalls(s.served[..j + 1]) ==> s.fired[j].ret == LocalReturn(s.origin, s.served, j))
    {
      ReturnFacts(cfg, s, j);
    }
  }

  lemma WorldFacts<W(!new)>(cfg: Config, s: System<W>)
    requires Inv(cfg, s)
    ensures |s.fired| <= |s.served| && s.server.world == RemoteWorld(s.origin, s.served)
    ensures ShortCalls(s.served) ==> s.server.world == LocalWorld(s.origin, s.served)
  {
    hide ChannelInv, CallsOk, StubsOk, SkelsOk, AnsweredOk, PendingOk, RemoteWorld, LocalWorld, NumbersOk, DroppedOk;
    WorldIsRemote(s.served, s.origin, s.server.world, |s.served|);
    assert s.served[..|s.served|] == s.served;
    if ShortCalls(s.served) {
      ShortWorld(s.origin, s.served);
    }
  }

  lemma ReturnFacts<W(!new)>(cfg: Config, s: System<W>, j: nat)
    requires Inv(cfg, s) && j < |s.fired| <= |s.served|
    ensures var x := s.served[j];
            && x.no < |s.calls| && x.call == s.calls[x.no]
            && s.fired[j] == Completion(x.no, RemoteReturn(s.origin, s.served, j))
            && (ShortCalls(s.served[..j + 1]) ==> s.fired[j].ret == LocalReturn(s.origin, s.served, j))
  {
    hide ChannelInv, CallsOk, StubsOk, SkelsOk, AnsweredOk, PendingOk, RemoteWorld, LocalWorld, NumbersOk, WorldsOk, DroppedOk, ShortCalls, WireAll;
    ServedFacts(cfg, s, j);
  }

  /** Dispatching a reply completes its own call with what the remote call returns, and leaves
      in the caller's variables what the remote call leaves there; that is what the local call
      leaves, when strings and blobs are short and no pointer to a constant comes before a
      by-reference parameter. */
  lemma DispatchIsLocal<W(!new)>(cfg: Config, s: System<W>, reaction: seq<Request>, s': System<W>)
    requires Sound(cfg) && Inv(cfg, s) && DispatchStep(cfg, s, reaction, s')
    ensures |s.fired| < |s.served| && |s'.fired| == |s.fired| + 1
    ensures var j := |s.fired|;
            var x := s.served[j];
            var p, f, vals, actuals := x.call.proto, x.f, x.call.vals, x.call.actuals;
            && Addressed(p.params, actuals)
            && (var (_, ret, mem) := RemoteCall(p, f, RemoteWorld(s.origin, s.served[..j]), vals, actuals, s.client.mem);
                s'.client.mem == mem && s'.fired[j] == Completion(x.no, ret))
            && (var w := LocalWorld(s.origin, s.served[..j]);
                ShortCalls(s.served[..j + 1]) && Plain(p, f, w, vals) ==>
                  var (_, ret, mem) := LocalCall(p, f, w, vals, actuals, s.client.mem);
                  s'.client.mem == mem && s'.fired[j] == Completion(x.no, ret))
  {
    hide Inv, AsyncSteps, DispatchNext, Find, LocalWorld, RemoteWorld, ShortCalls, Plain, WireAll, StoreAll, AddressesOf, Outs;
    assert s.client.rx.inbox != [] by { hide Accept; }
    MatchedReply(cfg, s);
    hide Matched;
    var j, x := |s.fired|, s.served[|s.fired|];
    var mem := Stored(x, s.client.mem);
    MemoryInv(cfg, s, mem);
    AsyncStepsInv(cfg, s.(client := s.client.(mem := mem)), reaction);
    ServedFacts(cfg, s, j);
    var w := LocalWorld(s.origin, s.served[..j]);
    if ShortCalls(s.served[..j + 1]) && Plain(x.call.proto, x.f, w, x.call.vals) {
      PlainIsLocal(x.call.proto, x.f, w, x.call.vals, x.call.actuals, s.client.mem);
    }
  }

  /** No call is answered twice, and calls are answered in order. */
  lemma AtMostOnce<W(!new)>(cfg: Config, trace: seq<System<W>>, labels: seq<Label<W>>, i: nat, a: nat, b: nat)
    requires Sound(cfg) && Run(cfg, trace, labels) && i < |trace| && a < b < |trace[i].fired|
    ensures trace[i].fired[a].no < trace[i].fired[b].no
  {
    hide Run, ChannelInv, CallsOk, StubsOk, SkelsOk, AnsweredOk, PendingOk, WorldsOk, DroppedOk, GoodServed, ReturnOf;
    RunInv(cfg, trace, labels, i);
  }
}
