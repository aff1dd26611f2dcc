/** The 16-bit ids of the calls of a stub: consecutive, so that they tell its outstanding
    calls apart exactly as long as there are no more than 65536 of them. */
module Numbering {
  import opened Bytes
  import opened Frame
  import PrototypeModule
  import Marshaller
  import ChannelModule
  import opened Peers
  import opened Protocol
  import opened Invariant
  import opened Runs

  predicate Follows(ids: seq<nat>, i: nat)
    requires 0 < i < |ids|
  {
    ids[i] == (ids[i - 1] + 1) % TWO16
  }

  /** Each id follows the one before it, and the last one is that of the counter. */
  predicate Consecutive(ids: seq<nat>, counter: nat) {
    && (forall i :: 0 <= i < |ids| ==> ids[i] < TWO16)
    && (forall i :: 0 < i < |ids| ==> Follows(ids, i))
    && (ids != [] ==> ids[|ids| - 1] == counter)
  }

  predicate StubNumbered(stub: StubState) {
    Consecutive(PendingIds(stub.pending), stub.invokations)
  }

  ghost predicate Numbered(stubs: map<Key, StubState>) {
    forall k :: k in stubs ==> StubNumbered(stubs[k])
  }

  lemma Appended(ids: seq<nat>, counter: nat)
    requires Consecutive(ids, counter)
    ensures Consecutive(ids + [(counter + 1) % TWO16], (counter + 1) % TWO16)
  {
    var all := ids + [(counter + 1) % TWO16];
    forall i | 0 < i < |all| ensures Follows(all, i) {
      if i < |ids| {
        assert Follows(ids, i);
      }
    }
  }

  lemma HeadErased(ids: seq<nat>, counter: nat)
    requires Consecutive(ids, counter) && ids != []
    ensures Consecutive(ids[1..], counter)
  {
    forall i | 0 < i < |ids[1..]| ensures Follows(ids[1..], i) {
      assert Follows(ids, i + 1);
    }
  }

  lemma IssueNumbered(cfg: Config, c: Client, r: Request)
    requires Numbered(c.stubs)
    ensures Numbered(Issue(cfg, c, r).stubs)
  {
    hide Consecutive;
    if Accepted(c, r) {
      var stub, stub' := c.stubs[r.key], Issue(cfg, c, r).stubs[r.key];
      assert StubNumbered(stub);
      Appended(PendingIds(stub.pending), stub.invokations);
      assert PendingIds(stub'.pending) == PendingIds(stub.pending) + [NextId(stub)];
    }
  }

  lemma {:induction false} IssueAllNumbered(cfg: Config, c: Client, rs: seq<Request>)
    requires Numbered(c.stubs)
    ensures Numbered(IssueAll(cfg, c, rs).stubs)
  {
    hide Numbered, Issue;
    if rs != [] {
      IssueAllNumbered(cfg, c, rs[..|rs| - 1]);
      IssueNumbered(cfg, IssueAll(cfg, c, rs[..|rs| - 1]), rs[|rs| - 1]);
    }
  }

  lemma EraseNumbered(stubs: map<Key, StubState>, k: Key)
    requires Numbered(stubs) && k in stubs && stubs[k].pending != []
    ensures Numbered(stubs[k := stubs[k].(pending := Erase(stubs[k].pending, 0))])
  {
    hide Consecutive;
    var pending := stubs[k].pending;
    assert StubNumbered(stubs[k]);
    HeadErased(PendingIds(pending), stubs[k].invokations);
    assert PendingIds(Erase(pending, 0)) == PendingIds(pending)[1..];
  }

  lemma DispatchNumbered<W(!new)>(cfg: Config, s: System<W>, reaction: seq<Request>, s': System<W>)
    requires Sound(cfg) && Inv(cfg, s) && DispatchStep(cfg, s, reaction, s') && Numbered(s.client.stubs)
    ensures Numbered(s'.client.stubs)
  {
    hide Inv, Numbered, AsyncSteps, IssueAll, Find, Erase, Stored;
    assert s.client.rx.inbox != [] by { hide Marshaller.Accept; }
    MatchedReply(cfg, s);
    hide Matched;
    var (i, ret, mem) := Matched(cfg, s.client).value;
    var s0 := s.(client := s.client.(mem := mem));
    IssueAllNumbered(cfg, s0.client, reaction);
    MemoryInv(cfg, s, mem);
    AsyncStepsInv(cfg, s0, reaction);
    EraseNumbered(IssueAll(cfg, s0.client, reaction).stubs, s.client.rx.inbox[0].name);
  }

  lemma StepNumbered<W(!new)>(cfg: Config, s: System<W>, l: Label<W>, s': System<W>)
    requires Sound(cfg) && Inv(cfg, s) && Step(cfg, s, l, s') && Numbered(s.client.stubs)
    ensures Numbered(s'.client.stubs)
  {
    hide Inv, DispatchStep, ServeNext, ChannelModule.HopStep, Issue, Register, Unregister, Consecutive;
    match l {
      case Async(r) =>
        IssueNumbered(cfg, s.client, r);
        AsyncClient(cfg, s, r);
      case Dispatch(reaction) => DispatchNumbered(cfg, s, reaction, s');
      case Connect(p) => assert StubNumbered(StubState(p, 0, [])) by { NoIds(p); }
      case _ =>
    }
  }

  lemma NoIds(p: PrototypeModule.Prototype)
    ensures StubNumbered(StubState(p, 0, []))
  {
  }

  lemma {:induction false} RunNumbered<W(!new)>(cfg: Config, trace: seq<System<W>>, labels: seq<Label<W>>, i: nat)
    requires Sound(cfg) && Run(cfg, trace, labels) && i < |trace|
    ensures Numbered(trace[i].client.stubs)
  {
    hide Inv, Step, StubNumbered;
    if i > 0 {
      RunNumbered(cfg, trace, labels, i - 1);
      RunInv(cfg, trace, labels, i - 1);
      assert Step(cfg, trace[i - 1], labels[i - 1], trace[i - 1 + 1]);
      StepNumbered(cfg, trace[i - 1], labels[i - 1], trace[i]);
    }
  }

  lemma {:induction false} IdAt(ids: seq<nat>, counter: nat, i: nat, j: nat)
    requires Consecutive(ids, counter) && i <= j < |ids|
    ensures ids[j] == (ids[i] + (j - i)) % TWO16
    decreases j
  {
    if i < j {
      IdAt(ids, counter, i, j - 1);
      assert Follows(ids, j);
    }
  }

  lemma DistinctExactly(ids: seq<nat>, counter: nat)
    requires Consecutive(ids, counter)
    ensures Distinct(ids) <==> |ids| <= TWO16
  {
    if |ids| > TWO16 {
      IdAt(ids, counter, 0, TWO16);
    } else {
      forall i, j | 0 <= i < j < |ids| ensures ids[i] != ids[j] {
        IdAt(ids, counter, i, j);
      }
    }
  }

  /** In every state of every run, the ids in the invocation list of a stub are consecutive;
      they are distinct if and only if no more than 65536 calls are outstanding. */
  lemma IdsDistinctExactly<W(!new)>(cfg: Config, trace: seq<System<W>>, labels: seq<Label<W>>, i: nat, k: Key)
    requires Sound(cfg) && Run(cfg, trace, labels) && i < |trace| && k in trace[i].client.stubs
    ensures var stub := trace[i].client.stubs[k];
            && Consecutive(PendingIds(stub.pending), stub.invokations)
            && (Distinct(PendingIds(stub.pending)) <==> |stub.pending| <= TWO16)
  {
    hide Run, Consecutive, Distinct;
    var stub := trace[i].client.stubs[k];
    RunNumbered(cfg, trace, labels, i);
    assert StubNumbered(stub);
    DistinctExactly(PendingIds(stub.pending), stub.invokations);
  }
}
