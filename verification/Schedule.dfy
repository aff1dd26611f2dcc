/** What happens on the machine, as a schedule of events: which steps of the protocol an event
    stands for, what an execution of a schedule is, and what rounds of the two loops achieve. */
module Schedule {
  import opened Bytes
  import opened Frame
  import opened PrototypeModule
  import opened Marshaller
  import opened ChannelModule
  import opened Peers
  import opened Protocol
  import opened Invariant
  import opened Liveness
  import opened Progress

  /** A run from any state. */
  ghost predicate Steps<W(!new)>(cfg: Config, states: seq<System<W>>, labels: seq<Label<W>>) {
    |states| == |labels| + 1 && forall i :: 0 <= i < |labels| ==> Step(cfg, states[i], labels[i], states[i + 1])
  }

  lemma StepsConcat<W(!new)>(cfg: Config, states: seq<System<W>>, labels: seq<Label<W>>, part: seq<System<W>>, ls: seq<Label<W>>)
    requires Steps(cfg, states, labels) && Steps(cfg, part, ls) && part[0] == states[|labels|]
    ensures Steps(cfg, states + NextStates(part), labels + ls)
  {
    hide Step;
    var all, n := states + NextStates(part), |labels|;
    forall i | 0 <= i < |labels + ls| ensures Step(cfg, all[i], (labels + ls)[i], all[i + 1]) {
      if i < n {
        assert Step(cfg, states[i], labels[i], states[i + 1]);
      } else {
        assert Step(cfg, part[i - n], ls[i - n], part[i - n + 1]);
      }
    }
  }

  /** The states after the first. */
  function NextStates<T>(s: seq<T>): seq<T> {
    if s == [] then [] else s[1..]
  }

  function ClientLabel<W>(x: ClientAction): Label<W> {
    match x
    case Transmit => Turn(UP, SEND)
    case FlushOut => Turn(UP, FLUSH)
    case Receive => Turn(DOWN, RECEIVE)
    case DispatchReply(reaction, _) => Dispatch(reaction)
  }

  function ServerLabel<W>(x: ServerAction): Label<W> {
    match x
    case Transmit' => Turn(DOWN, SEND)
    case FlushOut' => Turn(DOWN, FLUSH)
    case Receive' => Turn(UP, RECEIVE)
    case ServeRequest => Serve
  }

  function ClientLabels<W>(xs: seq<ClientAction>): seq<Label<W>> {
    seq(|xs|, i requires 0 <= i < |xs| => ClientLabel(xs[i]))
  }

  function ServerLabels<W>(xs: seq<ServerAction>): seq<Label<W>> {
    seq(|xs|, i requires 0 <= i < |xs| => ServerLabel(xs[i]))
  }

  /** What may happen next on the machine. */
  datatype Event<!W> =
    | ClientLoop(txTurns: nat, rxTurns: nat, reactions: seq<seq<Request>>)
    | ServerLoop(rxTurns': nat, txTurns': nat)
    | Application(deed: Deed)
    | Device(chore: Chore<W>)

  datatype Deed = Calls(request: Request) | Connects(proto: Prototype) | Disconnects(key: Key) | Assigns(addr: Addr, value: Value)

  datatype Chore<!W> = Provides(proto: Prototype, f: Impl<W>) | Withdraws(key: Key)

  /** What compiles. */
  ghost predicate GoodEvent<W(!new)>(x: Event<W>) {
    match x
    case Application(Connects(p)) => Connectable(p)
    case Device(Provides(p, f)) => Connectable(p) && Typed(p, f)
    case _ => true
  }

  // What an event stands for.

  function Values(fired: seq<Completion>): seq<Option<nat>> {
    seq(|fired|, i requires 0 <= i < |fired| => fired[i].ret)
  }

  /** The values that callbacks got on the way from one state to another. */
  function Gained<W>(s: System<W>, z: System<W>): seq<Option<nat>> {
    if |s.fired| <= |z.fired| then Values(z.fired[|s.fired|..]) else []
  }

  lemma GainedOn<W(!new)>(a: System<W>, b: System<W>, c: System<W>)
    requires a.fired <= b.fired <= c.fired
    ensures Gained(a, c) == Gained(a, b) + Gained(b, c)
  {
  }

  /** The steps of a round of the client: n turns of its transmit loop, which ends when its time
      is over or nothing is left to send, the flush, a turn of the receive loop for all its time,
      and a dispatch for each reply received. */
  ghost predicate ClientTurns<W(!new)>(tx: nat, rx: nat, reactions: seq<seq<Request>>, states: seq<System<W>>, labels: seq<Label<W>>, n: nat)
    requires |states| == |labels| + 1
  {
    var s, z := states[0], states[|labels|];
    && n <= tx && labels == ClientLabels(ClientPlan(n, rx, reactions, Gained(s, z)))
    && (n == 0 <==> tx == 0 || s.client.tx.queue == []) && (n < tx ==> states[n + 1].client.tx.queue == [])
    && z.client.rx.inbox == []
  }

  /** The steps of a round of the server: a turn of the receive loop for all its time, d requests
      served, which are all that are there, n turns of the transmit loop, and the flush. */
  ghost predicate ServerTurns<W(!new)>(rx: nat, tx: nat, states: seq<System<W>>, labels: seq<Label<W>>, d: nat, n: nat)
    requires |states| == |labels| + 1
  {
    && n <= tx && labels == ServerLabels(ServerPlan(rx, d, n)) && states[rx + d].server.rx.inbox == []
    && (n == 0 <==> tx == 0 || states[rx + d].server.tx.queue == []) && (n < tx ==> states[|labels|].server.tx.queue == [])
  }

  /** A procedure with outstanding calls is not given up. */
  function DeedLabels<W>(s: System<W>, x: Deed): seq<Label<W>> {
    match x
    case Calls(r) => [Async(r)]
    case Connects(p) => [Connect(p)]
    case Disconnects(k) => if k in s.client.stubs && s.client.stubs[k].pending == [] then [Disconnect(k)] else []
    case Assigns(a, v) => [Assign(a, v)]
  }

  function ChoreLabel<W>(x: Chore<W>): Label<W> {
    match x
    case Provides(p, f) => Provide(p, f)
    case Withdraws(k) => Withdraw(k)
  }

  /** These steps of the protocol are the event x. */
  ghost predicate StandsFor<W(!new)>(cfg: Config, x: Event<W>, states: seq<System<W>>, labels: seq<Label<W>>) {
    && Steps(cfg, states, labels) && states[0].fired <= states[|labels|].fired
    && match x
       case ClientLoop(tx, rx, reactions) => exists n: nat :: ClientTurns(tx, rx, reactions, states, labels, n)
       case ServerLoop(rx, tx) => exists d: nat, n: nat :: ServerTurns(rx, tx, states, labels, d, n)
       case Application(deed) => labels == DeedLabels(states[0], deed)
       case Device(chore) => labels == [ChoreLabel(chore)]
  }

  // Executions.

  ghost predicate Part<W(!new)>(cfg: Config, events: seq<Event<W>>, trace: seq<System<W>>, labels: seq<Label<W>>, cuts: seq<nat>, i: nat)
    requires |trace| == |labels| + 1 && |cuts| == |events| + 1 && i < |events|
  {
    && cuts[i] <= cuts[i + 1] <= |labels|
    && StandsFor(cfg, events[i], trace[cuts[i]..cuts[i + 1] + 1], labels[cuts[i]..cuts[i + 1]])
  }

  /** The run is cut into one part for each event, which stands for it. */
  ghost predicate Executes<W(!new)>(cfg: Config, events: seq<Event<W>>, trace: seq<System<W>>, labels: seq<Label<W>>, cuts: seq<nat>) {
    && Steps(cfg, trace, labels) && |cuts| == |events| + 1 && cuts[0] == 0 && cuts[|events|] == |labels|
    && forall i :: 0 <= i < |events| ==> Part(cfg, events, trace, labels, cuts, i)
  }

  lemma ExecutesNothing<W(!new)>(cfg: Config, s: System<W>)
    ensures Executes(cfg, [], [s], [], [0])
  {
  }

  lemma ExecutesSize<W(!new)>(cfg: Config, events: seq<Event<W>>, trace: seq<System<W>>, labels: seq<Label<W>>, cuts: seq<nat>)
    requires Executes(cfg, events, trace, labels, cuts)
    ensures |trace| == |labels| + 1 && |cuts| == |events| + 1 && cuts[0] == 0 && cuts[|events|] == |labels|
  {
    hide Step, Part;
  }

  lemma ExecutesOn<W(!new)>(cfg: Config, events: seq<Event<W>>, trace: seq<System<W>>, labels: seq<Label<W>>, cuts: seq<nat>,
                            x: Event<W>, part: seq<System<W>>, ls: seq<Label<W>>)
    requires Executes(cfg, events, trace, labels, cuts) && StandsFor(cfg, x, part, ls) && part[0] == trace[|labels|]
    ensures Executes(cfg, events + [x], trace + NextStates(part), labels + ls, cuts + [|labels| + |ls|])
    ensures (trace + NextStates(part))[|labels| + |ls|] == part[|ls|]
  {
    var es, t, l, c := events + [x], trace + NextStates(part), labels + ls, cuts + [|labels| + |ls|];
    hide StandsFor, Steps, Part;
    StandsSteps(cfg, x, part, ls);
    assert |trace| == |labels| + 1 by { StepsSize(cfg, trace, labels); }
    StepsConcat(cfg, trace, labels, part, ls);
    forall i | 0 <= i < |es| ensures Part(cfg, es, t, l, c, i) {
      if i < |events| {
        PartKept(cfg, events, trace, labels, cuts, i, [x], NextStates(part), ls, [|labels| + |ls|]);
      } else {
        LastPart(cfg, es, trace, labels, c, part, ls);
      }
    }
  }

  lemma StandsSteps<W(!new)>(cfg: Config, x: Event<W>, states: seq<System<W>>, labels: seq<Label<W>>)
    requires StandsFor(cfg, x, states, labels)
    ensures Steps(cfg, states, labels) && |states| == |labels| + 1 && states[0].fired <= states[|labels|].fired
  {
    hide Step, ClientTurns, ServerTurns;
  }

  lemma StepsSize<W(!new)>(cfg: Config, states: seq<System<W>>, labels: seq<Label<W>>)
    requires Steps(cfg, states, labels)
    ensures |states| == |labels| + 1
  {
  }

  lemma PartKept<W(!new)>(cfg: Config, events: seq<Event<W>>, trace: seq<System<W>>, labels: seq<Label<W>>, cuts: seq<nat>, i: nat,
                          es: seq<Event<W>>, t: seq<System<W>>, l: seq<Label<W>>, c: seq<nat>)
    requires |trace| == |labels| + 1 && |cuts| == |events| + 1 && i < |events| && |t| == |l| && |c| == |es|
    requires Part(cfg, events, trace, labels, cuts, i)
    ensures Part(cfg, events + es, trace + t, labels + l, cuts + c, i)
  {
    hide StandsFor;
    PrefixSlice(trace, t, cuts[i], cuts[i + 1] + 1);
    PrefixSlice(labels, l, cuts[i], cuts[i + 1]);
  }

  lemma LastPart<W(!new)>(cfg: Config, events: seq<Event<W>>, trace: seq<System<W>>, labels: seq<Label<W>>, cuts: seq<nat>,
                          part: seq<System<W>>, ls: seq<Label<W>>)
    requires |trace| == |labels| + 1 && |part| == |ls| + 1 && part[0] == trace[|labels|]
    requires events != [] && |cuts| == |events| + 1 && StandsFor(cfg, events[|events| - 1], part, ls)
    requires cuts[|events| - 1] == |labels| && cuts[|events|] == |labels| + |ls|
    ensures Part(cfg, events, trace + NextStates(part), labels + ls, cuts, |events| - 1)
  {
    hide StandsFor;
    SuffixSlice(trace, part);
    assert (labels + ls)[|labels|..|labels| + |ls|] == ls;
  }

  lemma PrefixSlice<T>(a: seq<T>, b: seq<T>, i: nat, j: nat)
    requires i <= j <= |a|
    ensures (a + b)[i..j] == a[i..j]
  {
  }

  lemma SuffixSlice<T>(a: seq<T>, b: seq<T>)
    requires a != [] && b != [] && a[|a| - 1] == b[0]
    ensures (a + NextStates(b))[|a| - 1..|a| - 1 + |b|] == b
  {
  }

  // What the loops do.

  predicate OfLoop<W>(l: Label<W>) {
    l.Turn? || l.Serve? || l.Dispatch?
  }

  function ActivityOf<W>(l: Label<W>): Activity
    requires OfLoop(l)
  {
    match l
    case Turn(dir, hop) => Move(dir, hop)
    case Serve => Answer
    case Dispatch(_) => Deliver
  }

  function ReactionOf<W>(l: Label<W>): seq<Request> {
    match l
    case Dispatch(reaction) => reaction
    case _ => []
  }

  lemma LoopStepActs<W(!new)>(cfg: Config, s: System<W>, l: Label<W>, s': System<W>)
    requires Step(cfg, s, l, s') && OfLoop(l)
    ensures ActWith(cfg, s, ActivityOf(l), ReactionOf(l), s')
  {
    hide TurnStep, FinishDispatch, DispatchNext, AsyncSteps, Accept, Find, ServeNext;
  }

  ghost predicate LoopSteps<W(!new)>(cfg: Config, states: seq<System<W>>, labels: seq<Label<W>>) {
    Steps(cfg, states, labels) && forall i :: 0 <= i < |labels| ==> OfLoop(labels[i])
  }

  ghost predicate Done<W(!new)>(cfg: Config, s: System<W>, z: System<W>) {
    Inv(cfg, z) && Kept(s, z) && Spent(cfg, s, z)
  }

  lemma {:induction false} LoopStepsDo<W(!new)>(cfg: Config, states: seq<System<W>>, labels: seq<Label<W>>, i: nat, j: nat)
    requires Sound(cfg) && LoopSteps(cfg, states, labels) && i <= j <= |labels| && Inv(cfg, states[i])
    ensures Done(cfg, states[i], states[j])
    decreases j
  {
    hide Inv, Step, Kept, Spent, Remaining;
    if i == j {
      KeptSame(cfg, states[i]);
      SpentSame(cfg, states[i], states[i]);
    } else {
      LoopStepsDo(cfg, states, labels, i, j - 1);
      assert Step(cfg, states[j - 1], labels[j - 1], states[j - 1 + 1]) && OfLoop(labels[j - 1]);
      LoopStepDoes(cfg, states[j - 1], labels[j - 1], states[j]);
      DoneOn(cfg, states[i], states[j - 1], states[j]);
    }
  }

  lemma LoopStepDoes<W(!new)>(cfg: Config, s: System<W>, l: Label<W>, s': System<W>)
    requires Sound(cfg) && Inv(cfg, s) && Step(cfg, s, l, s') && OfLoop(l)
    ensures Done(cfg, s, s')
  {
    LoopStepActs(cfg, s, l, s');
    hide Inv, Step, Kept, Spent, ActWith;
    ActWithKeeps(cfg, s, ActivityOf(l), ReactionOf(l), s');
    ActSpent(cfg, s, ActivityOf(l), ReactionOf(l), s');
  }

  lemma DoneOn<W(!new)>(cfg: Config, a: System<W>, b: System<W>, c: System<W>)
    requires Done(cfg, a, b) && Done(cfg, b, c)
    ensures Done(cfg, a, c)
  {
    hide Inv, Kept, Spent;
    KeptOn(a, b, c);
    SpentOn(cfg, a, b, c);
  }

  /** When no call is issued, the steps are activities without callbacks. */
  lemma QuietActs<W(!new)>(cfg: Config, states: seq<System<W>>, labels: seq<Label<W>>, acts: seq<Activity>)
    requires Sound(cfg) && LoopSteps(cfg, states, labels) && Inv(cfg, states[0])
    requires |acts| == |labels| && forall i :: 0 <= i < |labels| ==> acts[i] == ActivityOf(labels[i])
    requires |states[|labels|].calls| == |states[0].calls|
    ensures Acts(cfg, states, acts)
  {
    hide Inv, Step, Act, ActWith, Remaining, Work;
    forall i | 0 <= i < |labels| ensures Act(cfg, states[i], acts[i], states[i + 1]) {
      LoopStepsDo(cfg, states, labels, 0, i);
      LoopStepsDo(cfg, states, labels, i, i + 1);
      LoopStepsDo(cfg, states, labels, i + 1, |labels|);
      assert |states[i + 1].calls| == |states[i].calls|;
      assert Step(cfg, states[i], labels[i], states[i + 1]) && OfLoop(labels[i]);
      LoopStepActs(cfg, states[i], labels[i], states[i + 1]);
      QuietAct(cfg, states[i], acts[i], ReactionOf(labels[i]), states[i + 1]);
    }
  }

  /** At rest the loops change nothing. */
  lemma {:induction false} LoopsRest<W(!new)>(cfg: Config, states: seq<System<W>>, labels: seq<Label<W>>, i: nat)
    requires LoopSteps(cfg, states, labels) && Inv(cfg, states[0]) && RankOf(cfg, states[0]) == ZERO && i <= |labels|
    ensures states[i] == states[0]
  {
    hide Inv, Step, Act;
    if i > 0 {
      LoopsRest(cfg, states, labels, i - 1);
      assert Step(cfg, states[i - 1], labels[i - 1], states[i - 1 + 1]) && OfLoop(labels[i - 1]);
      LoopStepActs(cfg, states[i - 1], labels[i - 1], states[i]);
      assert states[i - 1].client.rx.inbox == [] by { hide Steps, ActWith; }
      hide RankOf;
      RestStays(cfg, states[i - 1], ActivityOf(labels[i - 1]), states[i]);
    }
  }

  lemma ClientPlanLoops<W(!new)>(xs: seq<ClientAction>, labels: seq<Label<W>>)
    requires labels == ClientLabels(xs)
    ensures forall i :: 0 <= i < |labels| ==> OfLoop(labels[i]) && ClientActivities(xs)[i] == ActivityOf(labels[i])
    ensures |ClientActivities(xs)| == |labels|
  {
  }

  lemma ServerPlanLoops<W(!new)>(xs: seq<ServerAction>, labels: seq<Label<W>>)
    requires labels == ServerLabels(xs)
    ensures forall i :: 0 <= i < |labels| ==> OfLoop(labels[i]) && ServerActivities(xs)[i] == ActivityOf(labels[i])
    ensures |ServerActivities(xs)| == |labels|
  {
  }

  // A round of the client and then of the server.

  /** Each timed loop has time for a turn. */
  predicate IsRound<W>(c: Event<W>, v: Event<W>) {
    c.ClientLoop? && v.ServerLoop? && c.txTurns > 0 && c.rxTurns > 0 && v.rxTurns' > 0 && v.txTurns' > 0
  }

  ghost predicate RoundSteps<W(!new)>(cfg: Config, c: Event<W>, v: Event<W>, cs: seq<System<W>>, cl: seq<Label<W>>,
                                      ss: seq<System<W>>, sl: seq<Label<W>>)
  {
    IsRound(c, v) && StandsFor(cfg, c, cs, cl) && StandsFor(cfg, v, ss, sl) && cs[|cl|] == ss[0]
  }

  lemma RoundLoops<W(!new)>(cfg: Config, c: Event<W>, v: Event<W>, cs: seq<System<W>>, cl: seq<Label<W>>, ss: seq<System<W>>, sl: seq<Label<W>>)
    requires RoundSteps(cfg, c, v, cs, cl, ss, sl)
    ensures LoopSteps(cfg, cs, cl) && LoopSteps(cfg, ss, sl) && cs[|cl|].client.rx.inbox == []
  {
    hide Step, ClientLabels, ServerLabels, ClientPlan, ServerPlan, Gained;
    var n: nat :| ClientTurns(c.txTurns, c.rxTurns, c.reactions, cs, cl, n);
    ClientPlanLoops(ClientPlan(n, c.rxTurns, c.reactions, Gained(cs[0], cs[|cl|])), cl);
    var d: nat, m: nat :| ServerTurns(v.rxTurns', v.txTurns', ss, sl, d, m);
    ServerPlanLoops(ServerPlan(v.rxTurns', d, m), sl);
  }

  /** The server's steps do not touch the client's inbox. */
  lemma ServerLeavesInbox<W(!new)>(cfg: Config, rx: nat, tx: nat, states: seq<System<W>>, labels: seq<Label<W>>)
    requires StandsFor(cfg, ServerLoop(rx, tx), states, labels)
    ensures states[|labels|].client.rx == states[0].client.rx
  {
    hide Step, ServerLabels, ServerPlan;
    var d: nat, n: nat :| ServerTurns(rx, tx, states, labels, d, n);
    var xs := ServerPlan(rx, d, n);
    ServerInboxAt(cfg, xs, states, labels, |labels|);
  }

  lemma {:induction false} ServerInboxAt<W(!new)>(cfg: Config, xs: seq<ServerAction>, states: seq<System<W>>, labels: seq<Label<W>>, i: nat)
    requires Steps(cfg, states, labels) && labels == ServerLabels(xs) && i <= |labels|
    ensures states[i].client.rx == states[0].client.rx
  {
    hide Step;
    if i > 0 {
      ServerInboxAt(cfg, xs, states, labels, i - 1);
      assert Step(cfg, states[i - 1], labels[i - 1], states[i - 1 + 1]);
      ServerStepInbox(cfg, xs[i - 1], states[i - 1], states[i]);
    }
  }

  lemma ServerStepInbox<W(!new)>(cfg: Config, x: ServerAction, s: System<W>, s': System<W>)
    requires Step(cfg, s, ServerLabel(x), s')
    ensures s'.client.rx == s.client.rx
  {
    hide TxStep, FlushStep, RxStep, ServeNext, Requests, Replies;
  }

  lemma ClientActs<W(!new)>(cfg: Config, x: Event<W>, states: seq<System<W>>, labels: seq<Label<W>>) returns (acts: seq<Activity>)
    requires Sound(cfg) && x.ClientLoop? && x.rxTurns > 0 && x.txTurns > 0 && StandsFor(cfg, x, states, labels)
    requires LoopSteps(cfg, states, labels) && Inv(cfg, states[0]) && |states[|labels|].calls| == |states[0].calls|
    ensures |acts| == |labels| && Acts(cfg, states, acts)
    ensures (states[0].client.tx.queue != [] ==> Move(UP, SEND) in acts) && Move(UP, FLUSH) in acts && Move(DOWN, RECEIVE) in acts
  {
    hide Inv, Step, Acts, Gained, LoopSteps, ClientPlan, DeedLabels;
    var n: nat :| ClientTurns(x.txTurns, x.rxTurns, x.reactions, states, labels, n);
    var xs := ClientPlan(n, x.rxTurns, x.reactions, Gained(states[0], states[|labels|]));
    acts := ClientActivities(xs);
    ClientPlanHas(n, x.rxTurns, x.reactions, Gained(states[0], states[|labels|]));
    ClientPlanLoops(xs, labels);
    hide ClientActivities, ClientLabels;
    QuietActs(cfg, states, labels, acts);
  }

  lemma ServerActs<W(!new)>(cfg: Config, x: Event<W>, states: seq<System<W>>, labels: seq<Label<W>>) returns (acts: seq<Activity>, k: nat)
    requires Sound(cfg) && x.ServerLoop? && x.rxTurns' > 0 && x.txTurns' > 0 && StandsFor(cfg, x, states, labels)
    requires LoopSteps(cfg, states, labels) && Inv(cfg, states[0]) && |states[|labels|].calls| == |states[0].calls|
    ensures |acts| == |labels| && Acts(cfg, states, acts) && k <= |acts| && states[k].server.rx.inbox == []
    ensures (states[k].server.tx.queue != [] ==> Move(DOWN, SEND) in acts[k..|acts|]) && Move(DOWN, FLUSH) in acts && Move(UP, RECEIVE) in acts
  {
    hide Inv, Step, Acts, LoopSteps, ServerPlan, Gained, DeedLabels;
    var d: nat, n: nat :| ServerTurns(x.rxTurns', x.txTurns', states, labels, d, n);
    var xs := ServerPlan(x.rxTurns', d, n);
    acts, k := ServerActivities(xs), x.rxTurns' + d;
    ServerPlanHas(x.rxTurns', d, n);
    ServerPlanLoops(xs, labels);
    hide ServerActivities, ServerLabels;
    QuietActs(cfg, states, labels, acts);
  }

  /** A round in which no call is issued leaves less to do. */
  lemma QuietRound<W(!new)>(cfg: Config, c: Event<W>, v: Event<W>, cs: seq<System<W>>, cl: seq<Label<W>>, ss: seq<System<W>>, sl: seq<Label<W>>)
    requires Sound(cfg) && RoundSteps(cfg, c, v, cs, cl, ss, sl) && Inv(cfg, cs[0])
    requires |ss[|sl|].calls| == |cs[0].calls|
    ensures Remaining(cfg, cs[0]) > 0 ==> Remaining(cfg, ss[|sl|]) < Remaining(cfg, cs[0])
  {
    RoundLoops(cfg, c, v, cs, cl, ss, sl);
    RoundDoes(cfg, c, v, cs, cl, ss, sl);
    assert |cs[|cl|].calls| == |cs[0].calls| == |ss[0].calls| by { hide Inv, Step, Remaining, Work, StandsFor, LoopSteps; }
    assert |cs| == |cl| + 1 && |ss| == |sl| + 1;
    hide Inv, Remaining, LoopSteps, Kept, Spent, StandsFor, Acts;
    var ca := ClientActs(cfg, c, cs, cl);
    var sa, k := ServerActs(cfg, v, ss, sl);
    assert Round(cfg, cs, ca, ss, sa, k);
    RoundProgress(cfg, cs, ca, ss, sa, k);
  }

  lemma RoundDoes<W(!new)>(cfg: Config, c: Event<W>, v: Event<W>, cs: seq<System<W>>, cl: seq<Label<W>>, ss: seq<System<W>>, sl: seq<Label<W>>)
    requires Sound(cfg) && RoundSteps(cfg, c, v, cs, cl, ss, sl) && Inv(cfg, cs[0])
    ensures Done(cfg, cs[0], cs[|cl|]) && Done(cfg, ss[0], ss[|sl|]) && Done(cfg, cs[0], ss[|sl|])
    ensures ss[|sl|].client.rx.inbox == []
  {
    RoundLoops(cfg, c, v, cs, cl, ss, sl);
    ServerLeavesInbox(cfg, v.rxTurns', v.txTurns', ss, sl);
    hide Inv, LoopSteps, Kept, Spent, StandsFor;
    LoopStepsDo(cfg, cs, cl, 0, |cl|);
    LoopStepsDo(cfg, ss, sl, 0, |sl|);
    DoneOn(cfg, cs[0], ss[0], ss[|sl|]);
  }

  ghost predicate AtRest<W(!new)>(cfg: Config, s: System<W>) {
    Remaining(cfg, s) == 0 && s.client.rx.inbox == []
  }

  /** After i rounds, counting the calls that were issued meanwhile. */
  ghost predicate Slower<W(!new)>(cfg: Config, s: System<W>, z: System<W>, i: nat) {
    s.calls <= z.calls && Remaining(cfg, z) + i <= Remaining(cfg, s) + Work(cfg, z.calls[|s.calls|..])
  }

  ghost predicate Counted<W(!new)>(cfg: Config, s: System<W>, z: System<W>, i: nat) {
    && Done(cfg, s, z) && (i > 0 ==> z.client.rx.inbox == [])
    && (Slower(cfg, s, z, i) || AtRest(cfg, z))
  }

  /** A round counts, or the system is at rest after it. */
  lemma RoundCounts<W(!new)>(cfg: Config, c: Event<W>, v: Event<W>, cs: seq<System<W>>, cl: seq<Label<W>>, ss: seq<System<W>>, sl: seq<Label<W>>)
    requires Sound(cfg) && RoundSteps(cfg, c, v, cs, cl, ss, sl) && Inv(cfg, cs[0])
    ensures Counted(cfg, cs[0], ss[|sl|], 1) && (AtRest(cfg, cs[0]) ==> AtRest(cfg, ss[|sl|]))
  {
    var s, z := cs[0], ss[|sl|];
    RoundLoops(cfg, c, v, cs, cl, ss, sl);
    RoundDoes(cfg, c, v, cs, cl, ss, sl);
    if AtRest(cfg, s) {
      NothingRemains(cfg, s);
      LoopsRest(cfg, cs, cl, |cl|);
      LoopsRest(cfg, ss, sl, |sl|);
    }
    hide Inv, Remaining, Kept, RoundSteps, LoopSteps, Work;
    if |z.calls| == |s.calls| {
      QuietRound(cfg, c, v, cs, cl, ss, sl);
      assert z.calls[|s.calls|..] == [];
    }
  }

  lemma SlowerOn<W(!new)>(cfg: Config, a: System<W>, b: System<W>, c: System<W>, i: nat)
    requires Slower(cfg, a, b, i) && Slower(cfg, b, c, 1)
    ensures Slower(cfg, a, c, i + 1)
  {
    hide Remaining, Work;
    assert c.calls[|a.calls|..] == b.calls[|a.calls|..] + c.calls[|b.calls|..];
    WorkConcat(cfg, b.calls[|a.calls|..], c.calls[|b.calls|..]);
  }

  lemma CountOn<W(!new)>(cfg: Config, a: System<W>, b: System<W>, c: System<W>, i: nat)
    requires Counted(cfg, a, b, i) && Counted(cfg, b, c, 1) && (AtRest(cfg, b) ==> AtRest(cfg, c))
    ensures Counted(cfg, a, c, i + 1)
  {
    hide Done, Slower, AtRest;
    DoneOn(cfg, a, b, c);
    if Slower(cfg, a, b, i) && Slower(cfg, b, c, 1) {
      SlowerOn(cfg, a, b, c, i);
    }
  }

  lemma NoRounds<W(!new)>(cfg: Config, s: System<W>)
    requires Inv(cfg, s)
    ensures Counted(cfg, s, s, 0)
  {
    hide Inv, Remaining, Kept;
    KeptSame(cfg, s);
    SpentSame(cfg, s, s);
  }

  /** From event m on, the schedule consists of rounds. */
  ghost predicate RoundsFrom<W(!new)>(events: seq<Event<W>>, m: nat, n: nat) {
    m + 2 * n == |events| && forall i :: 0 <= i < n ==> RoundAt(events, m, i)
  }

  lemma RoundsSize<W(!new)>(events: seq<Event<W>>, m: nat, n: nat)
    requires RoundsFrom(events, m, n)
    ensures m + 2 * n == |events|
  {
  }

  predicate RoundAt<W>(events: seq<Event<W>>, m: nat, i: nat)
    requires m + 2 * i + 1 < |events|
  {
    IsRound(events[m + 2 * i], events[m + 2 * i + 1])
  }

  /** The steps of the i-th of these rounds. */
  lemma RoundParts<W(!new)>(cfg: Config, events: seq<Event<W>>, trace: seq<System<W>>, labels: seq<Label<W>>, cuts: seq<nat>, m: nat, n: nat, i: nat)
    returns (cs: seq<System<W>>, cl: seq<Label<W>>, ss: seq<System<W>>, sl: seq<Label<W>>)
    requires Executes(cfg, events, trace, labels, cuts) && RoundsFrom(events, m, n) && i < n
    ensures RoundSteps(cfg, events[m + 2 * i], events[m + 2 * i + 1], cs, cl, ss, sl)
    ensures |cs| == |cl| + 1 && |ss| == |sl| + 1 && cuts[m + 2 * i] < |trace| && cuts[m + 2 * i + 2] < |trace|
    ensures cs[0] == trace[cuts[m + 2 * i]] && ss[|sl|] == trace[cuts[m + 2 * i + 2]]
  {
    hide StandsFor, Executes, RoundsFrom;
    var j := m + 2 * i;
    ExecutesSize(cfg, events, trace, labels, cuts);
    assert j + 1 < |events| && IsRound(events[j], events[j + 1]) by { RoundHere(events, m, n, i); }
    cs, cl := PartAt(cfg, events, trace, labels, cuts, j);
    ss, sl := PartAt(cfg, events, trace, labels, cuts, j + 1);
  }

  lemma RoundHere<W(!new)>(events: seq<Event<W>>, m: nat, n: nat, i: nat)
    requires RoundsFrom(events, m, n) && i < n
    ensures m + 2 * i + 1 < |events| && IsRound(events[m + 2 * i], events[m + 2 * i + 1])
  {
    assert RoundAt(events, m, i);
  }

  lemma PartAt<W(!new)>(cfg: Config, events: seq<Event<W>>, trace: seq<System<W>>, labels: seq<Label<W>>, cuts: seq<nat>, j: nat)
    returns (states: seq<System<W>>, ls: seq<Label<W>>)
    requires Executes(cfg, events, trace, labels, cuts) && j < |events| && |cuts| == |events| + 1
    ensures cuts[j] < |trace| && cuts[j + 1] < |trace| && |states| == |ls| + 1
    ensures StandsFor(cfg, events[j], states, ls) && states[0] == trace[cuts[j]] && states[|ls|] == trace[cuts[j + 1]]
  {
    hide StandsFor, Step;
    assert Part(cfg, events, trace, labels, cuts, j);
    states, ls := trace[cuts[j]..cuts[j + 1] + 1], labels[cuts[j]..cuts[j + 1]];
  }

  lemma {:induction false} RoundsCount<W(!new)>(cfg: Config, events: seq<Event<W>>, trace: seq<System<W>>, labels: seq<Label<W>>, cuts: seq<nat>,
                                                m: nat, n: nat, i: nat)
    requires Sound(cfg) && Executes(cfg, events, trace, labels, cuts) && RoundsFrom(events, m, n) && i <= n
    requires cuts[m] < |trace| && Inv(cfg, trace[cuts[m]])
    ensures cuts[m + 2 * i] < |trace| && Counted(cfg, trace[cuts[m]], trace[cuts[m + 2 * i]], i)
  {
    hide Executes, RoundsFrom, RoundSteps, Inv, Counted, AtRest;
    ExecutesSize(cfg, events, trace, labels, cuts);
    assert m + 2 * n == |events| by { RoundsSize(events, m, n); }
    var s := trace[cuts[m]];
    if i == 0 {
      NoRounds(cfg, s);
    } else {
      RoundsCount(cfg, events, trace, labels, cuts, m, n, i - 1);
      var cs, cl, ss, sl := RoundParts(cfg, events, trace, labels, cuts, m, n, i - 1);
      var j := m + 2 * (i - 1);
      assert Inv(cfg, cs[0]) by { CountedInv(cfg, s, cs[0], i - 1); }
      RoundCounts(cfg, events[j], events[j + 1], cs, cl, ss, sl);
      CountOn(cfg, s, cs[0], ss[|sl|], i - 1);
    }
  }

  lemma CountedInv<W(!new)>(cfg: Config, s: System<W>, z: System<W>, i: nat)
    requires Counted(cfg, s, z, i)
    ensures Inv(cfg, z)
  {
  }

  /** A schedule that ends in rounds, at least as many as there is work left when they begin,
      counting the work of the calls that callbacks issue meanwhile: all calls are answered. */
  lemma RoundsAnswer<W(!new)>(cfg: Config, events: seq<Event<W>>, trace: seq<System<W>>, labels: seq<Label<W>>, cuts: seq<nat>, m: nat, n: nat)
    requires Sound(cfg) && Executes(cfg, events, trace, labels, cuts) && RoundsFrom(events, m, n)
    requires cuts[m] < |trace| && Inv(cfg, trace[cuts[m]])
    ensures var s, z := trace[cuts[m]], trace[|labels|];
            && s.calls <= z.calls
            && (n > 0 && n >= Remaining(cfg, s) + Work(cfg, z.calls[|s.calls|..]) ==> AllAnswered(s, z))
  {
    hide Executes, RoundsFrom, Inv, Counted, Remaining, AllAnswered, Work;
    ExecutesSize(cfg, events, trace, labels, cuts);
    assert m + 2 * n == |events| by { RoundsSize(events, m, n); }
    RoundsCount(cfg, events, trace, labels, cuts, m, n, n);
    EnoughRounds(cfg, trace[cuts[m]], trace[|labels|], n);
  }

  lemma EnoughRounds<W(!new)>(cfg: Config, s: System<W>, z: System<W>, n: nat)
    requires Counted(cfg, s, z, n)
    ensures s.calls <= z.calls
    ensures n > 0 && n >= Remaining(cfg, s) + Work(cfg, z.calls[|s.calls|..]) ==> AllAnswered(s, z)
  {
    hide Inv, Kept, Remaining, AllAnswered, Work;
    if n > 0 && n >= Remaining(cfg, s) + Work(cfg, z.calls[|s.calls|..]) {
      RestIsAnswer(cfg, s, z);
    }
  }
}
