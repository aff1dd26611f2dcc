/** Progress of whole rounds.  A measure of what is left to do, which no activity of the two
    loops increases and which every round of the client and the server decreases. */
module Progress {
  import opened Bytes
  import opened Frame
  import ByteOrder
  import opened ParamTypes
  import opened Marshaller
  import Wire
  import opened ChannelModule
  import opened Peers
  import opened Protocol
  import opened Invariant
  import opened Runs
  import opened Liveness

  function Chan<W>(cfg: Config, s: System<W>, d: Direction): Channel {
    if d.UP? then UpChannel(cfg, s) else DownChannel(cfg, s)
  }

  /** More than the hops that the bytes of the reply to a call have to make. */
  function ReplyBound(c: Call): nat {
    4 * (|c.key| + |c.proto.params| * 0x1_0002 + 19) + 1
  }

  function Budget(calls: seq<Call>): nat {
    if calls == [] then 0 else ReplyBound(calls[0]) + Budget(calls[1..])
  }

  /** What is left to do in a direction: the hops of the bytes under way and, for replies, the
      bounds of those that the server has yet to send. */
  function Left<W>(cfg: Config, s: System<W>, d: Direction): nat {
    Hops(Chan(cfg, s, d)) + if d.DOWN? && s.taken <= |s.calls| then Budget(s.calls[s.taken..]) else 0
  }

  function Remaining<W>(cfg: Config, s: System<W>): nat {
    Left(cfg, s, UP) + Left(cfg, s, DOWN)
  }

  lemma ReplyFits<W(!new)>(cfg: Config, calls: seq<Call>, x: Served<W>, o: Endian)
    requires Sound(cfg) && GoodServed(calls, x)
    ensures 4 * |Enc(o, ReplyOf(cfg, x))| < ReplyBound(x.call)
  {
    hide GoodServed, ReplyOf, Enc, Sound;
    ReplyLength(cfg, calls, x);
    ReplyName(cfg, x);
  }

  lemma ReplyLength<W(!new)>(cfg: Config, calls: seq<Call>, x: Served<W>)
    requires Sound(cfg) && GoodServed(calls, x)
    ensures |ReplyOf(cfg, x).value| <= 8 + |x.call.proto.params| * 0x1_0002
  {
    var p, out := x.call.proto, Result(x);
    hide EncodeOuts, InFormat, FitAll, FitFormat, WireAll, Perform, EncodeArgs, ByteOrder.EncodeNum, Pow256;
    PerformIsCall(cfg.cln, cfg.srv, p, x.f, x.world, x.call.vals);
    hide Typed, Result;
    InFormatLength(p.params, out.args);
    EncodeOutsLength(cfg.srv, InFormat(p.params), out.args);
  }

  lemma InFormatLength(params: seq<Param>, vals: seq<Value>)
    requires FitAll(params, vals)
    ensures |InFormat(params)| == |params|
  {
    FormatFits(params, vals);
  }

  lemma HopsPush(c: Channel, m: Message)
    requires Begun(c.tx)
    ensures Hops(Push(c, m)) == Hops(c) + 4 * |Enc(c.tx.order, m)|
    ensures forall h :: Enabled(h, c) ==> Enabled(h, Push(c, m))
  {
    UnwrittenPush(c.tx, m);
    hide Unwritten, Enc;
  }

  lemma HopsPop(c: Channel)
    requires c.rx.inbox != []
    ensures Hops(Pop(c)) == Hops(c)
    ensures forall h :: Enabled(h, c) ==> Enabled(h, Pop(c))
  {
    hide Unwritten;
  }

  /** No activity increases what is left, and a hop that can be made stays possible until some
      byte has moved. */
  ghost predicate Moves<W(!new)>(cfg: Config, s: System<W>, a: Activity, s': System<W>, d: Direction) {
    && Left(cfg, s', d) <= Left(cfg, s, d)
    && forall h :: Enabled(h, Chan(cfg, s, d)) ==>
         Left(cfg, s', d) < Left(cfg, s, d) || (Enabled(h, Chan(cfg, s', d)) && a != Move(d, h))
  }

  lemma TurnMoves<W(!new)>(cfg: Config, s: System<W>, dir: Direction, hop: Hop, s': System<W>, d: Direction)
    requires Inv(cfg, s) && TurnStep(cfg, s, dir, hop, s')
    ensures Moves(cfg, s, Move(dir, hop), s', d)
  {
    hide HopStep, Hops, Enabled, ChannelInv, LogInv, Budget, Requests, Replies;
    if dir == d {
      HopProgress(hop, Chan(cfg, s, d), Chan(cfg, s', d));
    } else {
      assert Chan(cfg, s', d) == Chan(cfg, s, d);
    }
  }

  lemma AnswerMoves<W(!new)>(cfg: Config, s: System<W>, s': System<W>, d: Direction)
    requires Sound(cfg) && Inv(cfg, s) && ServeStep(cfg, s, s')
    ensures Moves(cfg, s, Answer, s', d) && (d.DOWN? ==> Left(cfg, s', d) < Left(cfg, s, d))
  {
    hide Inv, ServeStep, Hops, Enabled, ReplyOf, Requests, Replies, ReplyBound, GoodServed, Budget, Pop, Push;
    ServeChannels(cfg, s, s');
    if d.UP? {
      HopsPop(UpChannel(cfg, s));
    } else {
      AnswerLess(cfg, s, s');
    }
  }

  lemma AnswerLess<W(!new)>(cfg: Config, s: System<W>, s': System<W>)
    requires Sound(cfg) && Inv(cfg, s) && ServeStep(cfg, s, s')
    ensures Left(cfg, s', DOWN) < Left(cfg, s, DOWN)
  {
    hide Inv, ServeStep, Hops, ReplyOf, Requests, Replies, ReplyBound, GoodServed, Push, UpChannel;
    ServeChannels(cfg, s, s');
    var c := s.calls[s.taken];
    assert s.calls[s.taken..][1..] == s.calls[s.taken + 1..];
    assert Budget(s.calls[s.taken..]) == ReplyBound(c) + Budget(s.calls[s.taken + 1..]);
    hide Budget;
    if !Drops(s.server, c.key) {
      var x := Served(s.taken, c, s.server.skels[c.key].value.f, s.server.world);
      ReplyFits(cfg, s.calls, x, s.server.tx.order);
      DownBegun(cfg, s);
      HopsPush(DownChannel(cfg, s), ReplyOf(cfg, x));
    } else {
      BoundPositive(c);
    }
  }

  lemma BoundPositive(c: Call)
    ensures ReplyBound(c) > 0
  {
  }

  lemma DownBegun<W(!new)>(cfg: Config, s: System<W>)
    requires Inv(cfg, s)
    ensures Begun(DownChannel(cfg, s).tx)
  {
  }

  lemma DeliverMoves<W(!new)>(cfg: Config, s: System<W>, s': System<W>, d: Direction)
    requires Inv(cfg, s) && s.client.rx.inbox != [] && DispatchStep(cfg, s, [], s')
    ensures Moves(cfg, s, Deliver, s', d)
  {
    hide Matched, DispatchNext, Erase, Inv, Requests, Replies;
    HopsPop(DownChannel(cfg, s));
    assert UpChannel(cfg, s') == UpChannel(cfg, s) && DownChannel(cfg, s') == Pop(DownChannel(cfg, s));
    hide Hops, Enabled, DispatchStep, Pop;
  }

  lemma ActMoves<W(!new)>(cfg: Config, s: System<W>, a: Activity, s': System<W>, d: Direction)
    requires Sound(cfg) && Inv(cfg, s) && Act(cfg, s, a, s')
    ensures Moves(cfg, s, a, s', d)
  {
    hide Inv, TurnStep, ServeStep, DispatchStep, Left, Enabled, Chan;
    match a {
      case Move(dir, hop) => TurnMoves(cfg, s, dir, hop, s', d);
      case Answer => if s.server.rx.inbox != [] { AnswerMoves(cfg, s, s', d); }
      case Deliver => if s.client.rx.inbox != [] { DeliverMoves(cfg, s, s', d); }
    }
  }

  /** Requests that were received stay in the inbox until one of them is answered. */
  lemma ActInbox<W(!new)>(cfg: Config, s: System<W>, a: Activity, s': System<W>)
    requires Sound(cfg) && Inv(cfg, s) && Act(cfg, s, a, s')
    ensures s.server.rx.inbox <= s'.server.rx.inbox || Left(cfg, s', DOWN) < Left(cfg, s, DOWN)
  {
    hide Inv, ServeStep, DispatchStep, Left, Wire.Received, TxStep, FlushStep;
    match a {
      case Move(dir, hop) =>
      case Answer => if s.server.rx.inbox != [] { AnswerMoves(cfg, s, s', DOWN); }
      case Deliver => if s.client.rx.inbox != [] { DispatchKeeps(cfg, s, [], s'); }
    }
  }

  // Sequences of activities.

  ghost predicate Acts<W(!new)>(cfg: Config, states: seq<System<W>>, acts: seq<Activity>) {
    |states| == |acts| + 1 && forall i :: 0 <= i < |acts| ==> Act(cfg, states[i], acts[i], states[i + 1])
  }

  ghost predicate Carried<W(!new)>(cfg: Config, s: System<W>, z: System<W>, acts: seq<Activity>, d: Direction) {
    && Left(cfg, z, d) <= Left(cfg, s, d)
    && forall h :: Enabled(h, Chan(cfg, s, d)) ==>
         Left(cfg, z, d) < Left(cfg, s, d) || (Enabled(h, Chan(cfg, z, d)) && Move(d, h) !in acts)
  }

  /** What holds of one activity holds of many. */
  lemma {:induction false} ActsCarry<W(!new)>(cfg: Config, states: seq<System<W>>, acts: seq<Activity>, i: nat, j: nat, d: Direction)
    requires Sound(cfg) && Acts(cfg, states, acts) && i <= j <= |acts| && Inv(cfg, states[i])
    ensures Inv(cfg, states[j]) && Carried(cfg, states[i], states[j], acts[i..j], d)
    decreases j
  {
    hide Inv, Act, Left, Enabled, Chan;
    if i < j {
      ActsCarry(cfg, states, acts, i, j - 1, d);
      assert Act(cfg, states[j - 1], acts[j - 1], states[j - 1 + 1]);
      ActInv(cfg, states[j - 1], acts[j - 1], states[j]);
      ActMoves(cfg, states[j - 1], acts[j - 1], states[j], d);
      assert acts[i..j] == acts[i..j - 1] + [acts[j - 1]];
      CarryOn(cfg, states[i], states[j - 1], states[j], acts[i..j - 1], acts[j - 1], d);
    }
  }

  lemma ActsCarryAll<W(!new)>(cfg: Config, states: seq<System<W>>, acts: seq<Activity>, d: Direction)
    requires Sound(cfg) && Acts(cfg, states, acts) && Inv(cfg, states[0])
    ensures Inv(cfg, states[|acts|]) && Carried(cfg, states[0], states[|acts|], acts, d)
  {
    hide Inv, Act, Carried;
    assert acts[0..|acts|] == acts;
    ActsCarry(cfg, states, acts, 0, |acts|, d);
  }

  lemma CarryOn<W(!new)>(cfg: Config, s: System<W>, m: System<W>, z: System<W>, acts: seq<Activity>, a: Activity, d: Direction)
    requires Carried(cfg, s, m, acts, d) && Moves(cfg, m, a, z, d)
    ensures Carried(cfg, s, z, acts + [a], d)
  {
    hide Left, Enabled, Chan;
  }

  lemma {:induction false} ActsInbox<W(!new)>(cfg: Config, states: seq<System<W>>, acts: seq<Activity>, j: nat)
    requires Sound(cfg) && Acts(cfg, states, acts) && j <= |acts| && Inv(cfg, states[0])
    ensures states[0].server.rx.inbox <= states[j].server.rx.inbox || Left(cfg, states[j], DOWN) < Left(cfg, states[0], DOWN)
    decreases j
  {
    hide Inv, Act, Left;
    if j > 0 {
      ActsInbox(cfg, states, acts, j - 1);
      ActsCarry(cfg, states, acts, 0, j - 1, DOWN);
      assert Act(cfg, states[j - 1], acts[j - 1], states[j - 1 + 1]);
      ActMoves(cfg, states[j - 1], acts[j - 1], states[j], DOWN);
      ActInbox(cfg, states[j - 1], acts[j - 1], states[j]);
      hide Enabled, Chan;
    }
  }

  // A round of the client and then of the server.

  /** The activities of a round in which every timed loop has time for a turn: k of the server's
      are those before its transmit loop. */
  ghost predicate Round<W(!new)>(cfg: Config, cs: seq<System<W>>, ca: seq<Activity>, ss: seq<System<W>>, sa: seq<Activity>, k: nat) {
    && Acts(cfg, cs, ca) && Acts(cfg, ss, sa) && cs[|ca|] == ss[0] && k <= |sa|
    && (cs[0].client.tx.queue != [] ==> Move(UP, SEND) in ca) && Move(UP, FLUSH) in ca && Move(DOWN, RECEIVE) in ca
    && Move(UP, RECEIVE) in sa && ss[k].server.rx.inbox == []
    && (ss[k].server.tx.queue != [] ==> Move(DOWN, SEND) in sa[k..|sa|]) && Move(DOWN, FLUSH) in sa
  }

  lemma RoundCarries<W(!new)>(cfg: Config, cs: seq<System<W>>, ca: seq<Activity>, ss: seq<System<W>>, sa: seq<Activity>, k: nat, d: Direction)
    requires Sound(cfg) && Round(cfg, cs, ca, ss, sa, k) && Inv(cfg, cs[0])
    ensures Inv(cfg, ss[0]) && Inv(cfg, ss[|sa|])
    ensures Carried(cfg, cs[0], ss[0], ca, d) && Carried(cfg, ss[0], ss[|sa|], sa, d)
  {
    hide Inv, Acts, Carried;
    ActsCarryAll(cfg, cs, ca, d);
    ActsCarryAll(cfg, ss, sa, d);
  }

  lemma SomeHop<W(!new)>(cfg: Config, s: System<W>, d: Direction) returns (h: Hop)
    requires Inv(cfg, s) && Hops(Chan(cfg, s, d)) > 0
    ensures Enabled(h, Chan(cfg, s, d))
    ensures h == SEND ==> if d.UP? then s.client.tx.queue != [] else s.server.tx.queue != []
  {
    hide LogInv, Hops, ChannelInv;
    NoDeadlock(Chan(cfg, s, d));
    h :| Enabled(h, Chan(cfg, s, d));
  }

  lemma HopMade<W(!new)>(cfg: Config, s: System<W>, m: System<W>, z: System<W>, ca: seq<Activity>, sa: seq<Activity>, d: Direction, h: Hop)
    requires Carried(cfg, s, m, ca, d) && Carried(cfg, m, z, sa, d) && Enabled(h, Chan(cfg, s, d))
    ensures Left(cfg, z, d) <= Left(cfg, m, d) <= Left(cfg, s, d)
    ensures Move(d, h) in ca || Move(d, h) in sa ==> Left(cfg, z, d) < Left(cfg, s, d)
    ensures Left(cfg, m, d) < Left(cfg, s, d) || Enabled(h, Chan(cfg, m, d))
  {
    hide Left, Enabled, Chan;
  }

  lemma UpMade<W(!new)>(cfg: Config, s: System<W>, m: System<W>, z: System<W>, ca: seq<Activity>, sa: seq<Activity>)
    requires Inv(cfg, s) && Carried(cfg, s, m, ca, UP) && Carried(cfg, m, z, sa, UP) && Hops(Chan(cfg, s, UP)) > 0
    requires (s.client.tx.queue != [] ==> Move(UP, SEND) in ca) && Move(UP, FLUSH) in ca && Move(UP, RECEIVE) in sa
    ensures Left(cfg, z, UP) < Left(cfg, s, UP)
  {
    hide Carried, Inv, Hops, Chan, Enabled, Left;
    var h := SomeHop(cfg, s, UP);
    HopMade(cfg, s, m, z, ca, sa, UP, h);
    assert Move(UP, h) in ca || Move(UP, h) in sa;
  }

  /** A round with undelivered request bytes brings them nearer. */
  lemma RoundUp<W(!new)>(cfg: Config, cs: seq<System<W>>, ca: seq<Activity>, ss: seq<System<W>>, sa: seq<Activity>, k: nat)
    requires Sound(cfg) && Round(cfg, cs, ca, ss, sa, k) && Inv(cfg, cs[0])
    ensures Left(cfg, ss[|sa|], UP) <= Left(cfg, cs[0], UP)
    ensures Hops(UpChannel(cfg, cs[0])) > 0 ==> Left(cfg, ss[|sa|], UP) < Left(cfg, cs[0], UP)
  {
    var s, m, z := cs[0], ss[0], ss[|sa|];
    RoundCarries(cfg, cs, ca, ss, sa, k, UP);
    assert Left(cfg, z, UP) <= Left(cfg, m, UP) <= Left(cfg, s, UP) by { hide Inv, Left, Acts; }
    assert Chan(cfg, s, UP) == UpChannel(cfg, s);
    hide Acts, Inv, Left, Hops, UpChannel, Carried, Chan;
    if Hops(Chan(cfg, s, UP)) > 0 {
      UpMade(cfg, s, m, z, ca, sa);
    }
  }

  /** From m over k to z, the server's part: what can be sent is sent, and what waits is
      answered. */
  lemma ServerMade<W(!new)>(cfg: Config, m: System<W>, k: System<W>, z: System<W>, before: seq<Activity>, after: seq<Activity>)
    requires Carried(cfg, m, k, before, DOWN) && Carried(cfg, k, z, after, DOWN)
    requires m.server.rx.inbox <= k.server.rx.inbox || Left(cfg, k, DOWN) < Left(cfg, m, DOWN)
    requires k.server.rx.inbox == [] && (k.server.tx.queue != [] ==> Move(DOWN, SEND) in after)
    ensures Left(cfg, z, DOWN) <= Left(cfg, m, DOWN)
    ensures Enabled(SEND, Chan(cfg, m, DOWN)) || m.server.rx.inbox != [] ==> Left(cfg, z, DOWN) < Left(cfg, m, DOWN)
  {
    assert Enabled(SEND, Chan(cfg, k, DOWN)) ==> k.server.tx.queue != [];
    hide Enabled, Chan, Left;
  }

  lemma ServerPart<W(!new)>(cfg: Config, ss: seq<System<W>>, sa: seq<Activity>, k: nat)
    requires Sound(cfg) && Acts(cfg, ss, sa) && Inv(cfg, ss[0]) && k <= |sa|
    requires ss[k].server.rx.inbox == [] && (ss[k].server.tx.queue != [] ==> Move(DOWN, SEND) in sa[k..|sa|])
    ensures Enabled(SEND, Chan(cfg, ss[0], DOWN)) || ss[0].server.rx.inbox != [] ==> Left(cfg, ss[|sa|], DOWN) < Left(cfg, ss[0], DOWN)
  {
    var m, x, z := ss[0], ss[k], ss[|sa|];
    hide Inv, Acts, Left, Carried, Enabled, Chan;
    ActsCarry(cfg, ss, sa, 0, k, DOWN);
    ActsCarry(cfg, ss, sa, k, |sa|, DOWN);
    ActsInbox(cfg, ss, sa, k);
    ServerMade(cfg, m, x, z, sa[0..k], sa[k..|sa|]);
  }

  lemma DownMade<W(!new)>(cfg: Config, s: System<W>, m: System<W>, z: System<W>, ca: seq<Activity>, sa: seq<Activity>)
    requires Inv(cfg, s) && Carried(cfg, s, m, ca, DOWN) && Carried(cfg, m, z, sa, DOWN) && Hops(Chan(cfg, s, DOWN)) > 0
    requires Move(DOWN, RECEIVE) in ca && Move(DOWN, FLUSH) in sa
    requires Enabled(SEND, Chan(cfg, m, DOWN)) ==> Left(cfg, z, DOWN) < Left(cfg, m, DOWN)
    ensures Left(cfg, z, DOWN) < Left(cfg, s, DOWN)
  {
    hide Carried, Inv, Hops, Chan, Enabled, Left;
    var h := SomeHop(cfg, s, DOWN);
    HopMade(cfg, s, m, z, ca, sa, DOWN, h);
    assert h == SEND || Move(DOWN, h) in ca || Move(DOWN, h) in sa;
  }

  /** A round with undelivered reply bytes, or with requests that wait for an answer, leaves
      less to do for replies. */
  lemma RoundDown<W(!new)>(cfg: Config, cs: seq<System<W>>, ca: seq<Activity>, ss: seq<System<W>>, sa: seq<Activity>, k: nat)
    requires Sound(cfg) && Round(cfg, cs, ca, ss, sa, k) && Inv(cfg, cs[0])
    ensures Left(cfg, ss[|sa|], DOWN) <= Left(cfg, cs[0], DOWN)
    ensures Hops(DownChannel(cfg, cs[0])) > 0 || cs[0].server.rx.inbox != [] ==> Left(cfg, ss[|sa|], DOWN) < Left(cfg, cs[0], DOWN)
  {
    var s, m, z := cs[0], ss[0], ss[|sa|];
    RoundCarries(cfg, cs, ca, ss, sa, k, DOWN);
    assert Left(cfg, z, DOWN) <= Left(cfg, m, DOWN) <= Left(cfg, s, DOWN) by { hide Inv, Left, Acts; }
    assert Chan(cfg, s, DOWN) == DownChannel(cfg, s);
    hide Acts, Inv, Left, Hops, Enabled, DownChannel, Carried, Chan;
    ServerPart(cfg, ss, sa, k);
    ActsInbox(cfg, cs, ca, |ca|);
    if Hops(Chan(cfg, s, DOWN)) > 0 {
      DownMade(cfg, s, m, z, ca, sa);
    }
  }

  /** While anything remains, a round leaves less. */
  lemma RoundProgress<W(!new)>(cfg: Config, cs: seq<System<W>>, ca: seq<Activity>, ss: seq<System<W>>, sa: seq<Activity>, k: nat)
    requires Sound(cfg) && Round(cfg, cs, ca, ss, sa, k) && Inv(cfg, cs[0])
    ensures Remaining(cfg, ss[|sa|]) <= Remaining(cfg, cs[0])
    ensures Remaining(cfg, cs[0]) > 0 ==> Remaining(cfg, ss[|sa|]) < Remaining(cfg, cs[0])
  {
    var s := cs[0];
    hide Round, Inv, Left, Hops, UpChannel, DownChannel;
    RoundUp(cfg, cs, ca, ss, sa, k);
    RoundDown(cfg, cs, ca, ss, sa, k);
    if Remaining(cfg, s) > 0 {
      Waiting(cfg, s);
    }
  }

  /** When all bytes have arrived, what remains is in the inbox of the server. */
  lemma Waiting<W(!new)>(cfg: Config, s: System<W>)
    requires Inv(cfg, s) && Remaining(cfg, s) > 0
    ensures Hops(UpChannel(cfg, s)) > 0 || Hops(DownChannel(cfg, s)) > 0 || s.server.rx.inbox != []
  {
    hide LogInv, Hops;
    if Hops(UpChannel(cfg, s)) == 0 {
      Drained(UpChannel(cfg, s));
    }
  }

  /** When nothing remains and no reply waits to be dispatched, the system is at rest. */
  lemma NothingRemains<W(!new)>(cfg: Config, s: System<W>)
    requires Inv(cfg, s) && Remaining(cfg, s) == 0 && s.client.rx.inbox == []
    ensures RankOf(cfg, s) == ZERO
  {
    Drained(UpChannel(cfg, s));
    hide ChannelInv, LogInv, Hops;
    NoBudget(s.calls, s.taken);
  }

  lemma NoBudget(calls: seq<Call>, n: nat)
    requires n <= |calls|
    ensures Budget(calls[n..]) == 0 ==> n == |calls|
  {
  }

  // The rounds of the loops.

  /** What a turn of the client's loops is, when callbacks issue nothing. */
  function ClientActivity(x: ClientAction): Activity {
    match x
    case Transmit => Move(UP, SEND)
    case FlushOut => Move(UP, FLUSH)
    case Receive => Move(DOWN, RECEIVE)
    case DispatchReply(_, _) => Deliver
  }

  function ServerActivity(x: ServerAction): Activity {
    match x
    case Transmit' => Move(DOWN, SEND)
    case FlushOut' => Move(DOWN, FLUSH)
    case Receive' => Move(UP, RECEIVE)
    case ServeRequest => Answer
  }

  function ClientActivities(xs: seq<ClientAction>): seq<Activity> {
    seq(|xs|, i requires 0 <= i < |xs| => ClientActivity(xs[i]))
  }

  function ServerActivities(xs: seq<ServerAction>): seq<Activity> {
    seq(|xs|, i requires 0 <= i < |xs| => ServerActivity(xs[i]))
  }

  lemma ClientPlanHas(n: nat, rx: nat, reactions: seq<seq<Request>>, rets: seq<Option<nat>>)
    requires rx > 0
    ensures var acts := ClientActivities(ClientPlan(n, rx, reactions, rets));
            (n > 0 ==> Move(UP, SEND) in acts) && Move(UP, FLUSH) in acts && Move(DOWN, RECEIVE) in acts
  {
    var acts := ClientActivities(ClientPlan(n, rx, reactions, rets));
    assert n > 0 ==> acts[0] == Move(UP, SEND);
    assert acts[n] == Move(UP, FLUSH);
    assert acts[n + 1] == Move(DOWN, RECEIVE);
  }

  lemma ServerPlanHas(rx: nat, d: nat, n: nat)
    requires rx > 0
    ensures var acts := ServerActivities(ServerPlan(rx, d, n));
            && rx + d <= |acts| && (n > 0 ==> Move(DOWN, SEND) in acts[rx + d..|acts|])
            && Move(DOWN, FLUSH) in acts && Move(UP, RECEIVE) in acts
  {
    var acts := ServerActivities(ServerPlan(rx, d, n));
    assert acts[0] == Move(UP, RECEIVE);
    assert acts[rx + d + n] == Move(DOWN, FLUSH);
    if n > 0 {
      assert acts[rx + d] == Move(DOWN, SEND);
      assert acts[rx + d..|acts|][0] == Move(DOWN, SEND);
    }
  }

  lemma RestIsAnswer<W(!new)>(cfg: Config, s: System<W>, z: System<W>)
    requires Inv(cfg, z) && Remaining(cfg, z) == 0 && z.client.rx.inbox == [] && Kept(s, z)
    ensures AllAnswered(s, z)
  {
    hide Inv, Remaining, RankOf, Kept, AllAnswered;
    NothingRemains(cfg, z);
    RestAnswersAll(cfg, s, z);
  }

  // Callbacks that issue calls.

  /** What a call adds to the work: the hops of its request and the bound of its reply, and one
      more for itself. */
  function CallWork(cfg: Config, c: Call): nat {
    4 * (|c.key| + |RequestOf(cfg, c).value| + 11) + ReplyBound(c) + 1
  }

  function Work(cfg: Config, calls: seq<Call>): nat {
    if calls == [] then 0 else Work(cfg, calls[..|calls| - 1]) + CallWork(cfg, calls[|calls| - 1])
  }

  lemma {:induction false} WorkConcat(cfg: Config, a: seq<Call>, b: seq<Call>)
    ensures Work(cfg, a + b) == Work(cfg, a) + Work(cfg, b)
  {
    hide CallWork;
    if b == [] {
      assert a + b == a;
    } else {
      assert (a + b)[..|a + b| - 1] == a + b[..|b| - 1];
      WorkConcat(cfg, a, b[..|b| - 1]);
    }
  }

  /** Between two states nothing was added to what remains but the work of the calls issued, and
      each of these counts for one. */
  ghost predicate Spent<W(!new)>(cfg: Config, s: System<W>, z: System<W>) {
    && s.calls <= z.calls
    && Remaining(cfg, z) + |z.calls| <= Remaining(cfg, s) + |s.calls| + Work(cfg, z.calls[|s.calls|..])
  }

  lemma SpentSame<W(!new)>(cfg: Config, s: System<W>, z: System<W>)
    requires z.calls == s.calls && Remaining(cfg, z) <= Remaining(cfg, s)
    ensures Spent(cfg, s, z)
  {
  }

  lemma SpentOn<W(!new)>(cfg: Config, a: System<W>, b: System<W>, c: System<W>)
    requires Spent(cfg, a, b) && Spent(cfg, b, c)
    ensures Spent(cfg, a, c)
  {
    hide Remaining, Work;
    assert c.calls[|a.calls|..] == b.calls[|a.calls|..] + c.calls[|b.calls|..];
    WorkConcat(cfg, b.calls[|a.calls|..], c.calls[|b.calls|..]);
  }

  lemma {:induction false} BudgetGrows(calls: seq<Call>, c: Call)
    ensures Budget(calls + [c]) == Budget(calls) + ReplyBound(c)
  {
    hide ReplyBound;
    if calls != [] {
      assert (calls + [c])[1..] == calls[1..] + [c];
      BudgetGrows(calls[1..], c);
    } else {
      assert (calls + [c])[1..] == [];
    }
  }

  lemma BudgetPush(calls: seq<Call>, n: nat, c: Call)
    requires n <= |calls|
    ensures Budget((calls + [c])[n..]) == Budget(calls[n..]) + ReplyBound(c)
  {
    hide ReplyBound, Budget;
    assert (calls + [c])[n..] == calls[n..] + [c];
    BudgetGrows(calls[n..], c);
  }

  lemma AsyncSpent<W(!new)>(cfg: Config, s: System<W>, r: Request)
    requires Inv(cfg, s)
    ensures Spent(cfg, s, AsyncStep(cfg, s, r))
  {
    hide Inv, Accepted, CallOf, Issue, Remaining;
    if Accepted(s.client, r) {
      ClientFacts(cfg, s);
      AsyncPush(cfg, s, r);
      PushSpent(cfg, s, CallOf(s.client, r), AsyncStep(cfg, s, r));
    } else {
      SpentSame(cfg, s, AsyncStep(cfg, s, r));
    }
  }

  lemma ClientFacts<W(!new)>(cfg: Config, s: System<W>)
    requires Inv(cfg, s)
    ensures StubsOk(s.client.stubs) && s.taken <= |s.calls| && Begun(UpChannel(cfg, s).tx)
  {
  }

  lemma AsyncPush<W(!new)>(cfg: Config, s: System<W>, r: Request)
    requires StubsOk(s.client.stubs) && Accepted(s.client, r)
    ensures UpChannel(cfg, AsyncStep(cfg, s, r)) == Push(UpChannel(cfg, s), RequestOf(cfg, CallOf(s.client, r)))
    ensures DownChannel(cfg, AsyncStep(cfg, s, r)) == DownChannel(cfg, s)
  {
    AsyncPushes(cfg, s, r);
    AsyncExtends(cfg, s, r);
    hide AsyncStep, UpChannel, Push, StubsOk, Accepted, CallOf, RequestOf;
  }

  lemma PushSpent<W(!new)>(cfg: Config, s: System<W>, call: Call, s': System<W>)
    requires Begun(UpChannel(cfg, s).tx) && s.taken <= |s.calls| && s'.taken == s.taken && s'.calls == s.calls + [call]
    requires UpChannel(cfg, s') == Push(UpChannel(cfg, s), RequestOf(cfg, call)) && DownChannel(cfg, s') == DownChannel(cfg, s)
    ensures Spent(cfg, s, s')
  {
    hide RequestOf, ReplyBound, Hops, Budget, UpChannel, DownChannel, Push, Begun;
    HopsPush(UpChannel(cfg, s), RequestOf(cfg, call));
    BudgetPush(s.calls, s.taken, call);
    RequestName(cfg, call);
    assert s'.calls[|s.calls|..] == [call];
    assert [call][..0] == [];
  }

  lemma {:induction false} AsyncStepsSpent<W(!new)>(cfg: Config, s: System<W>, rs: seq<Request>)
    requires Inv(cfg, s)
    ensures Spent(cfg, s, AsyncSteps(cfg, s, rs))
  {
    hide Inv, Spent, AsyncStep;
    if rs == [] {
      SpentSame(cfg, s, s);
    } else {
      var s1 := AsyncSteps(cfg, s, rs[..|rs| - 1]);
      AsyncStepsSpent(cfg, s, rs[..|rs| - 1]);
      AsyncStepsInv(cfg, s, rs[..|rs| - 1]);
      AsyncSpent(cfg, s1, rs[|rs| - 1]);
      SpentOn(cfg, s, s1, AsyncStep(cfg, s1, rs[|rs| - 1]));
    }
  }

  lemma FinishSpent<W(!new)>(cfg: Config, s: System<W>, key: Key, i: nat, ret: Option<nat>)
    requires key in s.client.stubs && i < |s.client.stubs[key].pending| && s.client.rx.inbox != []
    ensures Spent(cfg, s, FinishDispatch(s, key, i, ret))
  {
    var s' := FinishDispatch(s, key, i, ret);
    HopsPop(DownChannel(cfg, s));
    hide Requests, Replies;
    assert UpChannel(cfg, s') == UpChannel(cfg, s) && DownChannel(cfg, s') == Pop(DownChannel(cfg, s));
    hide Hops, Budget;
    SpentSame(cfg, s, s');
  }

  lemma MemorySpent<W(!new)>(cfg: Config, s: System<W>, mem: Store)
    ensures Spent(cfg, s, s.(client := s.client.(mem := mem)))
  {
    hide Hops, Budget, Requests, Replies;
    SpentSame(cfg, s, s.(client := s.client.(mem := mem)));
  }

  lemma MatchedInbox(cfg: Config, c: Client)
    ensures Matched(cfg, c).Some? ==> c.rx.inbox != []
  {
  }

  lemma DispatchSpent<W(!new)>(cfg: Config, s: System<W>, reaction: seq<Request>, s': System<W>)
    requires Inv(cfg, s) && DispatchStep(cfg, s, reaction, s')
    ensures Spent(cfg, s, s')
  {
    hide Inv, Matched, AsyncSteps, Erase, DispatchNext, Spent, FinishDispatch;
    var (i, ret, mem) := Matched(cfg, s.client).value;
    assert s.client.rx.inbox != [] by { MatchedInbox(cfg, s.client); }
    var s0 := s.(client := s.client.(mem := mem));
    MemorySpent(cfg, s, mem);
    MemoryInv(cfg, s, mem);
    AsyncStepsSpent(cfg, s0, reaction);
    var s1 := AsyncSteps(cfg, s0, reaction);
    FinishSpent(cfg, s1, s.client.rx.inbox[0].name, i, ret);
    SpentOn(cfg, s, s0, s1);
    SpentOn(cfg, s, s1, s');
  }

  lemma ActSpent<W(!new)>(cfg: Config, s: System<W>, a: Activity, reaction: seq<Request>, s': System<W>)
    requires Sound(cfg) && Inv(cfg, s) && ActWith(cfg, s, a, reaction, s')
    ensures Spent(cfg, s, s')
  {
    hide Inv, Act, DispatchStep, Left, Enabled, Spent;
    if a.Deliver? && s.client.rx.inbox != [] {
      DispatchSpent(cfg, s, reaction, s');
    } else {
      ActMoves(cfg, s, a, s', UP);
      ActMoves(cfg, s, a, s', DOWN);
      ActCalls(cfg, s, a, s');
      SpentSame(cfg, s, s');
    }
  }

  /** At rest, nothing changes any more. */
  lemma RestStays<W(!new)>(cfg: Config, s: System<W>, a: Activity, s': System<W>)
    requires Inv(cfg, s) && Act(cfg, s, a, s') && RankOf(cfg, s) == ZERO
    ensures s' == s
  {
    hide Inv, Act, RankOf;
    ActRank(cfg, s, a, s');
  }
}
