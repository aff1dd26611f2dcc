/** Progress: when finitely many calls are issued, every fair run of the two loops answers every
    call, whatever fills the buffers and however the loops interleave. */
module Liveness {
  import opened Bytes
  import opened Frame
  import opened Marshaller
  import opened ChannelModule
  import opened Peers
  import opened Protocol
  import opened Invariant
  import opened Runs

  /** What the loops of client and server do over and over. */
  datatype Activity = Move(dir: Direction, hop: Hop) | Answer | Deliver

  /** One such activity; with nothing in the inbox there is nothing to answer or deliver. */
  ghost predicate Act<W(!new)>(cfg: Config, s: System<W>, a: Activity, s': System<W>) {
    match a
    case Move(dir, hop) => TurnStep(cfg, s, dir, hop, s')
    case Answer => if s.server.rx.inbox == [] then s' == s else ServeStep(cfg, s, s')
    case Deliver => if s.client.rx.inbox == [] then s' == s else DispatchStep(cfg, s, [], s')
  }

  lemma ActInv<W(!new)>(cfg: Config, s: System<W>, a: Activity, s': System<W>)
    requires Sound(cfg) && Inv(cfg, s) && Act(cfg, s, a, s')
    ensures Inv(cfg, s')
  {
    hide Inv, DispatchStep, ServeStep, TurnStep;
    match a {
      case Move(dir, hop) => TurnInv(cfg, s, dir, hop, s');
      case Answer => if s.server.rx.inbox != [] { ServeInv(cfg, s, s'); }
      case Deliver => if s.client.rx.inbox != [] { DispatchInv(cfg, s, [], s'); }
    }
  }

  /** The measure: hops of request bytes, requests to answer, hops of reply bytes, replies
      to deliver; smaller means lexicographically smaller. */
  datatype Rank = Rank(up: nat, asked: nat, down: nat, answered: nat)

  function RankOf<W>(cfg: Config, s: System<W>): Rank {
    Rank(Hops(UpChannel(cfg, s)), |s.server.rx.inbox|, Hops(DownChannel(cfg, s)), |s.client.rx.inbox|)
  }

  predicate Smaller(a: Rank, b: Rank) {
    || a.up < b.up
    || (a.up == b.up && a.asked < b.asked)
    || (a.up == b.up && a.asked == b.asked && a.down < b.down)
    || (a.up == b.up && a.asked == b.asked && a.down == b.down && a.answered < b.answered)
  }

  const ZERO: Rank := Rank(0, 0, 0, 0)

  predicate Useful<W>(cfg: Config, a: Activity, s: System<W>) {
    match a
    case Move(UP, hop) => Enabled(hop, UpChannel(cfg, s))
    case Move(DOWN, hop) => Enabled(hop, DownChannel(cfg, s))
    case Answer => s.server.rx.inbox != []
    case Deliver => s.client.rx.inbox != []
  }

  lemma MoveUpRank<W(!new)>(cfg: Config, s: System<W>, hop: Hop, s': System<W>)
    requires Inv(cfg, s) && TurnStep(cfg, s, UP, hop, s')
    ensures s' == s || Smaller(RankOf(cfg, s'), RankOf(cfg, s))
    ensures Useful(cfg, Move(UP, hop), s) ==> Smaller(RankOf(cfg, s'), RankOf(cfg, s))
  {
    hide Hops, Enabled, HopStep, LogInv, ChannelInv, Requests, Replies;
    HopProgress(hop, UpChannel(cfg, s), UpChannel(cfg, s'));
  }

  lemma MoveDownRank<W(!new)>(cfg: Config, s: System<W>, hop: Hop, s': System<W>)
    requires Inv(cfg, s) && TurnStep(cfg, s, DOWN, hop, s')
    ensures s' == s || Smaller(RankOf(cfg, s'), RankOf(cfg, s))
    ensures Useful(cfg, Move(DOWN, hop), s) ==> Smaller(RankOf(cfg, s'), RankOf(cfg, s))
  {
    hide Enabled, HopStep, LogInv, ChannelInv, Requests, Replies, Unwritten;
    HopProgress(hop, DownChannel(cfg, s), DownChannel(cfg, s'));
  }

  lemma AnswerRank<W(!new)>(cfg: Config, s: System<W>, s': System<W>)
    requires s.server.rx.inbox != [] && ServeStep(cfg, s, s')
    ensures Smaller(RankOf(cfg, s'), RankOf(cfg, s))
  {
    hide Requests, Replies, Unwritten, Perform;
  }

  lemma DeliverRank<W(!new)>(cfg: Config, s: System<W>, s': System<W>)
    requires s.client.rx.inbox != [] && DispatchStep(cfg, s, [], s')
    ensures Smaller(RankOf(cfg, s'), RankOf(cfg, s))
  {
    hide Requests, Replies, Unwritten, Matched, Erase, DispatchNext;
  }

  /** An activity leaves everything as it is or makes the measure smaller, and a useful one
      makes it smaller. */
  lemma ActRank<W(!new)>(cfg: Config, s: System<W>, a: Activity, s': System<W>)
    requires Inv(cfg, s) && Act(cfg, s, a, s')
    ensures s' == s || Smaller(RankOf(cfg, s'), RankOf(cfg, s))
    ensures Useful(cfg, a, s) ==> Smaller(RankOf(cfg, s'), RankOf(cfg, s))
  {
    hide Inv, DispatchStep, ServeStep, TurnStep, Smaller, RankOf, Enabled;
    match a {
      case Move(UP, hop) => MoveUpRank(cfg, s, hop, s');
      case Move(DOWN, hop) => MoveDownRank(cfg, s, hop, s');
      case Answer => if s.server.rx.inbox != [] { AnswerRank(cfg, s, s'); }
      case Deliver => if s.client.rx.inbox != [] { DeliverRank(cfg, s, s'); }
    }
  }

  /** While the measure is not zero, some activity is useful: nothing can block. */
  lemma SomethingUseful<W(!new)>(cfg: Config, s: System<W>) returns (a: Activity)
    requires Inv(cfg, s) && RankOf(cfg, s) != ZERO
    ensures Useful(cfg, a, s)
  {
    hide LogInv, ChannelInv, Hops, Enabled, UpChannel, DownChannel;
    if Hops(UpChannel(cfg, s)) > 0 {
      NoDeadlock(UpChannel(cfg, s));
      var h :| Enabled(h, UpChannel(cfg, s));
      a := Move(UP, h);
    } else if s.server.rx.inbox != [] {
      a := Answer;
    } else if Hops(DownChannel(cfg, s)) > 0 {
      NoDeadlock(DownChannel(cfg, s));
      var h :| Enabled(h, DownChannel(cfg, s));
      a := Move(DOWN, h);
    } else {
      a := Deliver;
    }
  }

  /** An endless run of the loops in which every activity comes again and again; this is so
      when each timed loop makes at least one turn each time. */
  ghost predicate Fair<W(!new)>(cfg: Config, st: nat -> System<W>, act: nat -> Activity) {
    && (forall i: nat :: Act(cfg, st(i), act(i), st(i + 1)))
    && (forall i: nat, a: Activity :: Recurs(act, i, a))
  }

  ghost predicate Recurs(act: nat -> Activity, i: nat, a: Activity) {
    exists j: nat :: Again(act, i, a, j)
  }

  ghost predicate Again(act: nat -> Activity, i: nat, a: Activity, j: nat) {
    i <= j && act(j) == a
  }

  lemma {:induction false} FairInv<W(!new)>(cfg: Config, st: nat -> System<W>, act: nat -> Activity, n: nat)
    requires Sound(cfg) && Inv(cfg, st(0)) && Fair(cfg, st, act)
    ensures Inv(cfg, st(n)) && st(n).calls == st(0).calls
  {
    hide Inv, Act;
    if n > 0 {
      FairInv(cfg, st, act, n - 1);
      assert Act(cfg, st(n - 1), act(n - 1), st(n - 1 + 1));
      ActInv(cfg, st(n - 1), act(n - 1), st(n));
      ActCalls(cfg, st(n - 1), act(n - 1), st(n));
    }
  }

  lemma ActCalls<W(!new)>(cfg: Config, s: System<W>, a: Activity, s': System<W>)
    requires Act(cfg, s, a, s')
    ensures s'.calls == s.calls
  {
    hide HopStep, ServeNext, Matched, DispatchNext, Erase;
  }

  /** No activity ever gets stuck. */
  lemma ActTotal<W(!new)>(cfg: Config, s: System<W>, a: Activity) returns (s': System<W>)
    requires Sound(cfg) && Inv(cfg, s)
    ensures Act(cfg, s, a, s')
  {
    hide TxStep, FlushStep, RxStep, ServeNext, DispatchStep, LogInv, ChannelInv, Requests, Replies;
    match a {
      case Move(UP, hop) =>
        var c := HopTotal(hop, UpChannel(cfg, s));
        s' := s.(client := s.client.(tx := c.tx), up := c.link, server := s.server.(rx := c.rx));
        assert UpChannel(cfg, s') == c;
      case Move(DOWN, hop) =>
        var c := HopTotal(hop, DownChannel(cfg, s));
        s' := s.(server := s.server.(tx := c.tx), down := c.link, client := s.client.(rx := c.rx));
        assert DownChannel(cfg, s') == c;
      case Answer =>
        s' := s;
        if s.server.rx.inbox != [] {
          ServeDefined(cfg, s);
          OldestRequest(cfg, s);
          var v, key := ServeNext(cfg, s.server).value, s.server.rx.inbox[0].name;
          s' := if Drops(s.server, key) then DropRequest(s, v)
                else AnswerRequest(s, v, s.server.skels[key].value.f);
        }
      case Deliver =>
        s' := s;
        if s.client.rx.inbox != [] {
          s' := DispatchDefined(cfg, s, []);
        }
    }
  }

  ghost function Next<W(!new)>(cfg: Config, s: System<W>, a: Activity): (s': System<W>)
    requires Sound(cfg) && Inv(cfg, s)
    ensures Act(cfg, s, a, s') && Inv(cfg, s')
  {
    hide Act, Inv;
    SomeNext(cfg, s, a);
    var s' :| Act(cfg, s, a, s');
    ActInv(cfg, s, a, s');
    s'
  }

  lemma SomeNext<W(!new)>(cfg: Config, s: System<W>, a: Activity)
    requires Sound(cfg) && Inv(cfg, s)
    ensures exists s' :: Act(cfg, s, a, s')
  {
    hide Act, Inv;
    var s' := ActTotal(cfg, s, a);
  }

  /** The order of one round of the client and one of the server. */
  function RoundRobin(n: nat): Activity {
    match n % 8
    case 0 => Move(UP, SEND)
    case 1 => Move(UP, FLUSH)
    case 2 => Move(DOWN, RECEIVE)
    case 3 => Deliver
    case 4 => Move(UP, RECEIVE)
    case 5 => Answer
    case 6 => Move(DOWN, SEND)
    case _ => Move(DOWN, FLUSH)
  }

  lemma RoundRobinRecurs(i: nat, a: Activity)
    ensures Recurs(RoundRobin, i, a)
  {
    var j := 8 * i + (match a
                      case Move(UP, SEND) => 0
                      case Move(UP, FLUSH) => 1
                      case Move(DOWN, RECEIVE) => 2
                      case Deliver => 3
                      case Move(UP, RECEIVE) => 4
                      case Answer => 5
                      case Move(DOWN, SEND) => 6
                      case Move(DOWN, FLUSH) => 7);
    ModUnique(8, i, j - 8 * i);
    assert Again(RoundRobin, i, a, j);
  }

  ghost function Rounds<W(!new)>(cfg: Config, s: System<W>, n: nat): (r: System<W>)
    requires Sound(cfg) && Inv(cfg, s)
    ensures Inv(cfg, r)
  {
    if n == 0 then s else Next(cfg, Rounds(cfg, s, n - 1), RoundRobin(n - 1))
  }

  /** Alternating rounds of client and server make a fair run from every state. */
  lemma FairRunExists<W(!new)>(cfg: Config, s: System<W>) returns (st: nat -> System<W>, act: nat -> Activity)
    requires Sound(cfg) && Inv(cfg, s)
    ensures st(0) == s && Fair(cfg, st, act)
  {
    hide Inv, Act, Sound, Recurs, RoundRobin;
    st, act := (n: nat) => Rounds(cfg, s, n), RoundRobin;
    forall i: nat ensures Act(cfg, st(i), act(i), st(i + 1)) {
      assert st(i + 1) == Next(cfg, Rounds(cfg, s, i), RoundRobin(i));
    }
    forall i: nat, a: Activity ensures Recurs(act, i, a) {
      RoundRobinRecurs(i, a);
    }
  }

  /** A procedure that has a function. */
  predicate Provided<W>(s: System<W>, k: Key) {
    !Drops(s.server, k)
  }

  lemma ActProvides<W(!new)>(cfg: Config, s: System<W>, a: Activity, s': System<W>, k: Key)
    requires Inv(cfg, s) && Act(cfg, s, a, s') && Provided(s, k)
    ensures Provided(s', k)
    ensures s.dropped <= s'.dropped && s'.calls == s.calls
    ensures forall i :: |s.dropped| <= i < |s'.dropped| ==> s'.dropped[i] < |s.calls| && s.calls[s'.dropped[i]].key != k
  {
    hide HopStep, Perform, Matched, Inv, DispatchStep, ServeStep;
    ActCalls(cfg, s, a, s');
    match a {
      case Move(dir, hop) =>
      case Answer =>
        if s.server.rx.inbox != [] {
          AnswerProvides(cfg, s, s', k);
        }
      case Deliver =>
        if s.client.rx.inbox != [] {
          DispatchKeeps(cfg, s, [], s');
        }
    }
  }

  lemma AnswerProvides<W(!new)>(cfg: Config, s: System<W>, s': System<W>, k: Key)
    requires Inv(cfg, s) && ServeStep(cfg, s, s') && Provided(s, k)
    ensures Provided(s', k) && s.dropped <= s'.dropped
    ensures forall i :: |s.dropped| <= i < |s'.dropped| ==> s'.dropped[i] < |s.calls| && s.calls[s'.dropped[i]].key != k
  {
    hide Perform, Inv;
    NextName(cfg, s);
  }

  /** Calls are only added, and no request of a procedure that has a function is dropped. */
  ghost predicate Kept<W(!new)>(s: System<W>, z: System<W>) {
    && s.calls <= z.calls && (forall d :: d in z.dropped ==> d < |z.calls|)
    && (forall k :: Provided(s, k) ==> Provided(z, k))
    && (forall c :: 0 <= c < |z.calls| && c !in s.dropped && Provided(s, z.calls[c].key) ==> c !in z.dropped)
  }

  lemma KeptSame<W(!new)>(cfg: Config, s: System<W>)
    requires Inv(cfg, s)
    ensures Kept(s, s)
  {
    DropsForever(cfg, s);
  }

  lemma KeptOn<W(!new)>(a: System<W>, b: System<W>, c: System<W>)
    requires Kept(a, b) && Kept(b, c)
    ensures Kept(a, c)
  {
    hide Provided;
    forall n | 0 <= n < |c.calls| && n !in a.dropped && Provided(a, c.calls[n].key) ensures n !in c.dropped {
      if n < |b.calls| {
        assert b.calls[n] == c.calls[n];
      }
    }
  }

  lemma ActKeeps<W(!new)>(cfg: Config, s: System<W>, a: Activity, s': System<W>)
    requires Sound(cfg) && Inv(cfg, s) && Act(cfg, s, a, s')
    ensures Kept(s, s')
  {
    hide Inv, Act, Provided;
    ActCalls(cfg, s, a, s');
    ActInv(cfg, s, a, s');
    DropsForever(cfg, s');
    forall k | Provided(s, k) ensures Provided(s', k) {
      ActProvides(cfg, s, a, s', k);
    }
    forall c | 0 <= c < |s'.calls| && c !in s.dropped && Provided(s, s'.calls[c].key) ensures c !in s'.dropped {
      ActProvides(cfg, s, a, s', s'.calls[c].key);
    }
  }

  // Callbacks that issue calls.

  /** An activity, where a reply that is delivered has a callback that issues `reaction`. */
  ghost predicate ActWith<W(!new)>(cfg: Config, s: System<W>, a: Activity, reaction: seq<Request>, s': System<W>) {
    if a.Deliver? && s.client.rx.inbox != [] then DispatchStep(cfg, s, reaction, s') else Act(cfg, s, a, s')
  }

  lemma ActWithKeeps<W(!new)>(cfg: Config, s: System<W>, a: Activity, reaction: seq<Request>, s': System<W>)
    requires Sound(cfg) && Inv(cfg, s) && ActWith(cfg, s, a, reaction, s')
    ensures Inv(cfg, s') && Kept(s, s')
  {
    hide Inv, Act, DispatchStep;
    if a.Deliver? && s.client.rx.inbox != [] {
      DispatchInv(cfg, s, reaction, s');
      DispatchKeeps(cfg, s, reaction, s');
      DropsForever(cfg, s');
    } else {
      hide Kept;
      ActInv(cfg, s, a, s');
      ActKeeps(cfg, s, a, s');
    }
  }

  /** When none of the calls of a callback is accepted, it might as well have issued none. */
  lemma {:induction false} AllRefused<W(!new)>(cfg: Config, s: System<W>, rs: seq<Request>)
    ensures |AsyncSteps(cfg, s, rs).calls| >= |s.calls|
    ensures |AsyncSteps(cfg, s, rs).calls| == |s.calls| ==>
              AsyncSteps(cfg, s, rs) == s && IssueAll(cfg, s.client, rs) == s.client
  {
    hide Accepted, Issue;
    if rs != [] {
      var s1 := AsyncSteps(cfg, s, rs[..|rs| - 1]);
      AllRefused(cfg, s, rs[..|rs| - 1]);
      RefusedIssue(cfg, s1, rs[|rs| - 1]);
    }
  }

  lemma RefusedIssue<W(!new)>(cfg: Config, s: System<W>, r: Request)
    ensures !Accepted(s.client, r) ==> Issue(cfg, s.client, r) == s.client
  {
  }

  lemma RefusedDispatch<W(!new)>(cfg: Config, s: System<W>, reaction: seq<Request>, s': System<W>)
    requires DispatchStep(cfg, s, reaction, s') && |s'.calls| == |s.calls|
    ensures DispatchStep(cfg, s, [], s')
  {
    hide AsyncStep, Issue, Erase, Accept, Find;
    var (i, ret, mem) := Matched(cfg, s.client).value;
    hide Matched;
    AllRefused(cfg, s.(client := s.client.(mem := mem)), reaction);
  }

  lemma QuietAct<W(!new)>(cfg: Config, s: System<W>, a: Activity, reaction: seq<Request>, s': System<W>)
    requires ActWith(cfg, s, a, reaction, s') && |s'.calls| == |s.calls|
    ensures Act(cfg, s, a, s')
  {
    hide DispatchStep;
    if a.Deliver? && s.client.rx.inbox != [] {
      RefusedDispatch(cfg, s, reaction, s');
    }
  }

  /** An endless fair run in which the i-th activity, if it delivers a reply, has a callback that
      issues react(i). */
  ghost predicate FairWith<W(!new)>(cfg: Config, st: nat -> System<W>, act: nat -> Activity, react: nat -> seq<Request>) {
    && (forall i: nat :: ActWith(cfg, st(i), act(i), react(i), st(i + 1)))
    && (forall i: nat, a: Activity :: Recurs(act, i, a))
  }

  /** The loops never drop a request of a registered procedure. */
  lemma {:induction false} FairProvides<W(!new)>(cfg: Config, st: nat -> System<W>, act: nat -> Activity, react: nat -> seq<Request>, m: nat, n: nat)
    requires Sound(cfg) && Inv(cfg, st(0)) && FairWith(cfg, st, act, react) && m <= n
    ensures Inv(cfg, st(m)) && Inv(cfg, st(n)) && Kept(st(m), st(n))
    decreases n
  {
    hide ActWith, Kept, Inv, Recurs;
    if m < n {
      FairProvides(cfg, st, act, react, m, n - 1);
      assert ActWith(cfg, st(n - 1), act(n - 1), react(n - 1), st(n - 1 + 1));
      ActWithKeeps(cfg, st(n - 1), act(n - 1), react(n - 1), st(n));
      KeptOn(st(m), st(n - 1), st(n));
    } else if n == 0 {
      KeptSame(cfg, st(0));
    } else {
      FairProvides(cfg, st, act, react, n - 1, n - 1);
      assert ActWith(cfg, st(n - 1), act(n - 1), react(n - 1), st(n - 1 + 1));
      ActWithKeeps(cfg, st(n - 1), act(n - 1), react(n - 1), st(n));
      KeptSame(cfg, st(n));
    }
  }

  /** Until something changes, the state waits for the next useful activity. */
  lemma {:induction false} NextChange<W(!new)>(cfg: Config, st: nat -> System<W>, act: nat -> Activity, i: nat, j: nat)
    returns (n: nat)
    requires Sound(cfg) && Inv(cfg, st(0)) && Fair(cfg, st, act) && i <= j && Useful(cfg, act(j), st(i))
    ensures n > i && Smaller(RankOf(cfg, st(n)), RankOf(cfg, st(i)))
    decreases j - i
  {
    hide Inv, Act, Useful, Smaller, RankOf;
    FairInv(cfg, st, act, i);
    assert Act(cfg, st(i), act(i), st(i + 1));
    ActRank(cfg, st(i), act(i), st(i + 1));
    if Smaller(RankOf(cfg, st(i + 1)), RankOf(cfg, st(i))) {
      n := i + 1;
    } else {
      assert st(i + 1) == st(i) && i < j;
      n := NextChange(cfg, st, act, i + 1, j);
    }
  }

  /** Every fair run comes to rest: no byte is under way and no message waits. */
  lemma {:induction false} ComesToRest<W(!new)>(cfg: Config, st: nat -> System<W>, act: nat -> Activity, i: nat)
    returns (n: nat)
    requires Sound(cfg) && Inv(cfg, st(0)) && Fair(cfg, st, act)
    ensures n >= i && RankOf(cfg, st(n)) == ZERO
    decreases RankOf(cfg, st(i)).up, RankOf(cfg, st(i)).asked, RankOf(cfg, st(i)).down, RankOf(cfg, st(i)).answered
  {
    hide Inv, Act, Useful, RankOf;
    if RankOf(cfg, st(i)) == ZERO {
      n := i;
    } else {
      FairInv(cfg, st, act, i);
      var a := SomethingUseful(cfg, st(i));
      assert Recurs(act, i, a);
      var j: nat :| Again(act, i, a, j);
      var m := NextChange(cfg, st, act, i, j);
      n := ComesToRest(cfg, st, act, m);
    }
  }

  ghost predicate Answered<W(!new)>(s: System<W>, c: nat) {
    exists j :: 0 <= j < |s.fired| && s.fired[j].no == c
  }

  /** At rest, a call has been answered, through its own entry, if and only if its own request
      was not dropped. */
  lemma RestMeansAnswered<W(!new)>(cfg: Config, s: System<W>, c: nat)
    requires Inv(cfg, s) && RankOf(cfg, s) == ZERO && c < |s.calls|
    ensures Answered(s, c) <==> c !in s.dropped
  {
    hide ChannelInv, LogInv, Hops, Answered;
    Drained(UpChannel(cfg, s));
    Drained(DownChannel(cfg, s));
    AllTaken(s, c);
  }

  lemma AllTaken<W(!new)>(s: System<W>, c: nat)
    requires LogInv(s) && s.taken == |s.calls| && |s.fired| == |s.served| && c < |s.calls|
    ensures Answered(s, c) <==> c !in s.dropped
  {
    hide CallsOk, StubsOk, SkelsOk, PendingOk, ServedOk, ReturnOf, DroppedOk;
    assert WasServed(s.served, c) <==> c !in s.dropped;
    if c !in s.dropped {
      var j :| 0 <= j < |s.served| && s.served[j].no == c;
      assert s.fired[j].no == c;
    }
    assert forall j :: 0 <= j < |s.fired| ==> s.fired[j].no == s.served[j].no;
  }

  ghost predicate AtMost<W(!new)>(st: nat -> System<W>, bound: nat) {
    forall i: nat :: |st(i).calls| <= bound
  }

  /** No call is issued from n on. */
  ghost predicate Settled<W(!new)>(st: nat -> System<W>, n: nat) {
    forall m: nat :: n <= m ==> st(m).calls == st(n).calls
  }

  /** When the number of calls is bounded, there is a last one. */
  lemma {:induction false} Settles<W(!new)>(cfg: Config, st: nat -> System<W>, act: nat -> Activity, react: nat -> seq<Request>, bound: nat, i: nat)
    returns (n: nat)
    requires Sound(cfg) && Inv(cfg, st(0)) && FairWith(cfg, st, act, react) && AtMost(st, bound)
    ensures n >= i && Settled(st, n)
    decreases bound - |st(i).calls|
  {
    hide Inv, FairWith;
    if m: nat :| m >= i && |st(m).calls| > |st(i).calls| {
      assert |st(m).calls| <= bound;
      n := Settles(cfg, st, act, react, bound, m);
    } else {
      n := i;
      forall m: nat | n <= m ensures st(m).calls == st(n).calls {
        FairProvides(cfg, st, act, react, n, m);
      }
    }
  }

  /** From then on, the run is one without callbacks. */
  lemma QuietAfter<W(!new)>(cfg: Config, st: nat -> System<W>, act: nat -> Activity, react: nat -> seq<Request>, n: nat)
    requires FairWith(cfg, st, act, react) && Settled(st, n)
    ensures Fair(cfg, (k: nat) => st(n + k), (k: nat) => act(n + k))
  {
    hide Act, ActWith;
    var st', act' := (k: nat) => st(n + k), (k: nat) => act(n + k);
    forall i: nat ensures Act(cfg, st'(i), act'(i), st'(i + 1)) {
      assert ActWith(cfg, st(n + i), act(n + i), react(n + i), st(n + i + 1));
      assert st(n + i).calls == st(n + i + 1).calls;
      QuietAct(cfg, st(n + i), act(n + i), react(n + i), st(n + i + 1));
    }
    forall i: nat, a: Activity ensures Recurs(act', i, a) {
      assert Recurs(act, n + i, a);
      var j: nat :| Again(act, n + i, a, j);
      assert Again(act', i, a, j - n);
    }
  }

  lemma ComesToRestWith<W(!new)>(cfg: Config, st: nat -> System<W>, act: nat -> Activity, react: nat -> seq<Request>, bound: nat)
    returns (n: nat)
    requires Sound(cfg) && Inv(cfg, st(0)) && FairWith(cfg, st, act, react) && AtMost(st, bound)
    ensures RankOf(cfg, st(n)) == ZERO && Settled(st, n)
  {
    hide Inv, FairWith, Fair, RankOf, AtMost;
    var m := Settles(cfg, st, act, react, bound, 0);
    QuietAfter(cfg, st, act, react, m);
    FairProvides(cfg, st, act, react, 0, m);
    var k := ComesToRest(cfg, (k: nat) => st(m + k), (k: nat) => act(m + k), 0);
    n := m + k;
  }

  /** Every call has been answered, except those whose own request was dropped; and no request
      is dropped whose procedure had a function in the state s. */
  ghost predicate AllAnswered<W(!new)>(s: System<W>, z: System<W>) {
    && (forall c :: 0 <= c < |z.calls| ==> (Answered(z, c) <==> c !in z.dropped))
    && (forall c :: 0 <= c < |z.calls| && c !in s.dropped && Provided(s, z.calls[c].key) ==> Answered(z, c))
  }

  lemma RestAnswersAll<W(!new)>(cfg: Config, s: System<W>, z: System<W>)
    requires Inv(cfg, z) && RankOf(cfg, z) == ZERO && Kept(s, z)
    ensures AllAnswered(s, z)
  {
    hide Inv, RankOf, Answered, Provided;
    forall c | 0 <= c < |z.calls| ensures Answered(z, c) <==> c !in z.dropped {
      RestMeansAnswered(cfg, z, c);
    }
  }

  /** From any state of any run, if the callbacks issue finitely many calls more, the
      system comes to a state after all of them in which a call is answered if and only if its own
      request was not dropped; and no request of a procedure that has a function by then is
      dropped any more. */
  lemma EveryCallIsAnswered<W(!new)>(cfg: Config, trace: seq<System<W>>, labels: seq<Label<W>>,
                                     st: nat -> System<W>, act: nat -> Activity, react: nat -> seq<Request>, bound: nat)
    returns (n: nat)
    requires Sound(cfg) && Run(cfg, trace, labels) && st(0) == trace[|trace| - 1]
    requires FairWith(cfg, st, act, react) && AtMost(st, bound)
    ensures st(0).calls <= st(n).calls && Settled(st, n) && AllAnswered(st(0), st(n))
  {
    hide Inv, Run, FairWith, RankOf, AtMost, AllAnswered, Settled;
    assert |trace| > 0 by { RunNonempty(cfg, trace, labels); }
    RunInv(cfg, trace, labels, |trace| - 1);
    n := ComesToRestWith(cfg, st, act, react, bound);
    FairProvides(cfg, st, act, react, 0, n);
    RestAnswersAll(cfg, st(0), st(n));
  }

  lemma RunNonempty<W(!new)>(cfg: Config, trace: seq<System<W>>, labels: seq<Label<W>>)
    requires Run(cfg, trace, labels)
    ensures |trace| > 0
  {
  }
}
