/** The counting of handles to the stubs of a client.

    A handle is a pointer to a stub.  The count of a stub is meant to keep it registered while
    any handle to it is live. */
module Handles {
  import opened Bytes
  import opened Frame
  import opened PrototypeModule

  datatype Cell = Cell(key: Key, count: int)

  /** The stubs that exist, by identity, and which of them is registered under a key; the next
      identity, which is never that of an earlier stub; and the stubs of the live handles. */
  datatype Table = Table(byKey: map<Key, nat>, cells: map<nat, Cell>, next: nat, live: seq<nat>)

  const EMPTY: Table := Table(map[], map[], 0, [])

  /** The lookup is by the bare function name; a stub inserted under a key that exists is
      given up for the one that is there. */
  function Connect(t: Table, p: Prototype): Option<Table>
    requires p.params != []
  {
    if Ascii(p.name) in t.byKey then
      var q := t.byKey[Ascii(p.name)];
      if q !in t.cells then None
      else Some(t.(cells := t.cells[q := t.cells[q].(count := t.cells[q].count + 1)], live := t.live + [q]))
    else if KeyOf(p) in t.byKey then Some(t.(live := t.live + [t.byKey[KeyOf(p)]]))
    else Some(Table(t.byKey[KeyOf(p) := t.next], t.cells[t.next := Cell(KeyOf(p), 1)], t.next + 1, t.live + [t.next]))
  }

  /** Disconnecting through a handle whose stub is gone is undefined. */
  function Disconnect(t: Table, i: nat): Option<Table>
    requires i < |t.live|
  {
    var q := t.live[i];
    if q !in t.cells then None
    else
      var cell := t.cells[q].(count := t.cells[q].count - 1);
      var rest := t.live[..i] + t.live[i + 1..];
      Some(if cell.count <= 0 then t.(byKey := t.byKey - {cell.key}, cells := t.cells - {q}, live := rest)
           else t.(cells := t.cells[q := cell], live := rest))
  }

  datatype Event = Connected(p: Prototype) | Disconnected(i: nat)

  ghost predicate Next(t: Table, e: Event, t': Table) {
    match e
    case Connected(p) => Connectable(p) && Connect(t, p) == Some(t')
    case Disconnected(i) => i < |t.live| && Disconnect(t, i) == Some(t')
  }

  ghost predicate IsKey(k: Key) {
    exists p :: Connectable(p) && KeyOf(p) == k
  }

  /** Stubs and keys are in bijection, no key is a bare name, and no count is ever anything
      but 1. */
  ghost predicate Inv(t: Table) {
    && (forall k :: k in t.byKey ==> IsKey(k) && t.byKey[k] in t.cells && t.cells[t.byKey[k]].key == k)
    && (forall q :: q in t.cells ==>
          q < t.next && t.cells[q].count == 1 && t.cells[q].key in t.byKey && t.byKey[t.cells[q].key] == q)
    && (forall i :: 0 <= i < |t.live| ==> t.live[i] < t.next)
  }

  lemma NameIsNoKey(t: Table, p: Prototype)
    requires Inv(t) && Connectable(p)
    ensures Ascii(p.name) !in t.byKey
  {
    if Ascii(p.name) in t.byKey {
      var q :| Connectable(q) && KeyOf(q) == Ascii(p.name);
      BareNameMisses(p.name, q);
    }
  }

  lemma ConnectInv(t: Table, p: Prototype, t': Table)
    requires Inv(t) && Next(t, Connected(p), t')
    ensures Inv(t')
  {
    NameIsNoKey(t, p);
    var k := KeyOf(p);
    assert IsKey(k);
    hide KeyOf, Connectable, IsKey, Inv;
    if k in t.byKey {
      SharedInv(t, k);
    } else {
      InsertInv(t, k);
    }
  }

  lemma SharedInv(t: Table, k: Key)
    requires Inv(t) && k in t.byKey
    ensures Inv(t.(live := t.live + [t.byKey[k]]))
  {
    hide IsKey;
  }

  lemma InsertInv(t: Table, k: Key)
    requires Inv(t) && IsKey(k) && k !in t.byKey
    ensures Inv(Table(t.byKey[k := t.next], t.cells[t.next := Cell(k, 1)], t.next + 1, t.live + [t.next]))
  {
    hide IsKey;
    var t' := Table(t.byKey[k := t.next], t.cells[t.next := Cell(k, 1)], t.next + 1, t.live + [t.next]);
    forall k' | k' in t'.byKey ensures IsKey(k') && t'.byKey[k'] in t'.cells && t'.cells[t'.byKey[k']].key == k' {
      if k' != k {
        assert t.byKey[k'] in t.cells;
      }
    }
  }

  lemma DisconnectInv(t: Table, i: nat, t': Table)
    requires Inv(t) && Next(t, Disconnected(i), t')
    ensures Inv(t')
  {
    hide IsKey;
    var q := t.live[i];
    var k := t.cells[q].key;
    assert t' == t.(byKey := t.byKey - {k}, cells := t.cells - {q}, live := t.live[..i] + t.live[i + 1..]);
    assert forall k' :: k' in t'.byKey ==> t.byKey[k'] != q;
    assert forall q' :: q' in t'.cells ==> t.cells[q'].key != k;
  }

  lemma NextInv(t: Table, e: Event, t': Table)
    requires Inv(t) && Next(t, e, t')
    ensures Inv(t')
  {
    hide Inv, Next;
    match e {
      case Connected(p) => ConnectInv(t, p, t');
      case Disconnected(i) => DisconnectInv(t, i, t');
    }
  }

  ghost predicate Run(ts: seq<Table>, es: seq<Event>) {
    |ts| == |es| + 1 && ts[0] == EMPTY && forall j :: 0 <= j < |es| ==> Next(ts[j], es[j], ts[j + 1])
  }

  /** In every run of connects and disconnects, every registered stub has the count 1,
      however many handles to it are live. */
  lemma {:induction false} CountsAreOne(ts: seq<Table>, es: seq<Event>, n: nat)
    requires Run(ts, es) && n < |ts|
    ensures forall q :: q in ts[n].cells ==> ts[n].cells[q].count == 1
    ensures Inv(ts[n])
  {
    if n > 0 {
      CountsAreOne(ts, es, n - 1);
      assert Next(ts[n - 1], es[n - 1], ts[n - 1 + 1]);
      NextInv(ts[n - 1], es[n - 1], ts[n]);
    }
  }

  /** What the counts are meant for: every live handle is on a stub that exists, which is then
      registered. */
  ghost predicate Safe(t: Table) {
    forall i :: 0 <= i < |t.live| ==> t.live[i] in t.cells
  }

  /** No other live handle is on the same stub. */
  ghost predicate Alone(t: Table, i: nat) {
    i < |t.live| && forall j :: 0 <= j < |t.live| && j != i ==> t.live[j] != t.live[i]
  }

  lemma ConnectSafe(t: Table, p: Prototype, t': Table)
    requires Inv(t) && Next(t, Connected(p), t')
    ensures Safe(t') <==> Safe(t)
  {
    NameIsNoKey(t, p);
    hide KeyOf, Connectable, IsKey;
    assert forall i :: 0 <= i < |t.live| ==> t'.live[i] == t.live[i];
  }

  /** Disconnecting leaves the other handles safe exactly when they were, and none of them is
      on the same stub. */
  lemma DisconnectSafe(t: Table, i: nat, t': Table)
    requires Inv(t) && Next(t, Disconnected(i), t')
    ensures Safe(t') <==> Safe(t) && Alone(t, i)
  {
    hide IsKey;
    assert forall j :: 0 <= j < i ==> t'.live[j] == t.live[j];
    assert forall j :: i < j < |t.live| ==> t'.live[j - 1] == t.live[j];
    assert t.live[i] in t.cells;
    assert t'.cells == t.cells - {t.live[i]};
    assert Safe(t') ==> forall j :: 0 <= j < |t.live| && j != i ==> t.live[j] in t'.cells;
  }

  /** In every state of every run, every live handle is on its registered stub if and only if no
      handle was disconnected while another handle to the same stub was live. */
  lemma {:induction false} SafeExactly(ts: seq<Table>, es: seq<Event>, n: nat)
    requires Run(ts, es) && n < |ts|
    ensures Safe(ts[n]) <==> forall j :: 0 <= j < n && es[j].Disconnected? ==> Alone(ts[j], es[j].i)
  {
    hide Safe, Alone, Next, Inv;
    if n == 0 {
      NoHandles();
    } else {
      SafeExactly(ts, es, n - 1);
      CountsAreOne(ts, es, n - 1);
      assert Next(ts[n - 1], es[n - 1], ts[n - 1 + 1]);
      match es[n - 1] {
        case Connected(p) => ConnectSafe(ts[n - 1], p, ts[n]);
        case Disconnected(i) => DisconnectSafe(ts[n - 1], i, ts[n]);
      }
    }
  }

  lemma NoHandles()
    ensures Safe(EMPTY)
  {
  }

  /** Two handles to one procedure: the first disconnect removes the stub of the second, and
      connecting again does not bring it back. */
  lemma SecondHandleDangles(p: Prototype) returns (ts: seq<Table>)
    requires Connectable(p)
    ensures Run(ts, [Connected(p), Connected(p), Disconnected(0), Connected(p)])
    ensures Safe(ts[2]) && !Safe(ts[3]) && !Safe(ts[4])
    ensures |ts[4].live| == 2 && Disconnect(ts[4], 0) == None
  {
    var es := [Connected(p), Connected(p), Disconnected(0), Connected(p)];
    BareNameMisses(p.name, p);
    var k := KeyOf(p);
    assert p.params != [];
    hide KeyOf, Connectable;
    var t1 := Table(map[k := 0], map[0 := Cell(k, 1)], 1, [0]);
    var t2 := t1.(live := [0, 0]);
    var t3 := Table(map[], map[], 1, [0]);
    var t4 := Table(map[k := 1], map[1 := Cell(k, 1)], 2, [0, 1]);
    ts := [EMPTY, t1, t2, t3, t4];
    assert Next(EMPTY, Connected(p), t1) by {
      assert EMPTY.byKey[k := 0] == map[k := 0] && EMPTY.cells[0 := Cell(k, 1)] == map[0 := Cell(k, 1)] && EMPTY.live + [0] == [0];
    }
    assert Next(t1, Connected(p), t2) by {
      assert t1.live + [0] == [0, 0];
    }
    assert Next(t2, Disconnected(0), t3) by {
      assert t2.live[..0] + t2.live[1..] == [0];
      assert t2.byKey - {k} == map[] && t2.cells - {0} == map[];
    }
    assert Next(t3, Connected(p), t4) by {
      assert t3.byKey[k := 1] == map[k := 1] && t3.cells[1 := Cell(k, 1)] == map[1 := Cell(k, 1)] && t3.live + [1] == [0, 1];
    }
    assert forall j :: 0 <= j < |es| ==> Next(ts[j], es[j], ts[j + 1]);
    assert t3.live[0] !in t3.cells && t4.live[0] !in t4.cells;
  }
}
