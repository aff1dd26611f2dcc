/** The loop-back data link: two bounded byte queues in shared memory, and the view of
    them that each end of the connection has. */
module DataLink {
  import opened Bytes

  const LINK_SIZE: nat := 256
  const PACKET_SIZE: nat := 8

  /** The bytes that a flush moves from a ring holding `tx` to a link holding `link`. */
  function Moved(tx: seq<byte>, link: seq<byte>): nat
    requires |link| <= LINK_SIZE
  {
    Min(|tx|, LINK_SIZE - |link|)
  }

  /** Copy `b` behind the first `used` elements, as far as it fits. */
  method Enqueue(queue: array<byte>, used: nat, b: seq<byte>) returns (n: nat)
    requires used <= queue.Length
    modifies queue
    ensures n == Min(|b|, queue.Length - used)
    ensures queue[..used + n] == old(queue[..used]) + b[..n]
  {
    n := Min(|b|, queue.Length - used);
    var i := 0;
    while i < n
      invariant 0 <= i <= n
      invariant queue[..used + i] == old(queue[..used]) + b[..i]
    {
      queue[used + i] := b[i];
      i := i + 1;
    }
  }

  /** Copy the first `n` elements to `dst` and move the others to the front. */
  method Dequeue(queue: array<byte>, used: nat, dst: array<byte>, off: nat, n: nat)
    requires n <= used <= queue.Length && queue != dst
    requires off + n <= dst.Length
    modifies queue, dst
    ensures queue[..used - n] == old(queue[n..used])
    ensures dst[..] == old(dst[..off] + queue[..n] + dst[off + n..])
  {
    ghost var q0, d0 := queue[..], dst[..];
    var i := 0;
    while i < n
      invariant 0 <= i <= n
      invariant queue[..] == q0
      invariant dst[..] == d0[..off] + q0[..i] + d0[off + i..]
    {
      dst[off + i] := queue[i];
      i := i + 1;
    }
    i := 0;
    while i < used - n
      invariant 0 <= i <= used - n
      invariant dst[..] == d0[..off] + q0[..n] + d0[off + n..]
      invariant queue[..i] == q0[n..n + i]
      invariant forall k :: n + i <= k < used ==> queue[k] == q0[k]
    {
      queue[i] := queue[n + i];
      i := i + 1;
    }
  }

  /** The directions of the queues are relative to the server. */
  class SharedBuffer {
    const inQueue: array<byte>
    var inLen: nat
    var inLock: bool
    const outQueue: array<byte>
    var outLen: nat
    var outLock: bool

    /** Between two calls both queues are within bounds and nobody holds a lock. */
    ghost predicate Valid()
      reads this
    {
      && inQueue.Length == outQueue.Length == LINK_SIZE
      && inQueue != outQueue
      && inLen <= LINK_SIZE && outLen <= LINK_SIZE
      && !inLock && !outLock
    }

    ghost function In(): seq<byte>
      requires Valid()
      reads this, inQueue
    {
      inQueue[..inLen]
    }

    ghost function Out(): seq<byte>
      requires Valid()
      reads this, outQueue
    {
      outQueue[..outLen]
    }

    constructor ()
      ensures Valid() && fresh(inQueue) && fresh(outQueue)
      ensures In() == [] && Out() == []
    {
      inQueue := new byte[LINK_SIZE];
      outQueue := new byte[LINK_SIZE];
      inLen, inLock, outLen, outLock := 0, false, 0, false;
    }

    method SrvRead(b: array<byte>, off: nat, len: nat) returns (n: nat)
      requires Valid() && b != inQueue && b != outQueue
      requires off + len <= b.Length
      modifies this, inQueue, b
      ensures Valid() && Out() == old(Out())
      ensures n == Min(len, |old(In())|)
      ensures In() == old(In())[n..]
      ensures b[..] == old(b[..off]) + old(In())[..n] + old(b[off..])[n..]
    {
      if inLock || inLen <= 0 || len <= 0 {
        return 0;
      }
      n := Min(len, inLen);
      inLock := true;
      Dequeue(inQueue, inLen, b, off, n);
      inLen := inLen - n;
      inLock := false;
    }

    method ClnRead(b: array<byte>, off: nat, len: nat) returns (n: nat)
      requires Valid() && b != inQueue && b != outQueue
      requires off + len <= b.Length
      modifies this, outQueue, b
      ensures Valid() && In() == old(In())
      ensures n == Min(len, |old(Out())|)
      ensures Out() == old(Out())[n..]
      ensures b[..] == old(b[..off]) + old(Out())[..n] + old(b[off..])[n..]
    {
      if outLock || outLen <= 0 || len <= 0 {
        return 0;
      }
      n := Min(len, outLen);
      outLock := true;
      Dequeue(outQueue, outLen, b, off, n);
      outLen := outLen - n;
      outLock := false;
    }

    /** The queue takes the longest prefix that fits; a short write leaves it full, so
        that the next write returns 0 until somebody reads. */
    method ClnWrite(b: seq<byte>) returns (n: nat)
      requires Valid()
      modifies this, inQueue
      ensures Valid() && Out() == old(Out())
      ensures n == Moved(b, old(In()))
      ensures In() == old(In()) + b[..n]
      ensures n < |b| ==> |In()| == LINK_SIZE
    {
      n := 0;
      if !inLock && |b| > 0 {
        inLock := true;
        n := Enqueue(inQueue, inLen, b);
        inLen := inLen + n;
        inLock := false;
      }
    }

    method SrvWrite(b: seq<byte>) returns (n: nat)
      requires Valid()
      modifies this, outQueue
      ensures Valid() && In() == old(In())
      ensures n == Moved(b, old(Out()))
      ensures Out() == old(Out()) + b[..n]
      ensures n < |b| ==> |Out()| == LINK_SIZE
    {
      n := 0;
      if !outLock && |b| > 0 {
        outLock := true;
        n := Enqueue(outQueue, outLen, b);
        outLen := outLen + n;
        outLock := false;
      }
    }
  }

  datatype Side = ClientSide | ServerSide

  /** One end of the link: `ClientCom` or `ServerCom`, chosen by `side`. */
  class Com {
    const sb: SharedBuffer
    const side: Side
    var open: bool

    constructor (sb: SharedBuffer, side: Side)
      ensures this.sb == sb && this.side == side && !open
    {
      this.sb, this.side, open := sb, side, false;
    }

    ghost function Footprint(): set<object> {
      {sb, sb.inQueue, sb.outQueue}
    }

    ghost predicate Valid()
      reads sb
    {
      sb.Valid()
    }

    ghost function Outgoing(): seq<byte>
      requires Valid()
      reads sb, sb.inQueue, sb.outQueue
    {
      if side.ClientSide? then sb.In() else sb.Out()
    }

    ghost function Incoming(): seq<byte>
      requires Valid()
      reads sb, sb.inQueue, sb.outQueue
    {
      if side.ClientSide? then sb.Out() else sb.In()
    }

    method Open() returns (r: int)
      modifies this
      ensures open && (r == -1 <==> old(open))
    {
      r := if open then -1 else 0;
      open := true;
    }

    method Write(b: seq<byte>) returns (n: nat)
      requires Valid()
      modifies Footprint()
      ensures Valid() && Incoming() == old(Incoming())
      ensures n == Moved(b, old(Outgoing()))
      ensures Outgoing() == old(Outgoing()) + b[..n]
    {
      if side.ClientSide? {
        n := sb.ClnWrite(b);
      } else {
        n := sb.SrvWrite(b);
      }
    }

    method Read(b: array<byte>, off: nat, len: nat) returns (n: nat)
      requires Valid() && b !in Footprint()
      requires off + len <= b.Length
      modifies Footprint(), b
      ensures Valid() && Outgoing() == old(Outgoing())
      ensures n == Min(len, |old(Incoming())|)
      ensures Incoming() == old(Incoming())[n..]
      ensures b[..] == old(b[..off]) + old(Incoming())[..n] + old(b[off..])[n..]
    {
      if side.ClientSide? {
        n := sb.ClnRead(b, off, len);
      } else {
        n := sb.SrvRead(b, off, len);
      }
    }
  }
}
