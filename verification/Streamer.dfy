/** The circular buffers between a (de)serializer and the data link. */
module StreamerModule {
  import opened Bytes
  import opened DataLink

  const RING_SIZE: nat := 1024

  /** The bytes held by a ring: what lies from `out` up to `inn`, around the end. */
  function RingView(buf: seq<byte>, inn: nat, out: nat, full: bool): (s: seq<byte>)
    requires |buf| == RING_SIZE && inn < RING_SIZE && out < RING_SIZE
  {
    if full || inn < out then buf[out..] + buf[..inn] else buf[out..inn]
  }

  function Advance(p: nat, n: nat): (r: nat)
    requires p < RING_SIZE && n <= RING_SIZE
    ensures r < RING_SIZE
  {
    if p + n >= RING_SIZE then p + n - RING_SIZE else p + n
  }

  /** Unsigned 64-bit subtraction and a mask: the size is a power of two. */
  function MaskedDiff(a: nat, b: nat): nat {
    ((a - b) % TWO64) % RING_SIZE
  }

  function Put(buf: seq<byte>, at: nat, data: seq<byte>): (r: seq<byte>)
    requires at + |data| <= |buf|
    ensures |r| == |buf|
  {
    buf[..at] + data + buf[at + |data|..]
  }

  lemma RingLength(buf: seq<byte>, inn: nat, out: nat, full: bool)
    requires |buf| == RING_SIZE && inn < RING_SIZE && out < RING_SIZE && (full ==> inn == out)
    ensures |RingView(buf, inn, out, full)| == if full then RING_SIZE else MaskedDiff(inn, out)
    ensures !full ==> |RingView(buf, inn, out, full)| < RING_SIZE
  {
    if inn < out {
      ModUnique(TWO64, 0, TWO64 + inn - out);
      assert (inn - out) % TWO64 == TWO64 + inn - out;
      ModUnique(RING_SIZE, TWO64 / RING_SIZE - 1, RING_SIZE + inn - out);
    } else {
      ModUnique(TWO64, 0, inn - out);
      ModUnique(RING_SIZE, 0, inn - out);
    }
  }

  lemma RingSize(buf: seq<byte>, inn: nat, out: nat, full: bool)
    requires |buf| == RING_SIZE && inn < RING_SIZE && out < RING_SIZE && (full ==> inn == out)
    ensures |RingView(buf, inn, out, full)| ==
            if full then RING_SIZE else if inn >= out then inn - out else RING_SIZE + inn - out
    ensures full <==> |RingView(buf, inn, out, full)| == RING_SIZE
  {
  }

  /** The ring after storing `data` at `inn`, in two pieces when it passes the end. */
  function Stored(buf: seq<byte>, inn: nat, data: seq<byte>): (r: seq<byte>)
    requires |buf| == RING_SIZE && inn < RING_SIZE && |data| <= RING_SIZE
    ensures |r| == RING_SIZE
  {
    if inn + |data| > RING_SIZE then
      Put(Put(buf, inn, data[..RING_SIZE - inn]), 0, data[RING_SIZE - inn..])
    else Put(buf, inn, data)
  }

  lemma PutSlices(buf: seq<byte>, at: nat, data: seq<byte>)
    requires at + |data| <= |buf|
    ensures forall j :: 0 <= j <= at ==> Put(buf, at, data)[j..at + |data|] == buf[j..at] + data
    ensures forall j :: at + |data| <= j <= |buf| ==> Put(buf, at, data)[j..] == buf[j..]
  {
  }

  /** Stored data is appended to the content. */
  lemma RingAppend(buf: seq<byte>, inn: nat, out: nat, data: seq<byte>)
    requires |buf| == RING_SIZE && inn < RING_SIZE && out < RING_SIZE
    requires 0 < |data| <= RING_SIZE - |RingView(buf, inn, out, false)|
    ensures RingView(Stored(buf, inn, data), Advance(inn, |data|), out, Advance(inn, |data|) == out)
            == RingView(buf, inn, out, false) + data
  {
    if inn + |data| > RING_SIZE {
      RingAppendAround(buf, inn, out, data);
    } else if inn < out {
      RingAppendBehind(buf, inn, out, data);
    } else {
      RingAppendAhead(buf, inn, out, data);
    }
  }

  lemma RingAppendBehind(buf: seq<byte>, inn: nat, out: nat, data: seq<byte>)
    requires |buf| == RING_SIZE && inn < out < RING_SIZE && 0 < |data| <= out - inn
    ensures RingView(Stored(buf, inn, data), Advance(inn, |data|), out, Advance(inn, |data|) == out)
            == RingView(buf, inn, out, false) + data
  {
    PutSlices(buf, inn, data);
    hide Put;
    var r := Put(buf, inn, data);
    assert r[0..inn + |data|] == buf[0..inn] + data;
    assert r[out..] == buf[out..];
    ConcatAssoc(buf[out..], buf[..inn], data);
  }

  lemma RingAppendAhead(buf: seq<byte>, inn: nat, out: nat, data: seq<byte>)
    requires |buf| == RING_SIZE && out <= inn < RING_SIZE && 0 < |data| <= RING_SIZE - inn
    ensures RingView(Stored(buf, inn, data), Advance(inn, |data|), out, Advance(inn, |data|) == out)
            == RingView(buf, inn, out, false) + data
  {
    PutSlices(buf, inn, data);
    hide Put;
    var r := Put(buf, inn, data);
    assert r[out..inn + |data|] == buf[out..inn] + data;
    if inn + |data| == RING_SIZE {
      assert r[out..] + r[..0] == r[out..inn + |data|];
    }
  }

  lemma StoredAround(buf: seq<byte>, inn: nat, out: nat, data: seq<byte>)
    requires |buf| == RING_SIZE && out <= inn < RING_SIZE
    requires RING_SIZE - inn < |data| <= RING_SIZE - (inn - out)
    ensures var k, r := RING_SIZE - inn, Stored(buf, inn, data);
            r[..|data| - k] == data[k..] && r[out..] == buf[out..inn] + data[..k]
  {
    var k := RING_SIZE - inn;
    var b1 := Put(buf, inn, data[..k]);
    PutSlices(buf, inn, data[..k]);
    PutSlices(b1, 0, data[k..]);
    hide Put;
    var r := Put(b1, 0, data[k..]);
    assert b1[out..RING_SIZE] == b1[out..];
    assert r[0..|data| - k] == b1[0..0] + data[k..];
  }

  lemma RingAppendAround(buf: seq<byte>, inn: nat, out: nat, data: seq<byte>)
    requires |buf| == RING_SIZE && out <= inn < RING_SIZE
    requires RING_SIZE - inn < |data| <= RING_SIZE - (inn - out)
    ensures RingView(Stored(buf, inn, data), Advance(inn, |data|), out, Advance(inn, |data|) == out)
            == RingView(buf, inn, out, false) + data
  {
    var k := RING_SIZE - inn;
    StoredAround(buf, inn, out, data);
    hide Stored;
    assert data == data[..k] + data[k..];
    ConcatAssoc(buf[out..inn], data[..k], data[k..]);
  }

  /** Advancing `out` drops the oldest bytes. */
  lemma RingDrop(buf: seq<byte>, inn: nat, out: nat, full: bool, n: nat)
    requires |buf| == RING_SIZE && inn < RING_SIZE && out < RING_SIZE && (full ==> inn == out)
    requires 0 < n <= |RingView(buf, inn, out, full)|
    ensures RingView(buf, inn, Advance(out, n), false) == RingView(buf, inn, out, full)[n..]
  {
  }

  /** The split copy of the first `n` bytes. */
  function Peeked(buf: seq<byte>, inn: nat, out: nat, n: nat): seq<byte>
    requires |buf| == RING_SIZE && inn < RING_SIZE && out < RING_SIZE
    requires n <= RING_SIZE && (inn > out ==> n <= inn - out)
  {
    if inn > out then buf[out..out + n]
    else if out + n > RING_SIZE then buf[out..] + buf[..out + n - RING_SIZE]
    else buf[out..out + n]
  }

  lemma RingPeek(buf: seq<byte>, inn: nat, out: nat, full: bool, n: nat)
    requires |buf| == RING_SIZE && inn < RING_SIZE && out < RING_SIZE && (full ==> inn == out)
    requires n <= |RingView(buf, inn, out, full)|
    ensures n <= RING_SIZE && (inn > out ==> n <= inn - out)
    ensures Peeked(buf, inn, out, n) == RingView(buf, inn, out, full)[..n]
  {
  }

  /** The receive ring after fetching from the link what fits, and what the link keeps. */
  function Filled(rx: seq<byte>, link: seq<byte>): (s: seq<byte>)
    requires |rx| <= RING_SIZE
  {
    rx + link[..Min(RING_SIZE - |rx|, |link|)]
  }

  function Unfetched(rx: seq<byte>, link: seq<byte>): (s: seq<byte>)
    requires |rx| <= RING_SIZE
  {
    link[Min(RING_SIZE - |rx|, |link|)..]
  }

  /** A second fetch before anything is consumed finds nothing to do. */
  lemma FilledTwice(rx: seq<byte>, link: seq<byte>)
    requires |rx| <= RING_SIZE
    ensures |Filled(rx, link)| <= RING_SIZE
    ensures Filled(Filled(rx, link), Unfetched(rx, link)) == Filled(rx, link)
    ensures Unfetched(Filled(rx, link), Unfetched(rx, link)) == Unfetched(rx, link)
    ensures Filled(rx, link) + Unfetched(rx, link) == rx + link
    ensures |Unfetched(rx, link)| <= |link|
  {
  }

  /** The receive ring after consuming `n` of the bytes `rx`.  Consuming nothing from a
      full ring empties it. */
  function Consumed(rx: seq<byte>, n: nat): seq<byte> {
    if n == 0 && |rx| == RING_SIZE then [] else rx[Min(n, |rx|)..]
  }

  /** Asking for more than there is consumes all there is. */
  lemma ConsumedMin(rx: seq<byte>, n: nat)
    ensures Consumed(rx, if n > |rx| then |rx| else n) == Consumed(rx, n)
    ensures rx == [] ==> Consumed(rx, n) == []
  {
  }

  /** Consuming removes exactly the oldest bytes, unless nothing is consumed from a full ring,
      which loses all of it. */
  lemma ConsumedExactly(rx: seq<byte>, n: nat)
    requires n <= |rx| <= 1024
    ensures Consumed(rx, n) == rx[n..] <==> !(n == 0 && |rx| == 1024)
    ensures n == 0 && |rx| == 1024 ==> Consumed(rx, n) == []
  {
    if n == 0 && |rx| == 1024 {
      assert |rx[n..]| == 1024;
    }
  }

  /** The effect of a flush: the link takes the longest prefix that fits. */
  ghost predicate Flushed(tx: seq<byte>, link: seq<byte>, tx': seq<byte>, link': seq<byte>) {
    |link| <= LINK_SIZE &&
    var k := Moved(tx, link);
    tx' == tx[k..] && link' == link + tx[..k]
  }

  /** A flush keeps the bytes and their order, and goes on until the ring is empty or the link
      holds 256 bytes. */
  lemma FlushedExactly(tx: seq<byte>, link: seq<byte>, tx': seq<byte>, link': seq<byte>)
    ensures Flushed(tx, link, tx', link') <==>
            |link| <= 256 && link' + tx' == link + tx && link <= link' && |link'| <= 256 && (tx' == [] || |link'| == 256)
  {
    if |link| <= 256 {
      var k := Moved(tx, link);
      if Flushed(tx, link, tx', link') {
        assert link + tx == (link + tx[..k]) + tx[k..];
      }
      if link' + tx' == link + tx && link <= link' && |link'| <= 256 && (tx' == [] || |link'| == 256) {
        assert |link'| + |tx'| == |link| + |tx|;
        assert |link'| == |link| + k;
        assert link' == (link + tx)[..|link'|] && tx' == (link + tx)[|link'|..];
        assert link' == link + tx[..k] && tx' == tx[k..];
      }
    }
  }

  /** A fetch takes the oldest bytes until the link is empty or the ring holds 1024. */
  lemma FilledExactly(rx: seq<byte>, link: seq<byte>)
    requires |rx| <= 1024
    ensures Filled(rx, link) + Unfetched(rx, link) == rx + link && rx <= Filled(rx, link)
    ensures |Filled(rx, link)| <= 1024 && (Unfetched(rx, link) == [] || |Filled(rx, link)| == 1024)
  {
    FilledTwice(rx, link);
  }

  /** `memcpy` into a ring. */
  method CopyInto(a: array<byte>, at: nat, data: seq<byte>)
    requires at + |data| <= a.Length
    modifies a
    ensures a[..] == Put(old(a[..]), at, data)
  {
    var i := 0;
    while i < |data|
      invariant 0 <= i <= |data|
      invariant a[..] == Put(old(a[..]), at, data[..i])
    {
      a[at + i] := data[i];
      i := i + 1;
    }
  }

  class Streamer {
    const com: Com
    const txBuffer: array<byte>
    var txIn: nat
    var txOut: nat
    var txFull: bool
    const rxBuffer: array<byte>
    var rxIn: nat
    var rxOut: nat
    var rxFull: bool

    ghost function Footprint(): set<object> {
      {this, txBuffer, rxBuffer} + com.Footprint()
    }

    ghost predicate Valid()
      reads this, com.sb
    {
      com.Valid() && Local()
    }

    /** The part that does not concern the link. */
    ghost predicate Local()
      reads this
    {
      && txBuffer.Length == rxBuffer.Length == RING_SIZE
      && txBuffer != rxBuffer
      && txBuffer !in com.Footprint() && rxBuffer !in com.Footprint()
      && txIn < RING_SIZE && txOut < RING_SIZE && (txFull ==> txIn == txOut)
      && rxIn < RING_SIZE && rxOut < RING_SIZE && (rxFull ==> rxIn == rxOut)
    }

    ghost function Tx(): seq<byte>
      requires Local()
      reads this, txBuffer
    {
      RingView(txBuffer[..], txIn, txOut, txFull)
    }

    ghost function Rx(): seq<byte>
      requires Local()
      reads this, rxBuffer
    {
      RingView(rxBuffer[..], rxIn, rxOut, rxFull)
    }

    constructor (com: Com)
      requires com.Valid()
      ensures Valid() && this.com == com && fresh(txBuffer) && fresh(rxBuffer)
      ensures Tx() == [] && Rx() == []
    {
      this.com := com;
      txBuffer := new byte[RING_SIZE];
      rxBuffer := new byte[RING_SIZE];
      txIn, txOut, txFull := 0, 0, false;
      rxIn, rxOut, rxFull := 0, 0, false;
    }

    /** What the transmit ring holds after `items` have been stored and before the flush.
        Storing nothing in an empty ring marks it full: its stale bytes become content. */
    ghost function Staged(items: seq<byte>): seq<byte>
      requires Local()
      reads this, txBuffer
    {
      if items == [] && Tx() == [] then RingView(txBuffer[..], txIn, txOut, true)
      else Tx() + items[..Min(|items|, RING_SIZE - |Tx()|)]
    }

    method Write(items: seq<byte>) returns (n: nat)
      requires Valid()
      modifies Footprint()
      ensures Valid() && Rx() == old(Rx()) && com.Incoming() == old(com.Incoming())
      ensures n == Min(|items|, RING_SIZE - |old(Tx())|)
      ensures com.open ==> Flushed(old(Staged(items)), old(com.Outgoing()), Tx(), com.Outgoing())
      ensures !com.open ==> Tx() == old(Staged(items)) && com.Outgoing() == old(com.Outgoing())
      ensures |Tx()| + |com.Outgoing()| ==
              |old(com.Outgoing())| + if items == [] && old(Tx()) == [] then 1024 else |old(Tx())| + n
    {
      hide RingView, MaskedDiff;
      RingSize(txBuffer[..], txIn, txOut, txFull);
      if txIn == txOut {
        RingSize(txBuffer[..], txIn, txOut, true);
      }
      if !txFull {
        var available := if txIn == txOut then RING_SIZE else MaskedDiff(txOut, txIn);
        RingLength(txBuffer[..], txOut, txIn, false);
        RingSize(txBuffer[..], txOut, txIn, false);
        n := if |items| > available then available else |items|;
        Store(items[..n]);
      } else {
        n := 0;
      }
      assert Tx() == old(Staged(items));
      Flush();
    }

    method TxSize() returns (n: nat)
      requires Valid()
      ensures n == |Tx()|
    {
      hide RingView, MaskedDiff;
      RingLength(txBuffer[..], txIn, txOut, txFull);
      n := if txFull then RING_SIZE else MaskedDiff(txIn, txOut);
    }

    method Store(items: seq<byte>)
      requires Valid() && !txFull && |items| <= RING_SIZE - |Tx()|
      modifies this`txIn, this`txFull, txBuffer
      ensures Valid() && Tx() == old(Staged(items))
    {
      ghost var buf := txBuffer[..];
      StoreBytes(items);
      assert txBuffer[..] == Stored(buf, txIn, items);
      if items != [] {
        RingAppend(buf, txIn, txOut, items);
      } else {
        assert txBuffer[..] == buf;
      }
      txIn := Advance(txIn, |items|);
      txFull := txIn == txOut;
    }

    method StoreBytes(items: seq<byte>)
      requires Valid() && !txFull && |items| <= RING_SIZE - |Tx()|
      modifies txBuffer
      ensures txBuffer[..] == Stored(old(txBuffer[..]), txIn, items)
    {
      if txOut > txIn {
        CopyInto(txBuffer, txIn, items);
      } else if txIn + |items| > RING_SIZE {
        CopyInto(txBuffer, txIn, items[..RING_SIZE - txIn]);
        CopyInto(txBuffer, 0, items[RING_SIZE - txIn..]);
      } else {
        CopyInto(txBuffer, txIn, items);
      }
    }

    /** Sends packets until the ring is empty or the link accepts nothing: the link gets
        the longest prefix that fits, in order, also across the end of the ring. */
    method Flush()
      requires Valid()
      modifies this`txOut, this`txFull, com.Footprint()
      ensures Valid() && Rx() == old(Rx()) && com.Incoming() == old(com.Incoming())
      ensures com.open ==> Flushed(old(Tx()), old(com.Outgoing()), Tx(), com.Outgoing())
      ensures !com.open ==> Tx() == old(Tx()) && com.Outgoing() == old(com.Outgoing())
    {
      hide RingView, MaskedDiff;
      RingSize(txBuffer[..], txIn, txOut, txFull);
      if com.open && !(!txFull && txIn == txOut) {
        var used := TxSize();
        ghost var all := com.Outgoing() + Tx();
        var written := 1;
        while used > 0 && written > 0
          invariant Valid() && Rx() == old(Rx()) && com.Incoming() == old(com.Incoming())
          invariant used == |Tx()|
          invariant com.Outgoing() + Tx() == all && |old(com.Outgoing())| <= |com.Outgoing()|
          invariant written == 0 ==> |com.Outgoing()| == LINK_SIZE
          decreases used, written
        {
          written, used := SendPacket(used);
        }
        FlushDone(old(Tx()), old(com.Outgoing()), Tx(), com.Outgoing());
      }
    }

    lemma FlushDone(tx: seq<byte>, link: seq<byte>, tx': seq<byte>, link': seq<byte>)
      requires |link| <= |link'| <= LINK_SIZE && link' + tx' == link + tx
      requires tx' == [] || |link'| == LINK_SIZE
      ensures Flushed(tx, link, tx', link')
    {
      assert link' == (link + tx)[..|link'|] && tx' == (link + tx)[|link'|..];
    }

    /** One turn of the flush loop: a packet, in two writes when it passes the end. */
    method SendPacket(used: nat) returns (written: nat, left: nat)
      requires Valid() && 0 < used == |Tx()|
      modifies this`txOut, this`txFull, com.Footprint()
      ensures Valid() && Rx() == old(Rx()) && com.Incoming() == old(com.Incoming())
      ensures left == |Tx()| <= used
      ensures written > 0 ==> left < used
      ensures com.Outgoing() + Tx() == old(com.Outgoing() + Tx())
      ensures |old(com.Outgoing())| <= |com.Outgoing()|
      ensures written == 0 ==> |com.Outgoing()| == LINK_SIZE
    {
      hide RingView;
      var size := if used >= PACKET_SIZE then PACKET_SIZE else used;
      if txOut + size > RING_SIZE {
        written, left := SendAround(used, size);
      } else {
        RingPeek(txBuffer[..], txIn, txOut, txFull, size);
        written := SendChunk(txOut, size);
        left := used - written;
        MoveOne(old(com.Outgoing()), old(Tx()), written);
      }
    }

    method SendAround(used: nat, size: nat) returns (written: nat, left: nat)
      requires Valid() && 0 < size <= used == |Tx()| && txOut + size > RING_SIZE
      modifies this`txOut, this`txFull, com.Footprint()
      ensures Valid() && Rx() == old(Rx()) && com.Incoming() == old(com.Incoming())
      ensures left == |Tx()| <= used
      ensures written > 0 ==> left < used
      ensures com.Outgoing() + Tx() == old(com.Outgoing() + Tx())
      ensures |old(com.Outgoing())| <= |com.Outgoing()|
      ensures written == 0 ==> |com.Outgoing()| == LINK_SIZE
    {
      var count := txOut + size - RING_SIZE;
      RingPeek(txBuffer[..], txIn, txOut, txFull, size - count);
      written := SendChunk(txOut, size - count);
      left := used - written;
      MoveOne(old(com.Outgoing()), old(Tx()), written);
      if written > 0 {
        // Issued after a short first write too: the link is full then and takes nothing.
        ghost var link1, tx1 := com.Outgoing(), Tx();
        if |link1| < LINK_SIZE {
          RingPeek(txBuffer[..], txIn, txOut, txFull, count);
        }
        written := SendChunk(0, count);
        left := left - written;
        MoveOne(link1, tx1, written);
      }
    }

    lemma MoveOne(link: seq<byte>, tx: seq<byte>, n: nat)
      requires n <= |tx|
      ensures (link + tx[..n]) + tx[n..] == link + tx
    {
    }

    method SendChunk(start: nat, len: nat) returns (n: nat)
      requires Valid() && 0 < len && start + len <= RING_SIZE
      requires |com.Outgoing()| < LINK_SIZE ==>
                 start == txOut && len <= |Tx()| && Tx()[..len] == txBuffer[start..start + len]
      modifies this`txOut, this`txFull, com.Footprint()
      ensures Valid() && Rx() == old(Rx()) && com.Incoming() == old(com.Incoming())
      ensures n <= len && n <= |old(Tx())|
      ensures Tx() == old(Tx())[n..] && com.Outgoing() == old(com.Outgoing()) + old(Tx())[..n]
      ensures n < len ==> |com.Outgoing()| == LINK_SIZE
      ensures n > 0 ==> txOut == Advance(old(txOut), n)
      ensures n == 0 ==> txOut == old(txOut)
    {
      n := com.Write(txBuffer[start..start + len]);
      if n > 0 {
        RingDrop(txBuffer[..], txIn, txOut, txFull, n);
        txOut := Advance(txOut, n);
        txFull := false;
      }
    }

    /** Fetches from the link what fits into the receive ring, around the end. */
    method ComRead()
      requires Valid()
      modifies this`rxIn, this`rxFull, rxBuffer, com.Footprint()
      ensures Valid() && Tx() == old(Tx()) && com.Outgoing() == old(com.Outgoing())
      ensures |old(Rx())| <= RING_SIZE
      ensures Rx() == Filled(old(Rx()), old(com.Incoming()))
      ensures com.Incoming() == Unfetched(old(Rx()), old(com.Incoming()))
    {
      hide RingView, Filled, Unfetched, Advance;
      ghost var rx, link := Rx(), com.Incoming();
      RingSize(rxBuffer[..], rxIn, rxOut, rxFull);
      if !rxFull {
        if rxIn >= rxOut {
          var len := RING_SIZE - rxIn;
          AdvanceToEnd(rxIn);
          var count := Fetch(len);
          if count > 0 && count == len {
            count := Fetch(rxOut);
            FetchTwice(rx, link, len, rxOut);
          } else {
            FetchOnce(rx, link, len);
          }
        } else {
          var len := rxOut - rxIn;
          var count := Fetch(len);
          FetchOnce(rx, link, len);
        }
      } else {
        FetchOnce(rx, link, 0);
      }
    }

    lemma AdvanceToEnd(i: nat)
      requires i < RING_SIZE
      ensures Advance(i, RING_SIZE - i) == 0
    {
    }

    lemma FetchOnce(rx: seq<byte>, link: seq<byte>, a: nat)
      requires |rx| + a <= RING_SIZE && (|link| < a || |rx| + a == RING_SIZE)
      ensures rx + link[..Min(a, |link|)] == Filled(rx, link)
      ensures link[Min(a, |link|)..] == Unfetched(rx, link)
    {
    }

    lemma FetchTwice(rx: seq<byte>, link: seq<byte>, a: nat, b: nat)
      requires |rx| + a + b == RING_SIZE && a <= |link|
      ensures var k := Min(b, |link| - a);
              && rx + link[..a] + link[a..][..k] == Filled(rx, link)
              && link[a..][k..] == Unfetched(rx, link)
    {
    }

    method Fetch(len: nat) returns (count: nat)
      requires Valid() && rxIn + len <= RING_SIZE && len <= RING_SIZE - |Rx()|
      modifies this`rxIn, this`rxFull, rxBuffer, com.Footprint()
      ensures Valid() && Tx() == old(Tx()) && com.Outgoing() == old(com.Outgoing())
      ensures count == Min(len, |old(com.Incoming())|)
      ensures Rx() == old(Rx()) + old(com.Incoming())[..count]
      ensures com.Incoming() == old(com.Incoming())[count..]
      ensures rxIn == Advance(old(rxIn), count)
    {
      ghost var buf := rxBuffer[..];
      count := com.Read(rxBuffer, rxIn, len);
      if count > 0 {
        assert rxBuffer[..] == Stored(buf, rxIn, old(com.Incoming())[..count]);
        RingAppend(buf, rxIn, rxOut, old(com.Incoming())[..count]);
        rxIn := Advance(rxIn, count);
        rxFull := rxIn == rxOut;
      } else {
        assert rxBuffer[..] == buf;
      }
    }

    lemma RxBound()
      requires Valid()
      ensures |Rx()| <= RING_SIZE
    {
      RingSize(rxBuffer[..], rxIn, rxOut, rxFull);
    }

    method RxEmpty() returns (empty: bool)
      requires Valid()
      modifies this`rxIn, this`rxFull, rxBuffer, com.Footprint()
      ensures Valid() && Tx() == old(Tx()) && com.Outgoing() == old(com.Outgoing())
      ensures |old(Rx())| <= RING_SIZE
      ensures Rx() == Filled(old(Rx()), old(com.Incoming()))
      ensures com.Incoming() == Unfetched(old(Rx()), old(com.Incoming()))
      ensures empty <==> Rx() == []
    {
      ComRead();
      RingSize(rxBuffer[..], rxIn, rxOut, rxFull);
      empty := !rxFull && rxIn == rxOut;
    }

    method RxSize() returns (size: nat)
      requires Valid()
      modifies this`rxIn, this`rxFull, rxBuffer, com.Footprint()
      ensures Valid() && Tx() == old(Tx()) && com.Outgoing() == old(com.Outgoing())
      ensures |old(Rx())| <= RING_SIZE
      ensures Rx() == Filled(old(Rx()), old(com.Incoming()))
      ensures com.Incoming() == Unfetched(old(Rx()), old(com.Incoming()))
      ensures size == |Rx()| <= RING_SIZE
    {
      ComRead();
      size := RING_SIZE;
      if !rxFull {
        size := if rxIn >= rxOut then rxIn - rxOut else RING_SIZE + rxIn - rxOut;
      }
      RingSize(rxBuffer[..], rxIn, rxOut, rxFull);
    }

    method RxAvailable() returns (n: nat)
      requires Valid()
      ensures n == |Rx()|
    {
      hide RingView, MaskedDiff;
      RingLength(rxBuffer[..], rxIn, rxOut, rxFull);
      n := if rxFull then RING_SIZE else MaskedDiff(rxIn, rxOut);
    }

    /** The oldest bytes, left in the ring. */
    method TryRead(size: nat) returns (items: seq<byte>)
      requires Valid()
      modifies this`rxIn, this`rxFull, rxBuffer, com.Footprint()
      ensures Valid() && Tx() == old(Tx()) && com.Outgoing() == old(com.Outgoing())
      ensures |old(Rx())| <= RING_SIZE
      ensures Rx() == Filled(old(Rx()), old(com.Incoming()))
      ensures com.Incoming() == Unfetched(old(Rx()), old(com.Incoming()))
      ensures items == Rx()[..Min(size, |Rx()|)]
    {
      hide RingView, Peeked, MaskedDiff;
      var empty := RxEmpty();
      if empty {
        return [];
      }
      var available := RxAvailable();
      var n := if size > available then available else size;
      RingPeek(rxBuffer[..], rxIn, rxOut, rxFull, n);
      items := Peeked(rxBuffer[..], rxIn, rxOut, n);
    }

    /** Drops the oldest bytes. */
    method ConsumeRead(size: nat) returns (n: nat)
      requires Valid()
      modifies this`rxIn, this`rxOut, this`rxFull, rxBuffer, com.Footprint()
      ensures Valid() && Tx() == old(Tx()) && com.Outgoing() == old(com.Outgoing())
      ensures |old(Rx())| <= RING_SIZE
      ensures Rx() == Consumed(Filled(old(Rx()), old(com.Incoming())), size)
      ensures com.Incoming() == Unfetched(old(Rx()), old(com.Incoming()))
      ensures n == Min(size, |Filled(old(Rx()), old(com.Incoming()))|)
    {
      hide RingView, MaskedDiff, Consumed, Filled, Unfetched;
      var empty := RxEmpty();
      ConsumedMin(Rx(), size);
      if empty {
        return 0;
      }
      var available := RxAvailable();
      n := if size > available then available else size;
      Drop(n);
    }

    method Drop(n: nat)
      requires Valid() && n <= |Rx()|
      modifies this`rxOut, this`rxFull
      ensures Valid() && Tx() == old(Tx()) && com.Outgoing() == old(com.Outgoing())
      ensures com.Incoming() == old(com.Incoming())
      ensures Rx() == Consumed(old(Rx()), n)
    {
      RingSize(rxBuffer[..], rxIn, rxOut, rxFull);
      if n > 0 {
        RingDrop(rxBuffer[..], rxIn, rxOut, rxFull, n);
      }
      rxFull := false;
      rxOut := Advance(rxOut, n);
    }

    /** `TryRead` and `ConsumeRead` in one. */
    method Read(size: nat) returns (items: seq<byte>)
      requires Valid()
      modifies this`rxIn, this`rxOut, this`rxFull, rxBuffer, com.Footprint()
      ensures Valid() && Tx() == old(Tx()) && com.Outgoing() == old(com.Outgoing())
      ensures |old(Rx())| <= RING_SIZE
      ensures var all := Filled(old(Rx()), old(com.Incoming()));
              items == all[..Min(size, |all|)] && Rx() == Consumed(all, size)
      ensures com.Incoming() == Unfetched(old(Rx()), old(com.Incoming()))
    {
      hide RingView, Peeked, MaskedDiff, Consumed, Filled, Unfetched;
      var empty := RxEmpty();
      ConsumedMin(Rx(), size);
      if empty {
        return [];
      }
      var available := RxAvailable();
      var n := if size > available then available else size;
      RingPeek(rxBuffer[..], rxIn, rxOut, rxFull, n);
      items := Peeked(rxBuffer[..], rxIn, rxOut, n);
      Drop(n);
    }

    method Reset()
      requires Valid()
      modifies this
      ensures Valid() && Tx() == [] && Rx() == []
      ensures com.Outgoing() == old(com.Outgoing()) && com.Incoming() == old(com.Incoming())
    {
      txIn, txFull := txOut, false;
      rxIn, rxFull := rxOut, false;
    }
  }
}
