/** Byte order: the two byte swaps of the source, and the transfer of a scalar between two
    hosts that may or may not share a byte order. */
module ByteOrder {
  import opened Bytes

  /** Bitwise or. */
  function BitOr(a: nat, b: nat): nat {
    if a == 0 then b
    else 2 * BitOr(a / 2, b / 2) + if a % 2 == 1 || b % 2 == 1 then 1 else 0
  }

  /** Shift right by n bytes. */
  function ShiftRight(i: nat, n: nat): nat {
    if n == 0 then i else ShiftRight(i, n - 1) / 256
  }

  /** The static swap: byte N of `i`, isolated by a shift and a mask, is shifted to the
      mirrored position, and the pieces are or-ed together. */
  function StaticSwapFrom(i: nat, w: nat, n: nat): nat
    requires n <= w
    decreases w - n
  {
    if n == w then 0
    else BitOr(ShiftRight(i, n) % 256 * Pow256(w - 1 - n), StaticSwapFrom(i, w, n + 1))
  }

  function StaticSwap(i: nat, w: nat): nat {
    StaticSwapFrom(i, w, 0)
  }

  /** The dynamic swap: the memory of the value, copied in reverse. */
  function DynamicSwap(order: Endian, v: nat, w: nat): nat {
    FromMemory(order, Reverse(Memory(order, v, w)))
  }

  lemma {:induction false} OrOfDisjoint(a: nat, k: nat, b: nat)
    requires b < Pow2(k)
    ensures BitOr(a * Pow2(k), b) == a * Pow2(k) + b
    decreases k
  {
    if k == 0 {
      OrZero(a);
    } else {
      var p := Pow2(k - 1);
      assert a * Pow2(k) == 2 * (a * p);
      OrOfDisjoint(a, k - 1, b / 2);
    }
  }

  lemma {:induction false} OrZero(a: nat)
    ensures BitOr(a, 0) == a
  {
    if a > 0 { OrZero(a / 2); }
  }

  function Pow2(k: nat): (r: nat)
    ensures r > 0
  {
    if k == 0 then 1 else 2 * Pow2(k - 1)
  }

  lemma {:induction false} Pow256IsPow2(w: nat)
    ensures Pow256(w) == Pow2(8 * w)
  {
    if w > 0 {
      Pow256IsPow2(w - 1);
      var k := 8 * w;
      assert Pow2(k) == 2 * Pow2(k - 1) == 4 * Pow2(k - 2) == 8 * Pow2(k - 3) == 16 * Pow2(k - 4);
      assert Pow2(k - 4) == 2 * Pow2(k - 5) == 4 * Pow2(k - 6) == 8 * Pow2(k - 7) == 16 * Pow2(k - 8);
    }
  }

  /** Loop form of the theorem below: the pieces from n on are the swap of the rest. */
  lemma {:induction false} StaticSwapSuffix(i: nat, w: nat, n: nat)
    requires n <= w
    ensures StaticSwapFrom(i, w, n) == FromLE(Reverse(LE(ShiftRight(i, n), w - n)))
    decreases w - n
  {
    if n < w {
      StaticSwapSuffix(i, w, n + 1);
      var m, k := ShiftRight(i, n), w - 1 - n;
      var low := Reverse(LE(m / 256, k));
      FromLEBound(low);
      Pow256IsPow2(k);
      OrOfDisjoint(m % 256, 8 * k, FromLE(low));
      FromLEAppend(low, m % 256);
      assert LE(m, w - n)[1..] == LE(m / 256, k);
    }
  }

  /** The shift-and-mask swap reverses the bytes, for every width. */
  lemma StaticSwapReverses(i: nat, w: nat)
    ensures LE(StaticSwap(i, w), w) == Reverse(LE(i, w))
    ensures StaticSwap(i, w) < Pow256(w)
  {
    StaticSwapSuffix(i, w, 0);
    LEOfFromLE(Reverse(LE(i, w)));
    FromLEBound(Reverse(LE(i, w)));
  }

  /** It is its own inverse on values of that width. */
  lemma StaticSwapInvolution(i: nat, w: nat)
    requires i < Pow256(w)
    ensures StaticSwap(StaticSwap(i, w), w) == i
  {
    var j := StaticSwap(i, w);
    StaticSwapReverses(i, w);
    StaticSwapReverses(j, w);
    ReverseInvolution(LE(i, w));
    FitsRoundTrip(i, w);
    FitsRoundTrip(StaticSwap(j, w), w);
  }

  /** The two swaps agree, on hosts of either byte order. */
  lemma DynamicSwapIsStatic(order: Endian, v: nat, w: nat)
    ensures DynamicSwap(order, v, w) == StaticSwap(v, w)
  {
    StaticSwapReverses(v, w);
    FitsRoundTrip(StaticSwap(v, w), w);
    ReverseInvolution(LE(v, w));
  }

  /** One end of a connection: its byte order, and whether it swaps what it sends and what
      it receives. */
  datatype End = End(order: Endian, swapOut: bool, swapIn: bool)

  function EncodeNum(e: End, v: nat, w: nat): (s: seq<byte>)
    ensures |s| == w
  {
    Memory(e.order, if e.swapOut then StaticSwap(v, w) else v, w)
  }

  function DecodeNum(e: End, s: seq<byte>): nat {
    var v := FromMemory(e.order, s);
    if e.swapIn then StaticSwap(v, |s|) else v
  }

  /** Different byte orders are reconciled by an odd number of swaps, equal ones by an even
      number. */
  predicate Reconciled(a: End, b: End) {
    (a.order == b.order) == (a.swapOut == b.swapIn)
  }

  lemma EncodedMemory(e: End, v: nat, w: nat)
    ensures EncodeNum(e, v, w) == if (e.order == BIG) == e.swapOut then LE(v, w) else Reverse(LE(v, w))
  {
    StaticSwapReverses(v, w);
    ReverseInvolution(LE(v, w));
  }

  lemma DecodedMemory(e: End, s: seq<byte>)
    ensures DecodeNum(e, s) == if (e.order == BIG) == e.swapIn then FromLE(s) else FromLE(Reverse(s))
  {
    var v := FromMemory(e.order, s);
    StaticSwapReverses(v, |s|);
    FitsRoundTrip(StaticSwap(v, |s|), |s|);
    LEOfFromLE(s);
    LEOfFromLE(Reverse(s));
    ReverseInvolution(s);
  }

  /** A scalar that fits arrives unchanged when the ends are reconciled, and byte-reversed
      otherwise. */
  lemma Transfer(a: End, b: End, v: nat, w: nat)
    requires v < Pow256(w)
    ensures DecodeNum(b, EncodeNum(a, v, w)) ==
            if Reconciled(a, b) then v else FromLE(Reverse(LE(v, w)))
  {
    EncodedMemory(a, v, w);
    DecodedMemory(b, EncodeNum(a, v, w));
    FitsRoundTrip(v, w);
    ReverseInvolution(LE(v, w));
  }

  /** Transfer is the identity exactly when the ends are reconciled or the bytes of the
      value are a palindrome. */
  lemma TransferExactly(a: End, b: End, v: nat, w: nat)
    requires v < Pow256(w)
    ensures DecodeNum(b, EncodeNum(a, v, w)) == v <==> Reconciled(a, b) || Reverse(LE(v, w)) == LE(v, w)
  {
    Transfer(a, b, v, w);
    FitsRoundTrip(v, w);
    LEOfFromLE(Reverse(LE(v, w)));
  }

  /** The ends that the build settings produce: `to_swap` holds when the declared orders of
      client and server differ; in a loop-back build both run on one machine and the
      receiver swaps too. */
  function Ends(loopback: bool, machine: Endian, client: Endian, server: Endian): (r: (End, End)) {
    var toSwap := client != server;
    if loopback then (End(machine, toSwap, toSwap), End(machine, toSwap, toSwap))
    else (End(client, toSwap, false), End(server, toSwap, false))
  }

  /** What is on the link: a host that is told of different byte orders sends the reverse of its
      memory; in a loop-back build it also reverses what it receives. */
  lemma SettingsOnLink(loopback: bool, machine: Endian, client: Endian, server: Endian, v: nat, w: nat, data: seq<byte>)
    ensures var (c, s) := Ends(loopback, machine, client, server);
            var hostC, hostS := if loopback then machine else client, if loopback then machine else server;
            && EncodeNum(c, v, w) == (if client == server then Memory(hostC, v, w) else Reverse(Memory(hostC, v, w)))
            && EncodeNum(s, v, w) == (if client == server then Memory(hostS, v, w) else Reverse(Memory(hostS, v, w)))
            && DecodeNum(c, data) == (if loopback && client != server then FromMemory(hostC, Reverse(data)) else FromMemory(hostC, data))
            && DecodeNum(s, data) == (if loopback && client != server then FromMemory(hostS, Reverse(data)) else FromMemory(hostS, data))
  {
    var (c, s) := Ends(loopback, machine, client, server);
    EncodedMemory(c, v, w);
    EncodedMemory(s, v, w);
    DecodedMemory(c, data);
    DecodedMemory(s, data);
    ReverseInvolution(LE(v, w));
    ReverseInvolution(data);
  }

  /** Under every setting, arguments and results cross the connection unchanged. */
  lemma SettingsReconcile(loopback: bool, machine: Endian, client: Endian, server: Endian, v: nat, w: nat)
    requires v < Pow256(w)
    ensures var (c, s) := Ends(loopback, machine, client, server);
            && Reconciled(c, s) && Reconciled(s, c)
            && DecodeNum(s, EncodeNum(c, v, w)) == v
            && DecodeNum(c, EncodeNum(s, v, w)) == v
  {
    var (c, s) := Ends(loopback, machine, client, server);
    Transfer(c, s, v, w);
    Transfer(s, c, v, w);
  }
}
