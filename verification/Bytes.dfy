/** Bytes, fixed-width unsigned integers as byte strings, and the few facts about
    sequences that every layer uses. */
module Bytes {

  type byte = x: int | 0 <= x < 256

  const TWO16: nat := 0x1_0000
  const TWO64: nat := 0x1_0000_0000_0000_0000

  datatype Option<+T> = None | Some(value: T)

  predicate Distinct<T(==)>(s: seq<T>) {
    forall i, j :: 0 <= i < j < |s| ==> s[i] != s[j]
  }

  function Min(a: nat, b: nat): nat {
    if a < b then a else b
  }

  /** 256 to the power of w: the number of values of a w-byte unsigned integer. */
  function Pow256(w: nat): (r: nat)
    ensures r > 0
  {
    if w == 0 then 1 else 256 * Pow256(w - 1)
  }

  /** The memory of a w-byte unsigned integer on a little-endian host. */
  function LE(n: nat, w: nat): (s: seq<byte>)
    ensures |s| == w
  {
    if w == 0 then [] else [n % 256] + LE(n / 256, w - 1)
  }

  function FromLE(s: seq<byte>): nat {
    if s == [] then 0 else s[0] + 256 * FromLE(s[1..])
  }

  function Reverse(s: seq<byte>): (r: seq<byte>)
    ensures |r| == |s|
  {
    if s == [] then [] else Reverse(s[1..]) + [s[0]]
  }

  lemma {:induction false} FromLEBound(s: seq<byte>)
    ensures FromLE(s) < Pow256(|s|)
  {
    if s != [] { FromLEBound(s[1..]); }
  }

  /** Reading back a w-byte integer yields its value modulo 256^w. */
  lemma {:induction false} FromLEOfLE(n: nat, w: nat)
    ensures FromLE(LE(n, w)) == n % Pow256(w)
  {
    if w > 0 {
      FromLEOfLE(n / 256, w - 1);
      var p := Pow256(w - 1);
      DivModSplit(n, p);
    }
  }

  lemma DivModSplit(n: nat, p: nat)
    requires p > 0
    ensures n % 256 + 256 * ((n / 256) % p) == n % (256 * p)
  {
    var q, r := (n / 256) / p, (n / 256) % p;
    assert n == 256 * (q * p + r) + n % 256;
    assert n == (256 * p) * q + (n % 256 + 256 * r);
    assert n % 256 + 256 * r < 256 * p;
    ModUnique(256 * p, q, n % 256 + 256 * r);
  }

  lemma ModUnique(m: nat, q: nat, r: nat)
    requires r < m
    ensures (m * q + r) % m == r
    ensures (m * q + r) / m == q
  {
    var x := m * q + r;
    var q', r' := x / m, x % m;
    assert m * q' + r' == m * q + r;
    assert m * (q' - q) == r - r';
    assert 0 - m < m * (q' - q) < m;
    SmallMultiple(m, q' - q);
  }

  lemma SmallMultiple(m: nat, k: int)
    requires 0 - m < m * k < m
    ensures k == 0
  {
    assert k >= 1 ==> m * k >= m;
    assert k <= -1 ==> m * k <= 0 - m;
  }

  lemma {:induction false} LEOfFromLE(s: seq<byte>)
    ensures LE(FromLE(s), |s|) == s
  {
    if s != [] {
      LEOfFromLE(s[1..]);
      ModUnique(256, FromLE(s[1..]), s[0]);
    }
  }

  lemma Pow256Values()
    ensures Pow256(1) == 256
    ensures Pow256(2) == TWO16
    ensures Pow256(4) == 0x1_0000_0000
    ensures Pow256(8) == TWO64
  {
    assert Pow256(2) == 256 * Pow256(1);
    assert Pow256(3) == 256 * Pow256(2);
    assert Pow256(4) == 256 * Pow256(3);
    assert Pow256(5) == 256 * Pow256(4);
    assert Pow256(6) == 256 * Pow256(5);
    assert Pow256(7) == 256 * Pow256(6);
    assert Pow256(8) == 256 * Pow256(7);
  }

  /** A value that fits comes back unchanged. */
  lemma FitsRoundTrip(n: nat, w: nat)
    requires n < Pow256(w)
    ensures FromLE(LE(n, w)) == n
  {
    FromLEOfLE(n, w);
    ModUnique(Pow256(w), 0, n);
  }

  lemma {:induction false} ReverseConcat(a: seq<byte>, b: seq<byte>)
    ensures Reverse(a + b) == Reverse(b) + Reverse(a)
  {
    if a == [] {
      assert a + b == b;
    } else {
      assert (a + b)[1..] == a[1..] + b;
      ReverseConcat(a[1..], b);
    }
  }

  lemma {:induction false} ReverseInvolution(s: seq<byte>)
    ensures Reverse(Reverse(s)) == s
  {
    if s != [] {
      ReverseConcat(Reverse(s[1..]), [s[0]]);
      ReverseInvolution(s[1..]);
    }
  }

  lemma {:induction false} FromLEAppend(s: seq<byte>, b: byte)
    ensures FromLE(s + [b]) == FromLE(s) + b * Pow256(|s|)
  {
    if s == [] {
      assert [] + [b] == [b];
      assert FromLE([b]) == b + 256 * FromLE([b][1..]);
    } else {
      assert (s + [b])[1..] == s[1..] + [b] && (s + [b])[0] == s[0];
      FromLEAppend(s[1..], b);
      Distribute(FromLE(s[1..]), b, Pow256(|s| - 1));
    }
  }

  lemma Distribute(x: nat, b: nat, p: nat)
    ensures 256 * (x + b * p) == 256 * x + b * (256 * p)
  {
  }

  // The byte order of a host.

  datatype Endian = LITTLE | BIG

  /** The memory of the w-byte unsigned integer n, and back. */
  function Memory(order: Endian, n: nat, w: nat): (s: seq<byte>)
    ensures |s| == w
  {
    if order.LITTLE? then LE(n, w) else Reverse(LE(n, w))
  }

  function FromMemory(order: Endian, s: seq<byte>): nat {
    if order.LITTLE? then FromLE(s) else FromLE(Reverse(s))
  }

  lemma MemoryRoundTrip(order: Endian, n: nat, w: nat)
    requires n < Pow256(w)
    ensures FromMemory(order, Memory(order, n, w)) == n
  {
    FitsRoundTrip(n, w);
    ReverseInvolution(LE(n, w));
  }

  lemma MemoryOfFrom(order: Endian, s: seq<byte>)
    ensures FromMemory(order, s) < Pow256(|s|) && Memory(order, FromMemory(order, s), |s|) == s
  {
    FromLEBound(s);
    FromLEBound(Reverse(s));
    LEOfFromLE(s);
    LEOfFromLE(Reverse(s));
    ReverseInvolution(s);
  }

  /** The host of the other byte order reads the bytes in reverse. */
  lemma MemoryAcross(a: Endian, b: Endian, n: nat, w: nat)
    requires n < Pow256(w)
    ensures FromMemory(b, Memory(a, n, w)) == if a == b then n else FromLE(Reverse(LE(n, w)))
  {
    FitsRoundTrip(n, w);
    ReverseInvolution(LE(n, w));
  }

  lemma SliceConcat(a: seq<byte>, b: seq<byte>, n: nat)
    requires n <= |a|
    ensures (a + b)[..n] == a[..n]
    ensures (a + b)[n..] == a[n..] + b
  {
  }

  lemma ConcatAssoc(a: seq<byte>, b: seq<byte>, c: seq<byte>)
    ensures (a + b) + c == a + (b + c)
  {
  }
}
