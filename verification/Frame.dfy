/** The binary wire format of a message and its reference decoder.

    A frame is the message id in two bytes, the NUL-terminated name of the procedure,
    the length of the value in eight bytes, and the value.  The two numbers are copied from
    the memory of the sending host, and never swapped.  `Serializer` and
    `Deserializer` are proved against the two functions of this module. */
module Frame {
  import opened Bytes

  type Key = seq<byte>

  datatype Message = Message(id: nat, name: Key, value: seq<byte>)

  /** What the field types of the source impose, plus a name without NUL. */
  predicate Wellformed(m: Message) {
    Sized(m) && 0 !in m.name
  }

  predicate Sized(m: Message) {
    m.id < TWO16 && |m.value| < TWO64
  }

  function Header(o: Endian, id: nat, name: Key): seq<byte> {
    Memory(o, id, 2) + name + [0]
  }

  function Enc(o: Endian, m: Message): (s: seq<byte>)
    ensures |s| == |m.name| + |m.value| + 11
  {
    Header(o, m.id, m.name) + Memory(o, |m.value|, 8) + m.value
  }

  function EncAll(o: Endian, ms: seq<Message>): seq<byte> {
    if ms == [] then [] else Enc(o, ms[0]) + EncAll(o, ms[1..])
  }

  /** The length of the prefix of `s` that holds no NUL. */
  function NulAt(s: seq<byte>): (k: nat)
    ensures k <= |s|
    ensures 0 !in s[..k]
    ensures k < |s| ==> s[k] == 0
  {
    if s == [] || s[0] == 0 then 0
    else
      assert forall k | 0 < k <= |s| :: s[..k] == [s[0]] + s[1..][..k - 1];
      1 + NulAt(s[1..])
  }

  lemma {:induction false} NulAtUnique(name: Key, rest: seq<byte>)
    requires 0 !in name
    ensures NulAt(name + [0] + rest) == |name|
  {
    if name != [] {
      assert (name + [0] + rest)[1..] == name[1..] + [0] + rest;
      NulAtUnique(name[1..], rest);
    }
  }

  /** The reference decoder: the first frame of a byte string and its length, when the
      string holds a whole one. */
  function Parse(o: Endian, s: seq<byte>): Option<(Message, nat)> {
    if |s| < 2 then None else
    var k := NulAt(s[2..]);
    if |s| < k + 11 then None else
    var size := FromMemory(o, s[k + 3..k + 11]);
    if |s| < k + 11 + size then None else
    Some((Message(FromMemory(o, s[..2]), s[2..k + 2], s[k + 11..k + 11 + size]), k + 11 + size))
  }

  lemma FieldsAt(id: seq<byte>, name: Key, size: seq<byte>, more: seq<byte>, s: seq<byte>)
    requires |id| == 2 && |size| == 8 && s == id + name + [0] + size + more
    ensures s[..2] == id && s[2..] == name + [0] + (size + more)
    ensures s[2..|name| + 2] == name && s[|name| + 3..|name| + 11] == size && s[|name| + 11..] == more
  {
    assert s[..2] == id;
    assert s[2..|name| + 2] == name;
    assert s[|name| + 3..|name| + 11] == size;
  }

  /** What a host of byte order p makes of a frame from a host of byte order o, whatever
      follows it: the name is right, id and size are the numbers that p reads there, and the
      value is as long as that size says. */
  lemma ParseAcross(o: Endian, p: Endian, m: Message, rest: seq<byte>)
    requires 0 !in m.name
    ensures var size, more := FromMemory(p, Memory(o, |m.value|, 8)), m.value + rest;
            Parse(p, Enc(o, m) + rest) ==
            if |more| < size then None
            else Some((Message(FromMemory(p, Memory(o, m.id, 2)), m.name, more[..size]), |m.name| + 11 + size))
  {
    var bytes, more, s := Memory(o, |m.value|, 8), m.value + rest, Enc(o, m) + rest;
    hide Memory, FromMemory, NulAt;
    ConcatAssoc(Header(o, m.id, m.name) + bytes, m.value, rest);
    hide Parse, Enc;
    FieldsAt(Memory(o, m.id, 2), m.name, bytes, more, s);
    NulAtUnique(m.name, bytes + more);
    ParseFields(p, s, m.name, bytes, more);
  }

  lemma ParseFields(o: Endian, s: seq<byte>, name: Key, bytes: seq<byte>, more: seq<byte>)
    requires |s| == |name| + 11 + |more| && NulAt(s[2..]) == |name| && s[2..|name| + 2] == name
    requires s[|name| + 3..|name| + 11] == bytes && s[|name| + 11..] == more
    ensures var size := FromMemory(o, bytes);
            Parse(o, s) == if |more| < size then None
                           else Some((Message(FromMemory(o, s[..2]), name, more[..size]), |name| + 11 + size))
  {
    hide FromMemory, NulAt;
    var k, size := |name|, FromMemory(o, bytes);
    assert |more| >= size ==> s[k + 11..k + 11 + size] == s[k + 11..][..size];
  }

  /** Every frame, whatever follows it, decodes to its own message and its own length. */
  lemma ParseEnc(o: Endian, m: Message, rest: seq<byte>)
    requires Wellformed(m)
    ensures Parse(o, Enc(o, m) + rest) == Some((m, |Enc(o, m)|))
  {
    Pow256Values();
    MemoryRoundTrip(o, m.id, 2);
    MemoryRoundTrip(o, |m.value|, 8);
    hide Parse, Memory, FromMemory, Pow256;
    ParseAcross(o, o, m, rest);
    assert (m.value + rest)[..|m.value|] == m.value;
  }

  /** Whatever decodes is the encoding of what it decodes to. */
  lemma ParseSound(o: Endian, s: seq<byte>)
    requires Parse(o, s).Some?
    ensures var (m, n) := Parse(o, s).value;
            Wellformed(m) && n <= |s| && n == |Enc(o, m)| && Enc(o, m) == s[..n]
  {
    var (m, n) := Parse(o, s).value;
    var k := NulAt(s[2..]);
    Pow256Values();
    MemoryOfFrom(o, s[..2]);
    MemoryOfFrom(o, s[k + 3..k + 11]);
    hide Memory, FromMemory, Pow256;
    assert m.name == s[2..][..k];
    assert s[k + 2] == s[2..][k] == 0;
    assert s[..n] == s[..2] + s[2..k + 2] + [s[k + 2]] + s[k + 3..k + 11] + s[k + 11..n];
  }

  /** A frame decodes to its own message exactly when the name holds no NUL. */
  lemma RoundTripExactly(o: Endian, m: Message, rest: seq<byte>)
    requires Sized(m)
    ensures Parse(o, Enc(o, m) + rest) == Some((m, |Enc(o, m)|)) <==> 0 !in m.name
  {
    if 0 !in m.name {
      ParseEnc(o, m, rest);
    } else if Parse(o, Enc(o, m) + rest) == Some((m, |Enc(o, m)|)) {
      ParseSound(o, Enc(o, m) + rest);
    }
  }

  /** The name of one NUL arrives empty, and a byte of its frame is left over. */
  lemma NulNameIsLost(o: Endian, id: nat)
    requires id < TWO16
    ensures Parse(o, Enc(o, Message(id, [0], []))) == Some((Message(id, [], []), 11))
    ensures |Enc(o, Message(id, [0], []))| == 12
  {
    var m, m' := Message(id, [0], []), Message(id, [], []);
    var head, zeros := Memory(o, id, 2), Memory(o, 0, 8);
    ZeroMemory(o, 8);
    hide Memory, Parse;
    assert Enc(o, m) == head + [0] + [0] + zeros + [];
    assert Enc(o, m') == head + [] + [0] + zeros + [];
    OneMore(head, zeros);
    hide Enc;
    ParseEnc(o, m', [0]);
  }

  lemma OneMore(head: seq<byte>, zeros: seq<byte>)
    requires forall i :: 0 <= i < |zeros| ==> zeros[i] == 0
    ensures head + [0] + [0] + zeros + [] == (head + [] + [0] + zeros + []) + [0]
  {
    assert [0] + zeros == zeros + [0];
    assert head + [0] + [0] + zeros + [] == (head + [0]) + ([0] + zeros);
    assert (head + [] + [0] + zeros + []) + [0] == (head + [0]) + (zeros + [0]);
  }

  lemma ZeroMemory(o: Endian, w: nat)
    ensures forall i :: 0 <= i < w ==> Memory(o, 0, w)[i] == 0
  {
    ZeroBytes(w);
    ReverseZeros(LE(0, w));
  }

  lemma {:induction false} ZeroBytes(w: nat)
    ensures forall i :: 0 <= i < w ==> LE(0, w)[i] == 0
  {
    if w > 0 {
      ZeroBytes(w - 1);
    }
  }

  lemma {:induction false} ReverseZeros(s: seq<byte>)
    requires forall i :: 0 <= i < |s| ==> s[i] == 0
    ensures forall i :: 0 <= i < |s| ==> Reverse(s)[i] == 0
  {
    if s != [] {
      ReverseZeros(s[1..]);
    }
  }

  /** A byte string that starts like a run of frames holds a whole frame exactly when it
      is at least as long as the first one, and then decodes to it. */
  lemma ParsePrefix(o: Endian, m: Message, rest: seq<byte>, n: nat)
    requires Wellformed(m)
    requires n <= |Enc(o, m) + rest|
    ensures Parse(o, (Enc(o, m) + rest)[..n]) ==
            if n < |Enc(o, m)| then None else Some((m, |Enc(o, m)|))
  {
    hide Enc, Parse, Wellformed;
    var e := Enc(o, m);
    var s := (e + rest)[..n];
    if n >= |e| {
      PrefixBeyond(e, rest, n);
      ParseEnc(o, m, rest[..n - |e|]);
    } else if Parse(o, s).Some? {
      var (m', n') := Parse(o, s).value;
      ParseSound(o, s);
      CutTwice(e + rest, n, n');
      ParseEnc(o, m', (e + rest)[n'..]);
      ParseEnc(o, m, rest);
    }
  }

  lemma PrefixBeyond(a: seq<byte>, b: seq<byte>, n: nat)
    requires |a| <= n <= |a + b|
    ensures (a + b)[..n] == a + b[..n - |a|]
  {
  }

  lemma CutTwice(s: seq<byte>, n: nat, k: nat)
    requires k <= n <= |s|
    ensures s[..n][..k] + s[k..] == s
  {
  }

  lemma {:induction false} EncAllConcat(o: Endian, a: seq<Message>, b: seq<Message>)
    ensures EncAll(o, a + b) == EncAll(o, a) + EncAll(o, b)
  {
    if a == [] {
      assert a + b == b;
    } else {
      assert (a + b)[1..] == a[1..] + b;
      EncAllConcat(o, a[1..], b);
    }
  }

  /** Frames are uniquely decodable: equal byte streams carry equal message lists. */
  lemma {:induction false} EncAllInjective(o: Endian, a: seq<Message>, b: seq<Message>)
    requires forall m :: m in a ==> Wellformed(m)
    requires forall m :: m in b ==> Wellformed(m)
    requires EncAll(o, a) == EncAll(o, b)
    ensures a == b
  {
    if a != [] && b != [] {
      ParseEnc(o, a[0], EncAll(o, a[1..]));
      ParseEnc(o, b[0], EncAll(o, b[1..]));
      assert EncAll(o, a[1..]) == EncAll(o, a)[|Enc(o, a[0])|..];
      assert EncAll(o, b[1..]) == EncAll(o, b)[|Enc(o, b[0])|..];
      EncAllInjective(o, a[1..], b[1..]);
    }
  }

  /** All frames at the front of a byte string, and the bytes of the unfinished one. */
  function ParseAll(o: Endian, s: seq<byte>): (seq<Message>, seq<byte>) {
    match Parse(o, s)
    case None => ([], s)
    case Some((m, n)) =>
      if n == 0 || n > |s| then ([], s)
      else
        var (ms, rest) := ParseAll(o, s[n..]);
        ([m] + ms, rest)
  }

  /** Receiving chunk by chunk: each is decoded behind what the ones before left over. */
  function ParseChunks(o: Endian, rest: seq<byte>, chunks: seq<seq<byte>>): (seq<Message>, seq<byte>)
    decreases chunks
  {
    if chunks == [] then ([], rest)
    else
      var (ms, rest') := ParseAll(o, rest + chunks[0]);
      var (more, last) := ParseChunks(o, rest', chunks[1..]);
      (ms + more, last)
  }

  function Concat(chunks: seq<seq<byte>>): seq<byte> {
    if chunks == [] then [] else chunks[0] + Concat(chunks[1..])
  }

  lemma ParseAllStep(o: Endian, m: Message, s: seq<byte>, n: nat)
    requires Parse(o, s) == Some((m, n)) && 0 < n <= |s|
    ensures ParseAll(o, s) == ([m] + ParseAll(o, s[n..]).0, ParseAll(o, s[n..]).1)
  {
    hide Parse;
  }

  lemma SplitHead(s: seq<byte>, tail: seq<byte>, head: seq<byte>, more: seq<byte>)
    requires s + tail == head + more
    ensures (head + more)[..|s|] == s
    ensures |head| <= |s| ==> s[|head|..] + tail == more
  {
    if |head| <= |s| {
      assert s[|head|..] + tail == (s + tail)[|head|..];
    }
  }

  lemma SplitList(ms: seq<Message>, k: nat)
    requires k < |ms|
    ensures ms[..k + 1] == [ms[0]] + ms[1..][..k] && ms[k + 1..] == ms[1..][k..]
  {
  }

  lemma ParseNothing(o: Endian, s: seq<byte>)
    requires s == [] || Parse(o, s) == None
    ensures ParseAll(o, s) == ([], s)
  {
  }

  /** What is decoded from a prefix of a run of frames are the first of them. */
  lemma {:induction false} ParseAllPrefix(o: Endian, ms: seq<Message>, s: seq<byte>, tail: seq<byte>) returns (k: nat)
    requires (forall m :: m in ms ==> Wellformed(m)) && s + tail == EncAll(o, ms)
    ensures k <= |ms| && ParseAll(o, s).0 == ms[..k] && ParseAll(o, s).1 + tail == EncAll(o, ms[k..])
    decreases |ms|
  {
    hide Enc, Parse, Wellformed, ParseAll;
    if ms == [] {
      k := 0;
      ParseNothing(o, s);
      return;
    }
    var e, more := Enc(o, ms[0]), EncAll(o, ms[1..]);
    assert s + tail == e + more;
    hide EncAll;
    assert Wellformed(ms[0]) && forall m :: m in ms[1..] ==> m in ms;
    SplitHead(s, tail, e, more);
    ParsePrefix(o, ms[0], more, |s|);
    if |s| < |e| {
      k := 0;
      ParseNothing(o, s);
    } else {
      ParseAllStep(o, ms[0], s, |e|);
      var j := ParseAllPrefix(o, ms[1..], s[|e|..], tail);
      SplitList(ms, j);
      k := j + 1;
    }
  }

  lemma {:induction false} ParseChunksFrom(o: Endian, ms: seq<Message>, rest: seq<byte>, chunks: seq<seq<byte>>)
    requires (forall m :: m in ms ==> Wellformed(m)) && rest + Concat(chunks) == EncAll(o, ms) && Parse(o, rest) == None
    ensures ParseChunks(o, rest, chunks) == (ms, [])
    decreases chunks
  {
    if chunks == [] {
      assert rest + [] == rest;
      NothingLeft(o, ms);
    } else {
      var tail := Concat(chunks[1..]);
      assert (rest + chunks[0]) + tail == rest + Concat(chunks);
      var k := ParseAllPrefix(o, ms, rest + chunks[0], tail);
      ParseAllEnds(o, rest + chunks[0]);
      ParseChunksFrom(o, ms[k..], ParseAll(o, rest + chunks[0]).1, chunks[1..]);
      assert ms[..k] + ms[k..] == ms;
    }
  }

  lemma NothingLeft(o: Endian, ms: seq<Message>)
    requires (forall m :: m in ms ==> Wellformed(m)) && Parse(o, EncAll(o, ms)) == None
    ensures ms == []
  {
    if ms != [] {
      ParseEnc(o, ms[0], EncAll(o, ms[1..]));
    }
  }

  lemma {:induction false} ParseAllEnds(o: Endian, s: seq<byte>)
    ensures Parse(o, ParseAll(o, s).1) == None
    decreases |s|
  {
    if Parse(o, s).Some? {
      ParseSound(o, s);
      ParseAllEnds(o, s[Parse(o, s).value.1..]);
    }
  }

  /** However the bytes of a list of messages are split into chunks, exactly these messages
      are decoded, in order, and nothing is left over. */
  lemma ChunkIndependent(o: Endian, ms: seq<Message>, chunks: seq<seq<byte>>)
    requires (forall m :: m in ms ==> Wellformed(m)) && Concat(chunks) == EncAll(o, ms)
    ensures ParseChunks(o, [], chunks) == (ms, [])
  {
    assert [] + Concat(chunks) == Concat(chunks);
    ParseChunksFrom(o, ms, [], chunks);
  }

  // Hosts of different byte orders.

  predicate Decodes(o: Endian, s: seq<byte>, name: Key, value: seq<byte>) {
    var r := Parse(o, s);
    r.Some? && r.value.0.name == name && r.value.0.value == value
  }

  /** A frame of byte order o decodes under p to its name and its value if and only if the
      byte orders are equal or the eight bytes of the size are a palindrome. */
  lemma CrossOrderExactly(o: Endian, p: Endian, m: Message, rest: seq<byte>)
    requires Wellformed(m)
    ensures Decodes(p, Enc(o, m) + rest, m.name, m.value) <==>
            o == p || Reverse(LE(|m.value|, 8)) == LE(|m.value|, 8)
  {
    var n := |m.value|;
    Pow256Values();
    MemoryAcross(o, p, n, 8);
    SizeAcross(n);
    hide Parse, Memory, FromMemory, Pow256, LE, FromLE, Reverse;
    ParseAcross(o, p, m, rest);
    assert (m.value + rest)[..n] == m.value;
  }

  lemma SizeAcross(n: nat)
    requires n < TWO64
    ensures FromLE(Reverse(LE(n, 8))) == n <==> Reverse(LE(n, 8)) == LE(n, 8)
  {
    Pow256Values();
    FitsRoundTrip(n, 8);
    LEOfFromLE(Reverse(LE(n, 8)));
  }

  /** A value of one to 255 bytes is waited for in vain: its size is read 2^56 times too
      large, and nothing is decoded before that many bytes have arrived. */
  lemma ShortFrameBlocks(o: Endian, p: Endian, m: Message, rest: seq<byte>)
    requires Wellformed(m) && o != p && 0 < |m.value| < 256 && |m.value| + |rest| < |m.value| * Pow256(7)
    ensures Parse(p, Enc(o, m) + rest) == None
  {
    Pow256Values();
    MemoryAcross(o, p, |m.value|, 8);
    SmallReversed(|m.value|);
    hide Parse, Memory, FromMemory, Pow256, LE, FromLE, Reverse;
    ParseAcross(o, p, m, rest);
  }

  lemma SmallReversed(n: nat)
    requires n < 256
    ensures FromLE(Reverse(LE(n, 8))) == n * Pow256(7)
  {
    assert LE(n, 8) == [n] + LE(0, 7);
    var zeros := Reverse(LE(0, 7));
    assert Reverse(LE(n, 8)) == zeros + [n];
    LEZero(7);
    FromLEAppend(zeros, n);
  }

  lemma {:induction false} LEZero(w: nat)
    ensures FromLE(Reverse(LE(0, w))) == 0
  {
    if w > 0 {
      LEZero(w - 1);
      assert LE(0, w) == [0] + LE(0, w - 1);
      FromLEAppend(Reverse(LE(0, w - 1)), 0);
    }
  }

  /** An id that the other host reads and sends back is read as it was sent, whether the
      byte orders agree or not. */
  lemma EchoedId(o: Endian, p: Endian, m: Message, value: seq<byte>)
    requires m.id < TWO16
    ensures var id := FromMemory(p, Enc(o, m)[..2]);
            FromMemory(o, Enc(p, Message(id, m.name, value))[..2]) == m.id
  {
    var bytes := Memory(o, m.id, 2);
    var id := FromMemory(p, bytes);
    Pow256Values();
    MemoryRoundTrip(o, m.id, 2);
    MemoryOfFrom(p, bytes);
    hide Memory, FromMemory, Pow256;
    assert Enc(o, m)[..2] == bytes;
    assert Enc(p, Message(id, m.name, value))[..2] == Memory(p, id, 2);
  }
}
