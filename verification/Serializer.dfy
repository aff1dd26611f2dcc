/** The resumable phase machines that write and read frames through a streamer. */
module SerializerModule {
  import opened Bytes
  import opened Frame
  import opened DataLink
  import opened StreamerModule
  import Wire

  datatype Phase = IDLE | ID | NAME | SIZE | ARGS_VALUE | END

  class Serializer {
    const order: Endian  // of the host
    const streamer: Streamer
    var msg: Message
    var p: seq<byte>  // the field being written, as `m_p` points to it
    var i: nat
    var len: nat
    var size: nat
    var id: nat
    var phase: Phase

    /** In the middle of a frame there is always something to write: `Write` is never
        called with length 0. */
    ghost predicate Valid()
      reads this
    {
      phase != IDLE && phase != END ==> 0 < len && i + len == |p|
    }

    /** The bytes of the current frame that have not been written yet. */
    ghost function Rest(): seq<byte>
      requires Valid()
      reads this
    {
      match phase
      case ID => p[i..] + (msg.name + [0] + Memory(order, |msg.value|, 8) + msg.value)
      case NAME => p[i..] + (Memory(order, |msg.value|, 8) + msg.value)
      case SIZE => p[i..] + msg.value
      case ARGS_VALUE => p[i..]
      case _ => []
    }

    constructor (order: Endian, streamer: Streamer)
      ensures Valid() && this.order == order && this.streamer == streamer && phase == IDLE
    {
      this.order, this.streamer := order, streamer;
      msg, p, i, len, size, id, phase := Message(0, [], []), [], 0, 0, 0, 0, IDLE;
    }

    method Init(m: Message)
      modifies this
      ensures Valid() && phase == ID && Rest() == Enc(order, m)
    {
      msg := m;
      id := m.id;
      p := Memory(order, id, 2);
      len := |p|;
      i := 0;
      phase := ID;
    }

    /** Writes the current field, of which `len` bytes are left, as far as the ring takes it. */
    method Send() returns (done: bool, ghost n: nat)
      requires Valid() && streamer.Valid() && streamer.com.open && phase != END
      modifies this, streamer.Footprint()
      ensures Valid() && streamer.Valid() && phase != END
      ensures streamer.Rx() == old(streamer.Rx()) && streamer.com.Incoming() == old(streamer.com.Incoming())
      ensures old(phase) != IDLE ==>
                Wire.Sent(n, old(Rest()), old(streamer.Tx()), old(streamer.com.Outgoing()),
                          Rest(), streamer.Tx(), streamer.com.Outgoing())
      ensures old(phase) != IDLE ==> n == Min(old(len), 1024 - |old(streamer.Tx())|)
      ensures old(phase) == IDLE ==>
                streamer.Tx() == old(streamer.Tx()) && streamer.com.Outgoing() == old(streamer.com.Outgoing())
      ensures done <==> old(phase) != IDLE && phase == IDLE
      ensures phase == IDLE <==> Rest() == []
    {
      hide Wire.Sent;
      done, n := false, 0;
      if phase != IDLE {
        var count := WriteField();
        n := count;
        done := Account(count);
      }
    }

    method WriteField() returns (n: nat)
      requires Valid() && streamer.Valid() && streamer.com.open && phase != IDLE && phase != END
      modifies streamer.Footprint()
      ensures streamer.Valid()
      ensures streamer.Rx() == old(streamer.Rx()) && streamer.com.Incoming() == old(streamer.com.Incoming())
      ensures n <= len <= |Rest()| && n == Min(len, 1024 - |old(streamer.Tx())|)
      ensures Wire.Sent(n, Rest(), old(streamer.Tx()), old(streamer.com.Outgoing()),
                        Rest()[n..], streamer.Tx(), streamer.com.Outgoing())
    {
      hide Memory, RingView;
      RestStartsWithField();
      ghost var field, rest := p[i..i + len], Rest();
      n := streamer.Write(p[i..i + len]);
      assert rest[..n] == rest[..len][..n] == field[..n];
    }

    lemma RestStartsWithField()
      requires Valid() && phase != IDLE && phase != END
      ensures len <= |Rest()| && Rest()[..len] == p[i..i + len]
    {
    }

    /** Moves on by `count` bytes, to the next field when the current one is written. */
    method Account(count: nat) returns (done: bool)
      requires Valid() && phase != IDLE && phase != END && count <= len
      modifies this
      ensures Valid() && phase != END && count <= |old(Rest())| && Rest() == old(Rest())[count..]
      ensures done <==> phase == IDLE
      ensures phase == IDLE <==> Rest() == []
    {
      hide Memory;
      if count >= len {
        NextField();
      } else {
        i := i + count;
        len := len - count;
      }
      done := phase == END;
      if done {
        phase := IDLE;
      }
    }

    method NextField()
      requires Valid() && phase != IDLE && phase != END
      modifies this
      ensures Valid() && phase != IDLE && Rest() == old(Rest())[old(len)..]
    {
      hide Memory;
      ghost var rest := Rest();
      match phase {
        case ID =>
          p := msg.name + [0];
          len, i, phase := |p|, 0, NAME;
        case NAME =>
          size := |msg.value|;
          p := Memory(order, size, 8);
          len, i, phase := |p|, 0, SIZE;
        case SIZE =>
          len := |msg.value|;
          if len > 0 {
            p, i, phase := msg.value, 0, ARGS_VALUE;
          } else {
            phase := END;
          }
        case ARGS_VALUE =>
          phase := END;
      }
    }
  }

  /** A C string starting at the beginning of `s`: up to the first NUL. */
  function CString(s: seq<byte>): seq<byte> {
    s[..NulAt(s)]
  }

  class Deserializer {
    const order: Endian  // of the host
    const streamer: Streamer
    var msg: Message  // the message that `m_pmsg` points to
    var s: seq<byte>
    var v: seq<byte>
    var size: nat
    var phase: Phase

    /** What the partial fields carry from one call to the next: fewer bytes than the field
        needs, so that something is always left to consume. */
    ghost predicate Valid()
      reads this
    {
      match phase
      case ID => |v| < 2 && s == []
      case NAME => msg.id < TWO16 && 0 !in s && v == []
      case SIZE => msg.id < TWO16 && 0 !in msg.name && |v| < 8
      case ARGS_VALUE => msg.id < TWO16 && 0 !in msg.name && |msg.value| < size < TWO64
      case END => Wellformed(msg)
      case IDLE => true
    }

    ghost predicate Active()
      reads this
    {
      phase != IDLE && phase != END
    }

    /** The bytes of the current frame that have been consumed. */
    ghost function Acc(): seq<byte>
      reads this
    {
      match phase
      case ID => v
      case NAME => Memory(order, msg.id, 2) + s
      case SIZE => Header(order, msg.id, msg.name) + v
      case ARGS_VALUE => Header(order, msg.id, msg.name) + Memory(order, size, 8) + msg.value
      case _ => []
    }

    constructor (order: Endian, streamer: Streamer)
      ensures Valid() && this.order == order && this.streamer == streamer && phase == IDLE
    {
      this.order, this.streamer := order, streamer;
      msg, s, v, size, phase := Message(0, [], []), [], [], 0, IDLE;
    }

    method Init()
      modifies this
      ensures Valid() && phase == ID && Acc() == []
    {
      s, v, phase := [], [], ID;
    }

    /** In the middle of a frame the consumed bytes hold no whole frame. */
    lemma AccIsPartial()
      requires Valid() && Active()
      ensures Parse(order, Acc()) == None
    {
      match phase {
        case ID =>
        case NAME => NoTerminator(order, msg.id, s);
        case SIZE => NoSize(order, msg.id, msg.name, v);
        case ARGS_VALUE => NoValue(order, msg.id, msg.name, size, msg.value);
      }
    }

    /** One turn of the loop over the snapshot, of which `rest` is unread: consumes `n`
        bytes, at least one. */
    method Step(rest: seq<byte>) returns (n: nat)
      requires Valid() && Active() && rest != []
      modifies this
      ensures Valid() && phase != IDLE && 0 < n <= |rest|
      ensures phase != END ==> Acc() == old(Acc()) + rest[..n]
      ensures phase == END ==> Enc(order, msg) == old(Acc()) + rest[..n]
    {
      match phase {
        case ID => n := StepId(rest);
        case NAME => n := StepName(rest);
        case SIZE => n := StepSize(rest);
        case ARGS_VALUE => n := StepArgs(rest);
      }
    }

    /** Decodes what the ring holds, up to the end of the current frame. */
    method Receive() returns (done: bool)
      requires Valid() && streamer.Valid() && phase != END
      modifies this, streamer.Footprint()
      ensures Valid() && streamer.Valid() && phase != END
      ensures streamer.Tx() == old(streamer.Tx()) && streamer.com.Outgoing() == old(streamer.com.Outgoing())
      ensures old(phase) == IDLE ==>
                && !done && phase == IDLE
                && streamer.Rx() == old(streamer.Rx()) && streamer.com.Incoming() == old(streamer.com.Incoming())
      ensures |old(streamer.Rx())| <= RING_SIZE
      ensures old(phase) != IDLE ==>
                && (done <==> phase == IDLE)
                && Wire.Received(order, old(Acc()), old(streamer.Rx()), old(streamer.com.Incoming()),
                                 Acc(), streamer.Rx(), streamer.com.Incoming(),
                                 if done then Some(msg) else None)
    {
      done := false;
      streamer.RxBound();
      if phase != IDLE {
        Decode();
        if phase == END {
          phase := IDLE;
          done := true;
        }
      }
    }

    method Decode()
      requires Valid() && streamer.Valid() && Active()
      modifies this, streamer.Footprint()
      ensures Valid() && streamer.Valid() && phase != IDLE
      ensures streamer.Tx() == old(streamer.Tx()) && streamer.com.Outgoing() == old(streamer.com.Outgoing())
      ensures |old(streamer.Rx())| <= RING_SIZE
      ensures Wire.Received(order, old(Acc()), old(streamer.Rx()), old(streamer.com.Incoming()),
                            Acc(), streamer.Rx(), streamer.com.Incoming(),
                            if phase == END then Some(msg) else None)
    {
      ghost var acc, rx, link := Acc(), streamer.Rx(), streamer.com.Incoming();
      var buffer := Snapshot();
      ghost var used := 0;
      if |buffer| > 0 {
        used := Consume(buffer);
      }
      Verdict(acc, rx, link, used, streamer.Rx(), streamer.com.Incoming());
    }

    /** The bytes consumed and the state reached are those of the reference decoder. */
    lemma Verdict(acc: seq<byte>, rx: seq<byte>, link: seq<byte>, used: nat, rx': seq<byte>, link': seq<byte>)
      requires Valid() && phase != IDLE && |rx| <= RING_SIZE && |rx'| <= RING_SIZE && |link'| <= |link|
      requires used <= |Filled(rx, link)| && rx' + link' == (rx + link)[used..]
      requires phase != END ==> used == |Filled(rx, link)| && Acc() == acc + Filled(rx, link)
      requires phase == END ==> 0 < used && Enc(order, msg) == acc + Filled(rx, link)[..used]
      ensures Wire.Received(order, acc, rx, link, Acc(), rx', link', if phase == END then Some(msg) else None)
    {
      var buffer := Filled(rx, link);
      if phase == END {
        assert acc + buffer == Enc(order, msg) + buffer[used..];
        ParseEnc(order, msg, buffer[used..]);
      } else {
        AccIsPartial();
      }
    }

    method Snapshot() returns (buffer: seq<byte>)
      requires streamer.Valid()
      modifies streamer.Footprint()
      ensures streamer.Valid()
      ensures streamer.Tx() == old(streamer.Tx()) && streamer.com.Outgoing() == old(streamer.com.Outgoing())
      ensures |old(streamer.Rx())| <= RING_SIZE
      ensures buffer == streamer.Rx() == Filled(old(streamer.Rx()), old(streamer.com.Incoming()))
      ensures |streamer.com.Incoming()| <= |old(streamer.com.Incoming())| && |buffer| <= RING_SIZE
      ensures streamer.Rx() + streamer.com.Incoming() == old(streamer.Rx()) + old(streamer.com.Incoming())
    {
      var len := streamer.RxSize();
      buffer := streamer.TryRead(len);
      FilledTwice(old(streamer.Rx()), old(streamer.com.Incoming()));
    }

    /** The loop over the snapshot. */
    method Consume(buffer: seq<byte>) returns (ghost used: nat)
      requires Valid() && streamer.Valid() && Active()
      requires buffer == streamer.Rx() && buffer != []
      modifies this, streamer.Footprint()
      ensures Valid() && streamer.Valid() && phase != IDLE
      ensures streamer.Tx() == old(streamer.Tx()) && streamer.com.Outgoing() == old(streamer.com.Outgoing())
      ensures |streamer.com.Incoming()| <= |old(streamer.com.Incoming())| && |streamer.Rx()| <= RING_SIZE
      ensures 0 < used <= |buffer|
      ensures streamer.Rx() + streamer.com.Incoming() == (old(streamer.Rx()) + old(streamer.com.Incoming()))[used..]
      ensures phase != END ==> used == |buffer| && Acc() == old(Acc()) + buffer
      ensures phase == END ==> Enc(order, msg) == old(Acc()) + buffer[..used]
    {
      hide RingView, Enc, Acc, Valid;
      ghost var all, acc := streamer.Rx() + streamer.com.Incoming(), Acc();
      var ix := 0;
      used := 0;
      while ix < |buffer|
        invariant 0 <= ix <= |buffer| && 0 <= used <= |buffer|
        invariant Valid() && streamer.Valid() && phase != IDLE
        invariant streamer.Tx() == old(streamer.Tx()) && streamer.com.Outgoing() == old(streamer.com.Outgoing())
        invariant |streamer.com.Incoming()| <= |old(streamer.com.Incoming())|
        invariant streamer.Rx() + streamer.com.Incoming() == all[used..]
        invariant ix > 0 ==> used > 0
        invariant |streamer.Rx()| >= |buffer| - used
        invariant phase != END ==> used == ix && Acc() == acc + buffer[..used]
        invariant phase == END ==> ix == |buffer| && Enc(order, msg) == acc + buffer[..used]
        decreases |buffer| - ix
      {
        var n := Turn(buffer[ix..]);
        NextSlice(acc, buffer, all, ix, n);
        used := ix + n;
        ix := if phase == END then |buffer| else ix + n;
      }
      assert buffer[..|buffer|] == buffer;
      streamer.RxBound();
    }

    lemma NextSlice(acc: seq<byte>, buffer: seq<byte>, all: seq<byte>, ix: nat, n: nat)
      requires ix + n <= |buffer| <= |all|
      ensures (acc + buffer[..ix]) + buffer[ix..][..n] == acc + buffer[..ix + n]
      ensures all[ix..][n..] == all[ix + n..]
    {
    }

    method Turn(rest: seq<byte>) returns (n: nat)
      requires Valid() && streamer.Valid() && Active() && 0 < |rest| <= |streamer.Rx()|
      modifies this, streamer.Footprint()
      ensures Valid() && streamer.Valid() && phase != IDLE && 0 < n <= |rest|
      ensures phase != END ==> Acc() == old(Acc()) + rest[..n]
      ensures phase == END ==> Enc(order, msg) == old(Acc()) + rest[..n]
      ensures streamer.Tx() == old(streamer.Tx()) && streamer.com.Outgoing() == old(streamer.com.Outgoing())
      ensures |streamer.com.Incoming()| <= |old(streamer.com.Incoming())|
      ensures |streamer.Rx()| >= |old(streamer.Rx())| - n
      ensures streamer.Rx() + streamer.com.Incoming() == (old(streamer.Rx()) + old(streamer.com.Incoming()))[n..]
    {
      n := Step(rest);
      Take(n);
    }

    /** Consuming bytes that the ring holds; the fetch that comes with it only moves bytes
        from the link to the ring. */
    method Take(n: nat)
      requires streamer.Valid() && 0 < n <= |streamer.Rx()|
      modifies streamer.Footprint()
      ensures streamer.Valid()
      ensures streamer.Tx() == old(streamer.Tx()) && streamer.com.Outgoing() == old(streamer.com.Outgoing())
      ensures |streamer.com.Incoming()| <= |old(streamer.com.Incoming())|
      ensures |streamer.Rx()| >= |old(streamer.Rx())| - n
      ensures streamer.Rx() + streamer.com.Incoming() == (old(streamer.Rx()) + old(streamer.com.Incoming()))[n..]
    {
      ghost var rx, link := streamer.Rx(), streamer.com.Incoming();
      var m := streamer.ConsumeRead(n);
      FilledTwice(rx, link);
      SliceConcat(Filled(rx, link), Unfetched(rx, link), n);
    }

    method StepId(rest: seq<byte>) returns (n: nat)
      requires Valid() && phase == ID && rest != []
      modifies this
      ensures Valid() && phase in {ID, NAME} && 0 < n <= |rest|
      ensures Acc() == old(Acc()) + rest[..n]
    {
      if |rest| + |v| >= 2 {
        n := 2 - |v|;
        v := v + rest[..n];
        msg := msg.(id := FromMemory(order, v));
        phase := NAME;
        MemoryOfFrom(order, v);
        Pow256Values();
        v := [];
      } else {
        n := |rest|;
        v := v + rest;
      }
    }

    method StepName(rest: seq<byte>) returns (n: nat)
      requires Valid() && phase == NAME && rest != []
      modifies this
      ensures Valid() && phase in {NAME, SIZE} && 0 < n <= |rest|
      ensures Acc() == old(Acc()) + rest[..n]
    {
      var i := 0;
      n := |rest|;
      while i < |rest|
        invariant 0 <= i <= |rest| && n == |rest|
        invariant phase == NAME && unchanged(this) && 0 !in rest[..i]
      {
        if rest[i] == 0 {
          CStringUpTo(rest, i);
          s := s + CString(rest);
          msg := msg.(name := s);
          phase := SIZE;
          n := i + 1;
          break;
        }
        i := i + 1;
      }
      if phase == NAME {
        NulAtNone(rest);
        s := s + CString(rest);
      }
    }

    method StepSize(rest: seq<byte>) returns (n: nat)
      requires Valid() && phase == SIZE && rest != []
      modifies this
      ensures Valid() && phase != IDLE && 0 < n <= |rest|
      ensures phase != END ==> Acc() == old(Acc()) + rest[..n]
      ensures phase == END ==> Enc(order, msg) == old(Acc()) + rest[..n]
    {
      ghost var head, v0 := Header(order, msg.id, msg.name), v;
      if |rest| + |v| >= 8 {
        n := 8 - |v|;
        v := v + rest[..n];
        ConcatAssoc(head, v0, rest[..n]);
        size := FromMemory(order, v);
        SizeField(order, v);
        msg := msg.(value := []);
        if size > 0 {
          phase := ARGS_VALUE;
          assert Acc() == head + v + [];
        } else {
          phase := END;
          assert Enc(order, msg) == head + v + [];
        }
      } else {
        n := |rest|;
        v := v + rest;
      }
    }

    method StepArgs(rest: seq<byte>) returns (n: nat)
      requires Valid() && phase == ARGS_VALUE && rest != []
      modifies this
      ensures Valid() && phase != IDLE && 0 < n <= |rest|
      ensures phase != END ==> Acc() == old(Acc()) + rest[..n]
      ensures phase == END ==> Enc(order, msg) == old(Acc()) + rest[..n]
    {
      ghost var head, val := Header(order, msg.id, msg.name) + Memory(order, size, 8), msg.value;
      if |rest| + |msg.value| >= size {
        n := size - |msg.value|;
        msg := msg.(value := msg.value + rest[..n]);
        phase := END;
        ConcatAssoc(head, val, rest[..n]);
        assert Enc(order, msg) == head + msg.value;
      } else {
        n := |rest|;
        msg := msg.(value := msg.value + rest);
        ConcatAssoc(head, val, rest);
        assert rest[..n] == rest;
      }
    }
  }

  lemma NoTerminator(o: Endian, id: nat, s: seq<byte>)
    requires 0 !in s
    ensures Parse(o, Memory(o, id, 2) + s) == None
  {
    assert (Memory(o, id, 2) + s)[2..] == s;
    NulAtNone(s);
  }

  lemma NoSize(o: Endian, id: nat, name: Key, v: seq<byte>)
    requires 0 !in name && |v| < 8
    ensures Parse(o, Header(o, id, name) + v) == None
  {
    assert (Header(o, id, name) + v)[2..] == name + [0] + v;
    NulAtUnique(name, v);
  }

  lemma NoValue(o: Endian, id: nat, name: Key, size: nat, value: seq<byte>)
    requires 0 !in name && |value| < size < TWO64
    ensures Parse(o, Header(o, id, name) + Memory(o, size, 8) + value) == None
  {
    var acc, k := Header(o, id, name) + Memory(o, size, 8) + value, |name|;
    assert acc[2..] == name + [0] + (Memory(o, size, 8) + value);
    NulAtUnique(name, Memory(o, size, 8) + value);
    assert acc[k + 3..k + 11] == Memory(o, size, 8);
    Pow256Values();
    MemoryRoundTrip(o, size, 8);
  }

  lemma SizeField(o: Endian, v: seq<byte>)
    requires |v| == 8
    ensures FromMemory(o, v) < TWO64 && Memory(o, FromMemory(o, v), 8) == v
  {
    MemoryOfFrom(o, v);
    Pow256Values();
  }

  lemma NulAtNone(s: seq<byte>)
    requires 0 !in s
    ensures NulAt(s) == |s|
  {
  }

  lemma CStringUpTo(s: seq<byte>, i: nat)
    requires i < |s| && s[i] == 0 && 0 !in s[..i]
    ensures CString(s) == s[..i]
  {
    assert s == s[..i] + [0] + s[i + 1..];
    NulAtUnique(s[..i], s[i + 1..]);
  }
}
