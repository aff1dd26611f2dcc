/** The bytes of one call and its reply, written out: `int f(int&, const std::string&)`. */
module Layout {
  import opened Bytes
  import opened Frame
  import opened ByteOrder
  import opened ParamTypes
  import opened PrototypeModule
  import opened Marshaller

  const F: Prototype := Prototype(RInt, "f", [IntRef, ConstStringRef])

  lemma IdOfF()
    ensures KeyOf(F) == Ascii("int f int& conststring&")
  {
    assert F.params[1..] == [ConstStringRef];
    assert Stringify(F.params) == "int&" + " " + "conststring&";
    assert Id(F) == "int" + " " + "f" + " " + "int& conststring&";
    assert Id(F) == "int f int& conststring&";
  }

  lemma Four(n: nat, a: byte, b: byte, c: byte, d: byte)
    requires n == a + 256 * b + 0x1_0000 * c + 0x100_0000 * d
    ensures LE(n, 4) == [a, b, c, d] && Reverse(LE(n, 4)) == [d, c, b, a]
  {
    assert n % 256 == a && n / 256 == b + 256 * c + 0x1_0000 * d;
    assert n / 256 % 256 == b && n / 256 / 256 == c + 256 * d;
    assert n / 256 / 256 % 256 == c && n / 256 / 256 / 256 == d;
    assert LE(d, 1) == [d] + LE(0, 0);
    assert LE(c + 256 * d, 2) == [c] + LE(d, 1);
    assert LE(n / 256, 3) == [b] + LE(c + 256 * d, 2);
    assert LE(n, 4) == [a] + LE(n / 256, 3);
    ReverseFour(a, b, c, d);
  }

  lemma ReverseFour(a: byte, b: byte, c: byte, d: byte)
    ensures Reverse([a, b, c, d]) == [d, c, b, a]
  {
    assert [a, b, c, d][1..] == [b, c, d] && [b, c, d][1..] == [c, d] && [c, d][1..] == [d] && [d][1..] == [];
    assert Reverse([d]) == [d];
    assert Reverse([c, d]) == [d, c];
    assert Reverse([b, c, d]) == [d, c, b];
  }

  lemma Two(n: nat)
    requires n < 256
    ensures LE(n, 2) == [n, 0] && Reverse(LE(n, 2)) == [0, n]
  {
    assert LE(0, 1) == [0] + LE(0, 0);
    assert LE(n, 2) == [n] + LE(0, 1);
    assert [n, 0][1..] == [0] && [0][1..] == [];
    assert Reverse([0]) == [0];
    assert Reverse([n, 0]) == Reverse([0]) + [n];
  }

  lemma Eight()
    ensures LE(8, 8) == [8, 0, 0, 0, 0, 0, 0, 0]
  {
    ZeroBytes(7);
    assert LE(8, 8) == [8] + LE(0, 7);
  }

  /** The arguments 1 and "ab": a host that swaps sends the numbers in the reverse order of its
      memory, and the bytes of the string as they are. */
  lemma ArgumentBytes(e: End)
    ensures var params, vals := F.params, [Num(1), Text([97, 98])];
            && FitAll(params, vals)
            && EncodeArgs(e, params, vals) ==
               if (e.order == LITTLE) == e.swapOut then [0, 0, 0, 1, 0, 2, 97, 98] else [1, 0, 0, 0, 2, 0, 97, 98]
  {
    hide EncodeNum, LE, Reverse, EncodeArgs, FitAll;
    Four(1, 1, 0, 0, 0);
    Two(2);
    EncodedMemory(e, 1, 4);
    EncodedMemory(e, 2, 2);
    ArgumentParts(e);
  }

  lemma ArgumentParts(e: End)
    ensures FitAll(F.params, [Num(1), Text([97, 98])])
    ensures EncodeArgs(e, F.params, [Num(1), Text([97, 98])]) == EncodeNum(e, 1, 4) + (EncodeNum(e, 2, 2) + [97, 98])
  {
    var params, vals := F.params, [Num(1), Text([97, 98])];
    assert params[1..] == [ConstStringRef] && vals[1..] == [Text([97, 98])];
    Pow256Values();
    assert FitAll(params, vals) && FitAll(params[1..], vals[1..]);
    hide EncodeNum;
    StringPart(e);
    assert EncodeArgs(e, params, vals) == EncodeNum(e, 1, 4) + EncodeArgs(e, params[1..], vals[1..]);
  }

  lemma StringPart(e: End)
    ensures FitAll([ConstStringRef], [Text([97, 98])])
    ensures EncodeArgs(e, [ConstStringRef], [Text([97, 98])]) == EncodeNum(e, 2, 2) + [97, 98]
  {
    hide EncodeNum;
    var v := Text([97, 98]);
    assert [97, 98][..2] == [97, 98];
    assert EncodeValue(e, Counted, v) == EncodeNum(e, 2, 2) + [97, 98];
    assert [ConstStringRef][1..] == [] && [v][1..] == [];
    assert EncodeArgs(e, [], []) == [];
    assert EncodeArgs(e, [ConstStringRef], [v]) == EncodeValue(e, Counted, v) + EncodeArgs(e, [], []);
  }

  /** The frame of the first call on a little-endian host: number, name, NUL, size, arguments. */
  lemma RequestFrame(e: End)
    requires e.order == LITTLE
    ensures FitAll(F.params, [Num(1), Text([97, 98])])
    ensures Enc(LITTLE, Message(1, KeyOf(F), EncodeArgs(e, F.params, [Num(1), Text([97, 98])]))) ==
            [1, 0] + Ascii("int f int& conststring&") + [0] + [8, 0, 0, 0, 0, 0, 0, 0] +
            if e.swapOut then [0, 0, 0, 1, 0, 2, 97, 98] else [1, 0, 0, 0, 2, 0, 97, 98]
  {
    ArgumentBytes(e);
    IdOfF();
    Two(1);
    Eight();
    hide EncodeArgs, KeyOf, LE;
  }

  /** The reply to it, when f returns 70000 and leaves 258 in its reference: the returned value,
      then the result. */
  lemma ReplyBytes(e: End)
    ensures var vals := [Num(258), Text([97, 98])];
            && FitFormat(InFormat(F.params), vals)
            && EncodeReply(e, RetIdOf(F.ret), 70000, InFormat(F.params), vals) ==
               if (e.order == LITTLE) == e.swapOut then [0, 1, 17, 112, 0, 0, 1, 2] else [112, 17, 1, 0, 2, 1, 0, 0]
  {
    hide EncodeNum, LE, Reverse, EncodeReply, FitFormat, InFormat;
    Four(70000, 112, 17, 1, 0);
    Four(258, 2, 1, 0, 0);
    EncodedMemory(e, 70000, 4);
    EncodedMemory(e, 258, 4);
    ReplyIs(e);
  }

  lemma ReplyIs(e: End)
    ensures FitFormat(InFormat(F.params), [Num(258), Text([97, 98])])
    ensures EncodeReply(e, RetIdOf(F.ret), 70000, InFormat(F.params), [Num(258), Text([97, 98])]) == EncodeNum(e, 70000, 4) + EncodeNum(e, 258, 4)
  {
    hide EncodeNum, EncodeOuts, FitFormat, InFormat;
    ReplyParts(e);
  }

  lemma ReplyParts(e: End)
    ensures FitFormat(InFormat(F.params), [Num(258), Text([97, 98])])
    ensures EncodeOuts(e, InFormat(F.params), [Num(258), Text([97, 98])]) == EncodeNum(e, 258, 4)
  {
    var params, vals := F.params, [Num(258), Text([97, 98])];
    Pow256Values();
    assert FitAll(params, vals);
    FormatFits(params, vals);
    FormatOfF();
    hide EncodeNum, InFormat, FitAll;
    var format := [INT_REF, CONST_STRING_REF];
    assert format[1..] == [CONST_STRING_REF] && vals[1..] == [Text([97, 98])];
    NoOut(e);
    assert EncodeOuts(e, format, vals) == EncodeNum(e, 258, 4) + EncodeOuts(e, format[1..], vals[1..]);
    assert EncodeNum(e, 258, 4) + [] == EncodeNum(e, 258, 4);
  }

  lemma FormatOfF()
    ensures InFormat(F.params) == [INT_REF, CONST_STRING_REF]
  {
    assert F.params[1..] == [ConstStringRef] && [ConstStringRef][1..] == [];
    assert InFormat([]) == [];
    assert InFormat([ConstStringRef]) == [CONST_STRING_REF] + InFormat([]);
  }

  lemma NoOut(e: End)
    ensures FitFormat([CONST_STRING_REF], [Text([97, 98])]) && EncodeOuts(e, [CONST_STRING_REF], [Text([97, 98])]) == []
  {
    assert [CONST_STRING_REF][1..] == [] && [Text([97, 98])][1..] == [];
    assert EncodeOuts(e, [], []) == [];
  }
}
