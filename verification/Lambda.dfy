/** The server's dispatch lambda as it runs: arguments are read with a cursor, strings and
    blobs are allocated on the heap, the function is called on references to them, results
    are written back and what was allocated is deleted. */
module Lambda {
  import opened Bytes
  import opened ByteOrder
  import opened ParamTypes
  import opened PrototypeModule
  import opened Marshaller

  /** The strings and blobs created with `new` and not yet deleted. */
  class CharHeap {
    var cells: map<nat, seq<byte>>
    var next: nat

    ghost predicate Valid()
      reads this
    {
      forall p :: p in cells ==> p < next
    }

    constructor ()
      ensures Valid() && cells == map[]
    {
      cells, next := map[], 0;
    }

    method New(s: seq<byte>) returns (p: nat)
      requires Valid()
      modifies this
      ensures Valid() && p !in old(cells) && cells == old(cells)[p := s]
    {
      p := next;
      cells := cells[p := s];
      next := next + 1;
    }

    /** Only a pointer to a live object may be deleted. */
    method Delete(p: nat)
      requires Valid() && p in cells
      modifies this
      ensures Valid() && cells == old(cells) - {p}
    {
      cells := cells - {p};
    }
  }

  /** The union that holds an argument: a number, or a pointer. */
  datatype AnyArg = Bits(n: nat) | Ptr(cell: nat)

  function ValueOf(a: AnyArg, cells: map<nat, seq<byte>>): Value {
    match a
    case Bits(n) => Num(n)
    case Ptr(p) => Text(if p in cells then cells[p] else [])
  }

  function ValuesOf(vec: seq<AnyArg>, cells: map<nat, seq<byte>>): (r: seq<Value>)
    ensures |r| == |vec|
    ensures forall i :: 0 <= i < |vec| ==> r[i] == ValueOf(vec[i], cells)
  {
    seq(|vec|, i requires 0 <= i < |vec| => ValueOf(vec[i], cells))
  }

  /** The pointers of `vec` from position i on: distinct, and the only live objects besides
      those of `base`, which are as they were. */
  ghost predicate Owns(vec: seq<AnyArg>, i: nat, base: map<nat, seq<byte>>, cells: map<nat, seq<byte>>) {
    && (forall p :: p in base ==> p in cells && cells[p] == base[p])
    && (forall p :: p in cells && p !in base ==> exists j :: i <= j < |vec| && vec[j] == Ptr(p))
    && (forall j :: i <= j < |vec| && vec[j].Ptr? ==> vec[j].cell in cells && vec[j].cell !in base)
    && (forall j, k :: i <= j < k < |vec| && vec[j].Ptr? ==> vec[j] != vec[k])
  }

  predicate Shaped(format: seq<InId>, vec: seq<AnyArg>) {
    |vec| <= |format| && forall i :: 0 <= i < |vec| ==> (vec[i].Ptr? <==> InKind(format[i]) == Some(Counted))
  }

  lemma OwnsNew(vec: seq<AnyArg>, base: map<nat, seq<byte>>, cells: map<nat, seq<byte>>, p: nat, s: seq<byte>)
    requires Owns(vec, 0, base, cells) && p !in cells
    ensures Owns(vec + [Ptr(p)], 0, base, cells[p := s])
    ensures ValuesOf(vec + [Ptr(p)], cells[p := s]) == ValuesOf(vec, cells) + [Text(s)]
  {
    var vec', cells' := vec + [Ptr(p)], cells[p := s];
    forall q | q in cells' && q !in base ensures exists j :: 0 <= j < |vec'| && vec'[j] == Ptr(q) {
      if q == p {
        assert vec'[|vec|] == Ptr(q);
      } else {
        var j :| 0 <= j < |vec| && vec[j] == Ptr(q);
        assert vec'[j] == Ptr(q);
      }
    }
  }

  lemma OwnsBits(vec: seq<AnyArg>, base: map<nat, seq<byte>>, cells: map<nat, seq<byte>>, n: nat)
    requires Owns(vec, 0, base, cells)
    ensures Owns(vec + [Bits(n)], 0, base, cells)
    ensures ValuesOf(vec + [Bits(n)], cells) == ValuesOf(vec, cells) + [Num(n)]
  {
    var vec' := vec + [Bits(n)];
    forall q | q in cells && q !in base ensures exists j :: 0 <= j < |vec'| && vec'[j] == Ptr(q) {
      var j :| 0 <= j < |vec| && vec[j] == Ptr(q);
      assert vec'[j] == Ptr(q);
    }
  }

  /** One argument: the value at the cursor, and how far the cursor moves. */
  method ReadArg(e: End, id: InId, data: seq<byte>, ix: nat, heap: CharHeap, vec: seq<AnyArg>, ghost base: map<nat, seq<byte>>)
    returns (val: AnyArg, n: nat)
    requires heap.Valid() && ix <= |data| && Owns(vec, 0, base, heap.cells)
    requires InKind(id).Some? ==> DecodeValue(e, InKind(id).value, data[ix..]).Some?
    modifies heap
    ensures heap.Valid() && Owns(vec + [val], 0, base, heap.cells)
    ensures val.Ptr? <==> InKind(id) == Some(Counted)
    ensures ix + n <= |data|
    ensures match InKind(id)
            case None => n == 0 && ValuesOf(vec + [val], heap.cells) == old(ValuesOf(vec, heap.cells)) + [Num(0)]
            case Some(k) =>
              var (v, m) := DecodeValue(e, k, data[ix..]).value;
              n == m && ValuesOf(vec + [val], heap.cells) == old(ValuesOf(vec, heap.cells)) + [v]
  {
    hide Owns, ValueOf, InKind;
    match InKind(id) {
      case None =>
        val, n := Bits(0), 0;
        OwnsBits(vec, base, heap.cells, 0);
      case Some(Number(w)) =>
        var bits := DecodeNum(e, data[ix..ix + w]);
        assert data[ix..][..w] == data[ix..ix + w];
        val, n := Bits(bits), w;
        OwnsBits(vec, base, heap.cells, bits);
      case Some(Counted) =>
        var length := DecodeNum(e, data[ix..ix + 2]);
        assert data[ix..][..2] == data[ix..ix + 2];
        var s := data[ix + 2..ix + 2 + length];
        assert data[ix..][2..2 + length] == s;
        ghost var cells := heap.cells;
        var p := heap.New(s);
        val, n := Ptr(p), 2 + length;
        OwnsNew(vec, base, cells, p, s);
    }
  }

  /** `deserialize_in_args`: the argument list of a request whose bytes it holds. */
  method DeserializeInArgs(e: End, format: seq<InId>, data: seq<byte>, heap: CharHeap) returns (vec: seq<AnyArg>)
    requires heap.Valid() && DecodeArgs(e, format, data).Some?
    modifies heap
    ensures heap.Valid() && Owns(vec, 0, old(heap.cells), heap.cells)
    ensures |vec| == |format| && Shaped(format, vec)
    ensures ValuesOf(vec, heap.cells) == DecodeArgs(e, format, data).value.0
  {
    hide Owns, DecodeArgs, DecodeValue, InKind;
    vec := [];
    var ix, i := 0, 0;
    OwnsAtStart(heap.cells);
    ghost var all := DecodeArgs(e, format, data).value.0;
    assert format[0..] == format && data[0..] == data;
    while i < |format|
      invariant 0 <= i <= |format| && |vec| == i && 0 <= ix <= |data|
      invariant heap.Valid() && Owns(vec, 0, old(heap.cells), heap.cells) && Shaped(format, vec)
      invariant DecodeArgs(e, format[i..], data[ix..]).Some?
      invariant all == ValuesOf(vec, heap.cells) + DecodeArgs(e, format[i..], data[ix..]).value.0
    {
      ghost var vs := ValuesOf(vec, heap.cells);
      NextArg(e, format, i, data, ix);
      var val, n := ReadArg(e, format[i], data, ix, heap, vec, old(heap.cells));
      vec := vec + [val];
      ix := ix + n;
      i := i + 1;
    }
    NoArgs(e, data[ix..]);
    assert format[i..] == [];
    assert ValuesOf(vec, heap.cells) + [] == ValuesOf(vec, heap.cells);
  }

  lemma NoArgs(e: End, data: seq<byte>)
    ensures DecodeArgs(e, [], data) == Some(([], 0))
  {
  }

  lemma OwnsAtStart(cells: map<nat, seq<byte>>)
    ensures Owns([], 0, cells, cells)
  {
  }

  /** The decoder reads the list from the front. */
  lemma NextArg(e: End, format: seq<InId>, i: nat, data: seq<byte>, ix: nat)
    requires i < |format| && ix <= |data| && DecodeArgs(e, format[i..], data[ix..]).Some?
    ensures match InKind(format[i])
            case None =>
              && DecodeArgs(e, format[i + 1..], data[ix..]).Some?
              && DecodeArgs(e, format[i..], data[ix..]).value.0 ==
                 [Num(0)] + DecodeArgs(e, format[i + 1..], data[ix..]).value.0
            case Some(k) =>
              && DecodeValue(e, k, data[ix..]).Some?
              && var (v, n) := DecodeValue(e, k, data[ix..]).value;
                 && ix + n <= |data| && DecodeArgs(e, format[i + 1..], data[ix + n..]).Some?
                 && DecodeArgs(e, format[i..], data[ix..]).value.0 ==
                    [v] + DecodeArgs(e, format[i + 1..], data[ix + n..]).value.0
  {
    hide DecodeValue, InKind;
    assert format[i..][0] == format[i] && format[i..][1..] == format[i + 1..];
    match InKind(format[i]) {
      case None =>
      case Some(k) =>
        var (v, n) := DecodeValue(e, k, data[ix..]).value;
        assert data[ix..][n..] == data[ix + n..];
    }
  }

  // The call.

  /** The value that a parameter holds after the call: only what is passed by reference to
      non-const changes for the caller. */
  function After(params: seq<Param>, before: seq<Value>, final: seq<Value>): (r: seq<Value>)
    requires |params| == |before| == |final|
    ensures |r| == |params|
    ensures forall i :: 0 <= i < |params| ==> r[i] == if Returned(params[i]) then final[i] else before[i]
  {
    seq(|params|, i requires 0 <= i < |params| => if Returned(params[i]) then final[i] else before[i])
  }

  lemma OwnsUpdate(vec: seq<AnyArg>, base: map<nat, seq<byte>>, cells: map<nat, seq<byte>>, i: nat, s: seq<byte>)
    requires Owns(vec, 0, base, cells) && i < |vec| && vec[i].Ptr?
    ensures vec[i].cell in cells && Owns(vec, 0, base, cells[vec[i].cell := s])
    ensures ValuesOf(vec, cells[vec[i].cell := s]) == ValuesOf(vec, cells)[i := Text(s)]
  {
  }

  lemma OwnsReplace(vec: seq<AnyArg>, base: map<nat, seq<byte>>, cells: map<nat, seq<byte>>, i: nat, n: nat)
    requires Owns(vec, 0, base, cells) && i < |vec| && vec[i].Bits?
    ensures Owns(vec[i := Bits(n)], 0, base, cells)
    ensures ValuesOf(vec[i := Bits(n)], cells) == ValuesOf(vec, cells)[i := Num(n)]
  {
    var vec' := vec[i := Bits(n)];
    forall q | q in cells && q !in base ensures exists j :: 0 <= j < |vec'| && vec'[j] == Ptr(q) {
      var j :| 0 <= j < |vec| && vec[j] == Ptr(q);
      assert vec'[j] == Ptr(q);
    }
  }

  /** The function gets the arguments by value or by reference; references are to the
      entries of the vector and to the objects they point to. */
  method CallWithArgs<W(!new)>(p: Prototype, f: Impl<W>, w: W, args: seq<AnyArg>, heap: CharHeap, ghost base: map<nat, seq<byte>>)
    returns (w': W, ret: nat, vec: seq<AnyArg>)
    requires heap.Valid() && Owns(args, 0, base, heap.cells)
    requires Shaped(InFormat(p.params), args) && Typed(p, f) && FitAll(p.params, ValuesOf(args, heap.cells))
    modifies heap
    ensures heap.Valid() && Owns(vec, 0, base, heap.cells) && |vec| == |args| && Shaped(InFormat(p.params), vec)
    ensures var out := f(w, old(ValuesOf(args, heap.cells)));
            && w' == out.world && ret == out.ret && FitAll(p.params, out.args)
            && ValuesOf(vec, heap.cells) == After(p.params, old(ValuesOf(args, heap.cells)), out.args)
  {
    var vals := ValuesOf(args, heap.cells);
    var out := f(w, vals);
    w', ret := out.world, out.ret;
    assert FitAll(p.params, out.args);
    vec := WriteBack(p.params, args, out.args, heap, base);
  }

  method WriteBack(params: seq<Param>, args: seq<AnyArg>, final: seq<Value>, heap: CharHeap, ghost base: map<nat, seq<byte>>)
    returns (vec: seq<AnyArg>)
    requires heap.Valid() && Owns(args, 0, base, heap.cells) && Shaped(InFormat(params), args)
    requires FitAll(params, ValuesOf(args, heap.cells)) && FitAll(params, final)
    modifies heap
    ensures heap.Valid() && Owns(vec, 0, base, heap.cells) && |vec| == |args| && Shaped(InFormat(params), vec)
    ensures ValuesOf(vec, heap.cells) == After(params, old(ValuesOf(args, heap.cells)), final)
  {
    vec := args;
    ghost var vals := ValuesOf(args, heap.cells);
    ShapedAsParams(params, args, vals);
    hide Owns, InFormat, InKind, KindOf, ValueOf, ValuesOf, Returned;
    var i := 0;
    while i < |params|
      invariant 0 <= i <= |params| == |vec|
      invariant heap.Valid() && Owns(vec, 0, base, heap.cells)
      invariant forall j :: 0 <= j < |vec| ==> (vec[j].Ptr? <==> args[j].Ptr?)
      invariant forall j :: 0 <= j < |vec| ==>
                  ValuesOf(vec, heap.cells)[j] == if j < i && Returned(params[j]) then final[j] else vals[j]
    {
      if Returned(params[i]) {
        assert Fits(final[i], KindOf(params[i]));
        vec := StoreArg(vec, i, final[i], heap, base);
      }
      i := i + 1;
    }
  }

  method StoreArg(args: seq<AnyArg>, i: nat, v: Value, heap: CharHeap, ghost base: map<nat, seq<byte>>)
    returns (vec: seq<AnyArg>)
    requires heap.Valid() && Owns(args, 0, base, heap.cells) && i < |args| && (args[i].Ptr? <==> v.Text?)
    modifies heap
    ensures heap.Valid() && Owns(vec, 0, base, heap.cells) && |vec| == |args|
    ensures forall j :: 0 <= j < |vec| ==> (vec[j].Ptr? <==> args[j].Ptr?)
    ensures ValuesOf(vec, heap.cells) == old(ValuesOf(args, heap.cells))[i := v]
  {
    match args[i] {
      case Bits(_) =>
        OwnsReplace(args, base, heap.cells, i, v.bits);
        vec := args[i := Bits(v.bits)];
      case Ptr(q) =>
        OwnsUpdate(args, base, heap.cells, i, v.chars);
        heap.cells := heap.cells[q := v.chars];
        vec := args;
    }
  }

  lemma ShapedAsParams(params: seq<Param>, vec: seq<AnyArg>, vals: seq<Value>)
    requires Shaped(InFormat(params), vec) && |vec| == |params| && FitAll(params, vals)
    ensures forall j :: 0 <= j < |vec| ==> (vec[j].Ptr? <==> KindOf(params[j]).Counted?)
  {
    FormatFits(params, vals);
    forall j | 0 <= j < |vec| ensures InKind(InIdOf(params[j])) == Some(KindOf(params[j])) {
      TablesAgree(params[j]);
    }
  }

  // The results.

  lemma OwnsDelete(vec: seq<AnyArg>, i: nat, base: map<nat, seq<byte>>, cells: map<nat, seq<byte>>)
    requires Owns(vec, i, base, cells) && i < |vec|
    ensures vec[i].Ptr? ==> vec[i].cell in cells && Owns(vec, i + 1, base, cells - {vec[i].cell})
    ensures vec[i].Ptr? ==> forall j :: i < j < |vec| ==> ValueOf(vec[j], cells - {vec[i].cell}) == ValueOf(vec[j], cells)
    ensures vec[i].Bits? ==> Owns(vec, i + 1, base, cells)
  {
  }

  lemma OwnsNothing(vec: seq<AnyArg>, base: map<nat, seq<byte>>, cells: map<nat, seq<byte>>)
    requires Owns(vec, |vec|, base, cells)
    ensures cells == base
  {
    assert cells.Keys == base.Keys;
  }

  /** `serialize_out_args`: appends the `_REF` arguments and deletes every string and blob,
      each after its last use; nothing that was allocated for the call stays alive. */
  method SerializeOutArgs(e: End, format: seq<InId>, vec: seq<AnyArg>, buffer: seq<byte>, heap: CharHeap, ghost base: map<nat, seq<byte>>)
    returns (s: seq<byte>)
    requires heap.Valid() && Owns(vec, 0, base, heap.cells) && |vec| == |format| && Shaped(format, vec)
    requires FitFormat(format, ValuesOf(vec, heap.cells))
    modifies heap
    ensures heap.Valid() && heap.cells == base
    ensures s == buffer + old(EncodeOuts(e, format, ValuesOf(vec, heap.cells)))
  {
    hide Owns, EncodeOuts, EncodeValue, FitFormat;
    s := buffer;
    var i := 0;
    ghost var vals := ValuesOf(vec, heap.cells);
    assert format[0..] == format && vals[0..] == vals;
    while i < |format|
      invariant 0 <= i <= |format|
      invariant heap.Valid() && Owns(vec, i, base, heap.cells)
      invariant forall j :: i <= j < |vec| ==> ValueOf(vec[j], heap.cells) == vals[j]
      invariant FitFormat(format[i..], vals[i..])
      invariant s + EncodeOuts(e, format[i..], vals[i..]) == buffer + EncodeOuts(e, format, vals)
    {
      ghost var s0 := s;
      OutsFront(e, format, vals, i);
      OwnsDelete(vec, i, base, heap.cells);
      if WritesBack(format[i]) {
        s := s + EncodeValue(e, InKind(format[i]).value, ValueOf(vec[i], heap.cells));
      }
      ConcatAssoc(s0, if WritesBack(format[i]) then EncodeValue(e, InKind(format[i]).value, vals[i]) else [],
                  EncodeOuts(e, format[i + 1..], vals[i + 1..]));
      if InKind(format[i]) == Some(Counted) {
        heap.Delete(vec[i].cell);
      }
      i := i + 1;
    }
    NoOuts(e);
    assert format[i..] == [] && vals[i..] == [] && s + [] == s;
    OwnsNothing(vec, base, heap.cells);
  }

  lemma NoOuts(e: End)
    ensures EncodeOuts(e, [], []) == []
  {
  }

  lemma OutsFront(e: End, format: seq<InId>, vals: seq<Value>, i: nat)
    requires |vals| == |format| && i < |format| && FitFormat(format[i..], vals[i..])
    ensures FitFormat(format[i + 1..], vals[i + 1..])
    ensures InKind(format[i]).Some? && Fits(vals[i], InKind(format[i]).value)
    ensures EncodeOuts(e, format[i..], vals[i..]) ==
            (if WritesBack(format[i]) then EncodeValue(e, InKind(format[i]).value, vals[i]) else [])
            + EncodeOuts(e, format[i + 1..], vals[i + 1..])
  {
    hide EncodeValue, InKind, WritesBack;
    assert format[i..][0] == format[i] && vals[i..][0] == vals[i];
    assert format[i..][1..] == format[i + 1..] && vals[i..][1..] == vals[i + 1..];
  }

  /** Only what the reply carries matters for the reply. */
  lemma {:induction false} OutsDependOnRefs(e: End, format: seq<InId>, a: seq<Value>, b: seq<Value>)
    requires FitFormat(format, a) && FitFormat(format, b)
    requires forall i :: 0 <= i < |format| && WritesBack(format[i]) ==> a[i] == b[i]
    ensures EncodeOuts(e, format, a) == EncodeOuts(e, format, b)
  {
    hide EncodeValue, InKind;
    if format != [] {
      OutsDependOnRefs(e, format[1..], a[1..], b[1..]);
    }
  }

  /** The lambda that `connect` registers: it performs the call of the specification and
      leaves the heap as it found it. */
  method Invoke<W(!new)>(e: End, p: Prototype, f: Impl<W>, w: W, data: seq<byte>, heap: CharHeap)
    returns (w': W, reply: seq<byte>)
    requires heap.Valid() && Connectable(p) && Typed(p, f) && DecodeArgs(e, InFormat(p.params), data).Some?
    modifies heap
    ensures heap.Valid() && heap.cells == old(heap.cells)
    ensures Perform(e, p, f, w, data) == Some((w', reply))
  {
    var format := InFormat(p.params);
    ghost var base := heap.cells;
    var args := DeserializeInArgs(e, format, data, heap);
    DecodedFits(e, p.params, data);
    ghost var vals := ValuesOf(args, heap.cells);
    var vec, ret;
    w', ret, vec := CallWithArgs(p, f, w, args, heap, base);
    ghost var out := f(w, vals);
    RefsInFormat(p.params, vals, out.args);
    var r := EncodeNum(e, ret, RetSize(RetIdOf(p.ret)));
    reply := SerializeOutArgs(e, format, vec, r, heap, base);
    OutsDependOnRefs(e, format, After(p.params, vals, out.args), out.args);
  }

  /** Whatever is read for a type is a value of that type. */
  lemma {:induction false} DecodedFits(e: End, params: seq<Param>, data: seq<byte>)
    requires DecodeArgs(e, InFormat(params), data).Some?
    ensures FitAll(params, DecodeArgs(e, InFormat(params), data).value.0)
  {
    if params != [] {
      var k := KindOf(params[0]);
      TablesAgree(params[0]);
      assert InFormat(params)[0] == InIdOf(params[0]) && InFormat(params)[1..] == InFormat(params[1..]);
      var (v, n) := DecodeValue(e, k, data).value;
      ValueFits(e, k, data);
      hide KindOf, InKind, InIdOf, DecodeValue, Fits;
      DecodedFits(e, params[1..], data[n..]);
    }
  }

  lemma ValueFits(e: End, k: Kind, data: seq<byte>)
    requires DecodeValue(e, k, data).Some?
    ensures Fits(DecodeValue(e, k, data).value.0, k)
  {
    if k.Number? {
      var s := data[..k.width];
      DecodedMemory(e, s);
      FromLEBound(s);
      FromLEBound(Reverse(s));
    }
  }

  lemma RefsInFormat(params: seq<Param>, before: seq<Value>, final: seq<Value>)
    requires FitAll(params, before) && FitAll(params, final)
    ensures FitFormat(InFormat(params), final) && FitFormat(InFormat(params), After(params, before, final))
    ensures forall i :: 0 <= i < |params| && WritesBack(InFormat(params)[i]) ==> After(params, before, final)[i] == final[i]
  {
    FormatFits(params, final);
    FormatFits(params, After(params, before, final));
    forall i | 0 <= i < |params| && WritesBack(InFormat(params)[i]) ensures Returned(params[i]) {
      SelectionsAgree(params[i]);
    }
  }
}
