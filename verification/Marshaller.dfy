/** Typed argument lists as bytes and back, on both sides of a call. */
module Marshaller {
  import opened Bytes
  import opened ByteOrder
  import opened ParamTypes
  import opened PrototypeModule

  /** A number by its bit pattern (floats included), or the content of a string or blob. */
  datatype Value = Num(bits: nat) | Text(chars: seq<byte>)

  type Addr = nat
  type Store = map<Addr, Value>

  /** An argument of a call: a temporary, or a variable of the caller. */
  datatype Actual = Temporary(value: Value) | Variable(addr: Addr)

  predicate Fits(v: Value, k: Kind) {
    match k
    case Number(w) => v.Num? && v.bits < Pow256(w)
    case Counted => v.Text?
  }

  predicate FitAll(params: seq<Param>, vals: seq<Value>) {
    |vals| == |params| && forall i :: 0 <= i < |params| ==> Fits(vals[i], KindOf(params[i]))
  }

  function Read(mem: Store, a: Actual): Value {
    match a
    case Temporary(v) => v
    case Variable(x) => if x in mem then mem[x] else Num(0)
  }

  function ReadAll(mem: Store, actuals: seq<Actual>): (vals: seq<Value>)
    ensures |vals| == |actuals|
  {
    if actuals == [] then [] else [Read(mem, actuals[0])] + ReadAll(mem, actuals[1..])
  }

  /** The parameters whose argument's address is remembered while serializing. */
  predicate PushesAddress(p: Param) {
    (IsReference(p) && !IsConstReference(p)) || IsPointer(p)
  }

  /** What a call passes: one argument per parameter, of its type, and a variable where the
      parameter is a reference to non-const or a pointer.  A temporary for a reference
      compiles too, but its address is used after it is gone. */
  predicate WellCalled(params: seq<Param>, actuals: seq<Actual>, mem: Store) {
    && |actuals| == |params|
    && Exist(mem, actuals) && FitAll(params, ReadAll(mem, actuals))
    && forall i :: 0 <= i < |params| && PushesAddress(params[i]) ==> actuals[i].Variable?
  }

  /** A variable of the caller has a value. */
  predicate Exist(mem: Store, actuals: seq<Actual>) {
    forall i :: 0 <= i < |actuals| && actuals[i].Variable? ==> actuals[i].addr in mem
  }

  // What the arguments of a call are, without reading them.

  /** The argument is the value itself, or a variable that holds it. */
  ghost predicate PassedAs(mem: Store, a: Actual, v: Value) {
    a == Temporary(v) || (a.Variable? && a.addr in mem && mem[a.addr] == v)
  }

  ghost predicate Passes(mem: Store, actuals: seq<Actual>, vals: seq<Value>) {
    |vals| == |actuals| && forall i :: 0 <= i < |actuals| ==> PassedAs(mem, actuals[i], vals[i])
  }

  /** What is read are the values passed, and no others. */
  lemma {:induction false} ReadsPassed(mem: Store, actuals: seq<Actual>, vals: seq<Value>)
    requires Exist(mem, actuals)
    ensures Passes(mem, actuals, vals) <==> vals == ReadAll(mem, actuals)
  {
    if actuals != [] && vals != [] {
      ReadsPassed(mem, actuals[1..], vals[1..]);
      assert Passes(mem, actuals, vals) <==> PassedAs(mem, actuals[0], vals[0]) && Passes(mem, actuals[1..], vals[1..]) by {
        PassedHead(mem, actuals, vals);
      }
      assert vals == [vals[0]] + vals[1..];
    }
  }

  lemma PassedHead(mem: Store, actuals: seq<Actual>, vals: seq<Value>)
    requires actuals != [] && vals != []
    ensures Passes(mem, actuals, vals) <==> PassedAs(mem, actuals[0], vals[0]) && Passes(mem, actuals[1..], vals[1..])
  {
    hide PassedAs;
    if PassedAs(mem, actuals[0], vals[0]) && Passes(mem, actuals[1..], vals[1..]) {
      forall i | 0 <= i < |actuals| ensures PassedAs(mem, actuals[i], vals[i]) {
        if i > 0 {
          assert PassedAs(mem, actuals[1..][i - 1], vals[1..][i - 1]);
        }
      }
    }
    if Passes(mem, actuals, vals) {
      forall i | 0 <= i < |actuals[1..]| ensures PassedAs(mem, actuals[1..][i], vals[1..][i]) {
        assert PassedAs(mem, actuals[i + 1], vals[i + 1]);
      }
    }
  }

  /** A call is well formed if and only if some values of the parameters' types are passed, and
      variables where addresses are needed. */
  lemma WellCalledMeans(params: seq<Param>, actuals: seq<Actual>, mem: Store)
    ensures WellCalled(params, actuals, mem) <==>
            exists vals :: Passes(mem, actuals, vals) && FitAll(params, vals) && Addressed(params, actuals)
  {
    if WellCalled(params, actuals, mem) {
      ReadsPassed(mem, actuals, ReadAll(mem, actuals));
    }
    if vals :| Passes(mem, actuals, vals) && FitAll(params, vals) && Addressed(params, actuals) {
      assert Exist(mem, actuals) by {
        forall i | 0 <= i < |actuals| && actuals[i].Variable? ensures actuals[i].addr in mem {
          assert PassedAs(mem, actuals[i], vals[i]);
        }
      }
      ReadsPassed(mem, actuals, vals);
    }
  }

  // Values on the wire.

  function EncodeValue(e: End, k: Kind, v: Value): seq<byte>
    requires Fits(v, k)
  {
    match k
    case Number(w) => EncodeNum(e, v.bits, w)
    case Counted =>
      var n := |v.chars| % TWO16;
      EncodeNum(e, n, 2) + v.chars[..n]
  }

  /** The value at the front of `data` and its encoded length, if `data` holds it. */
  function DecodeValue(e: End, k: Kind, data: seq<byte>): Option<(Value, nat)> {
    match k
    case Number(w) => if |data| < w then None else Some((Num(DecodeNum(e, data[..w])), w))
    case Counted =>
      if |data| < 2 then None else
      var n := DecodeNum(e, data[..2]);
      if |data| < 2 + n then None else Some((Text(data[2..2 + n]), 2 + n))
  }

  /** What arrives: the length of a string or blob is sent modulo 65536. */
  function Wire(v: Value): Value {
    match v
    case Num(_) => v
    case Text(chars) => Text(chars[..|chars| % TWO16])
  }

  function WireAll(vals: seq<Value>): (r: seq<Value>)
    ensures |r| == |vals|
    ensures forall i :: 0 <= i < |vals| ==> r[i] == Wire(vals[i])
  {
    if vals == [] then [] else [Wire(vals[0])] + WireAll(vals[1..])
  }

  lemma ValueRoundTrip(a: End, b: End, k: Kind, v: Value, rest: seq<byte>)
    requires Reconciled(a, b) && Fits(v, k)
    ensures DecodeValue(b, k, EncodeValue(a, k, v) + rest) == Some((Wire(v), |EncodeValue(a, k, v)|))
  {
    var s := EncodeValue(a, k, v) + rest;
    match k {
      case Number(w) =>
        assert s[..w] == EncodeNum(a, v.bits, w);
        Transfer(a, b, v.bits, w);
      case Counted =>
        var n := |v.chars| % TWO16;
        Pow256Values();
        Transfer(a, b, n, 2);
        assert s[..2] == EncodeNum(a, n, 2);
        assert s[2..2 + n] == v.chars[..n];
    }
  }

  lemma WireExactly(v: Value)
    ensures Wire(v) == v <==> (v.Text? ==> |v.chars| < TWO16)
  {
    assert v.Text? ==> |Wire(v).chars| < TWO16;
  }

  /** Nothing is lost exactly when every string and blob is shorter than 65536 bytes. */
  lemma WireIsIdentity(vals: seq<Value>)
    ensures WireAll(vals) == vals <==> Short(vals)
  {
    hide Wire, WireAll;
    forall i | 0 <= i < |vals| ensures Wire(vals[i]) == vals[i] <==> (vals[i].Text? ==> |vals[i].chars| < TWO16) {
      WireExactly(vals[i]);
    }
    assert WireAll(vals) == vals <==> forall i :: 0 <= i < |vals| ==> Wire(vals[i]) == vals[i];
  }

  /** A string of 65536 bytes arrives empty. */
  lemma LongStringIsLost(a: End, b: End, s: seq<byte>)
    requires Reconciled(a, b) && |s| == 0x1_0000
    ensures DecodeValue(b, Counted, EncodeValue(a, Counted, Text(s))) == Some((Text([]), 2))
  {
    var data := EncodeValue(a, Counted, Text(s));
    ValueRoundTrip(a, b, Counted, Text(s), []);
    assert data + [] == data && s[..0] == [];
  }

  // The argument list of a request.

  /** `serialize_args`: the bytes, and the addresses of the arguments passed by reference. */
  function SerializeArgs(e: End, params: seq<Param>, actuals: seq<Actual>, mem: Store): (seq<byte>, seq<Addr>)
    requires WellCalled(params, actuals, mem)
  {
    if params == [] then ([], [])
    else
      var p, a := params[0], actuals[0];
      var (s, v) := SerializeArgs(e, params[1..], actuals[1..], mem);
      (EncodeValue(e, KindOf(p), Read(mem, a)) + s, if PushesAddress(p) then [a.addr] + v else v)
  }

  /** The bytes of an argument list depend only on the values. */
  function EncodeArgs(e: End, params: seq<Param>, vals: seq<Value>): seq<byte>
    requires FitAll(params, vals)
  {
    if params == [] then [] else EncodeValue(e, KindOf(params[0]), vals[0]) + EncodeArgs(e, params[1..], vals[1..])
  }

  lemma {:induction false} SerializedBytes(e: End, params: seq<Param>, actuals: seq<Actual>, mem: Store)
    requires WellCalled(params, actuals, mem)
    ensures SerializeArgs(e, params, actuals, mem).0 == EncodeArgs(e, params, ReadAll(mem, actuals))
  {
    if params != [] {
      WellCalledTail(params, actuals, mem);
      SerializedBytes(e, params[1..], actuals[1..], mem);
    }
  }

  function InFormat(params: seq<Param>): (r: seq<InId>) {
    if params == [] then []
    else (if InIdOf(params[0]) != WRONG then [InIdOf(params[0])] else []) + InFormat(params[1..])
  }

  function OutFormat(params: seq<Param>): (r: seq<OutId>) {
    if params == [] then []
    else (if OutIdOf(params[0]) != O_WRONG then [OutIdOf(params[0])] else []) + OutFormat(params[1..])
  }

  /** The values that `deserialize_in_args` reads, and where its cursor ends. */
  function DecodeArgs(e: End, format: seq<InId>, data: seq<byte>): Option<(seq<Value>, nat)> {
    if format == [] then Some(([], 0))
    else
      match InKind(format[0])
      case None => Prepend(Num(0), 0, DecodeArgs(e, format[1..], data))
      case Some(k) =>
        match DecodeValue(e, k, data)
        case None => None
        case Some((v, n)) => if n > |data| then None else Prepend(v, n, DecodeArgs(e, format[1..], data[n..]))
  }

  function Prepend(v: Value, n: nat, rest: Option<(seq<Value>, nat)>): Option<(seq<Value>, nat)> {
    match rest
    case None => None
    case Some((vs, m)) => Some(([v] + vs, n + m))
  }

  /** The server reads back, for every type list and all values, what the client wrote,
      and its cursor ends at the end of the buffer. */
  lemma {:induction false} ArgsRoundTrip(a: End, b: End, params: seq<Param>, vals: seq<Value>)
    requires Reconciled(a, b) && FitAll(params, vals)
    ensures var s := EncodeArgs(a, params, vals);
            DecodeArgs(b, InFormat(params), s) == Some((WireAll(vals), |s|))
  {
    hide EncodeValue, DecodeValue, Wire, InKind, KindOf, EncodeNum, DecodeNum;
    if params != [] {
      var p, v := params[0], vals[0];
      var head, rest := EncodeValue(a, KindOf(p), v), EncodeArgs(a, params[1..], vals[1..]);
      ArgsRoundTrip(a, b, params[1..], vals[1..]);
      TablesAgree(p);
      ValueRoundTrip(a, b, KindOf(p), v, rest);
      SliceConcat(head, rest, |head|);
      assert (head + rest)[|head|..] == rest;
      hide FitAll, Reconciled, Fits, InIdOf;
      assert InFormat(params)[1..] == InFormat(params[1..]);
    }
  }

  lemma WellCalledTail(params: seq<Param>, actuals: seq<Actual>, mem: Store)
    requires WellCalled(params, actuals, mem) && params != []
    ensures WellCalled(params[1..], actuals[1..], mem)
    ensures Fits(Read(mem, actuals[0]), KindOf(params[0]))
  {
    assert ReadAll(mem, actuals)[1..] == ReadAll(mem, actuals[1..]);
  }

  /** The server reads, from the bytes that the client writes, the values that are passed. */
  lemma ArgsArrive(c: End, s: End, params: seq<Param>, actuals: seq<Actual>, mem: Store, vals: seq<Value>)
    requires Reconciled(c, s) && WellCalled(params, actuals, mem) && Passes(mem, actuals, vals)
    ensures var data := SerializeArgs(c, params, actuals, mem).0;
            DecodeArgs(s, InFormat(params), data) == Some((WireAll(vals), |data|))
  {
    ReadsPassed(mem, actuals, vals);
    SerializedBytes(c, params, actuals, mem);
    hide SerializeArgs, EncodeArgs, DecodeArgs, WireAll, Passes;
    ArgsRoundTrip(c, s, params, vals);
  }

  // The reply.

  predicate FitFormat(format: seq<InId>, vals: seq<Value>) {
    && |vals| == |format|
    && forall i :: 0 <= i < |format| ==> InKind(format[i]).Some? && Fits(vals[i], InKind(format[i]).value)
  }

  /** What `serialize_out_args` appends: the arguments of the `_REF` cases, in order. */
  function EncodeOuts(e: End, format: seq<InId>, vals: seq<Value>): seq<byte>
    requires FitFormat(format, vals)
  {
    if format == [] then []
    else
      var rest := EncodeOuts(e, format[1..], vals[1..]);
      if WritesBack(format[0]) then EncodeValue(e, InKind(format[0]).value, vals[0]) + rest else rest
  }

  /** What `serialize_r` writes, and the whole reply. */
  function EncodeReply(e: End, r: RetId, ret: nat, format: seq<InId>, vals: seq<Value>): seq<byte>
    requires FitFormat(format, vals)
  {
    EncodeNum(e, ret, RetSize(r)) + EncodeOuts(e, format, vals)
  }

  /** `unmarshall_out_args`: the returned value is split off the results. */
  function SplitReply(r: RetId, data: seq<byte>): Option<(seq<byte>, seq<byte>)> {
    if r == R_WRONG then Some(([], []))
    else if |data| < RetSize(r) then None
    else Some((data[..RetSize(r)], data[RetSize(r)..]))
  }

  /** What `deserialize_out_args` leaves in the variables of the caller. */
  function WriteOuts(e: End, format: seq<OutId>, data: seq<byte>, addresses: seq<Addr>, mem: Store): Option<Store> {
    if format == [] then Some(mem)
    else
      match OutKind(format[0])
      case None => WriteOuts(e, format[1..], data, if addresses == [] then [] else addresses[1..], mem)
      case Some(k) =>
        match DecodeValue(e, k, data)
        case None => None
        case Some((v, n)) =>
          if n > |data| || addresses == [] then None
          else WriteOuts(e, format[1..], data[n..], addresses[1..], mem[addresses[0] := v])
  }

  /** Copy-out: each variable passed by reference gets the final value of its parameter. */
  function CopyOut(params: seq<Param>, actuals: seq<Actual>, vals: seq<Value>, mem: Store): Store
    requires |params| == |actuals| == |vals|
  {
    if params == [] then mem
    else
      CopyOut(params[1..], actuals[1..], vals[1..],
              if Returned(params[0]) && actuals[0].Variable? then mem[actuals[0].addr := vals[0]] else mem)
  }

  /** A variable that no result belongs to keeps its value. */
  lemma {:induction false} CopyOutElsewhere(params: seq<Param>, actuals: seq<Actual>, vals: seq<Value>, mem: Store, x: Addr)
    requires |params| == |actuals| == |vals|
    requires forall j :: 0 <= j < |params| && Returned(params[j]) ==> actuals[j] != Variable(x)
    ensures var mem' := CopyOut(params, actuals, vals, mem);
            (x in mem' <==> x in mem) && (x in mem ==> mem'[x] == mem[x])
  {
    hide Returned;
    if params != [] {
      var m := if Returned(params[0]) && actuals[0].Variable? then mem[actuals[0].addr := vals[0]] else mem;
      CopyOutElsewhere(params[1..], actuals[1..], vals[1..], m, x);
    }
  }

  /** When results belong to different variables, each variable gets its own. */
  lemma {:induction false} CopyOutMeans(params: seq<Param>, actuals: seq<Actual>, vals: seq<Value>, mem: Store, i: nat)
    requires |params| == |actuals| == |vals| && i < |params| && Returned(params[i]) && actuals[i].Variable?
    requires forall j :: 0 <= j < |params| && j != i && Returned(params[j]) ==> actuals[j] != actuals[i]
    ensures var mem' := CopyOut(params, actuals, vals, mem); actuals[i].addr in mem' && mem'[actuals[i].addr] == vals[i]
  {
    hide Returned;
    var m := if Returned(params[0]) && actuals[0].Variable? then mem[actuals[0].addr := vals[0]] else mem;
    if i == 0 {
      CopyOutElsewhere(params[1..], actuals[1..], vals[1..], m, actuals[0].addr);
    } else {
      CopyOutMeans(params[1..], actuals[1..], vals[1..], m, i - 1);
    }
  }

  /** The values of the types: bit patterns of the C++ type's width, or any bytes. */
  lemma TypeValues(p: Param, v: Value)
    ensures Fits(v, KindOf(p)) <==>
            match p
            case Bool => v.Num? && v.bits < 0x100
            case Char => v.Num? && v.bits < 0x100
            case UChar => v.Num? && v.bits < 0x100
            case Short => v.Num? && v.bits < 0x1_0000
            case UShort => v.Num? && v.bits < 0x1_0000
            case Int => v.Num? && v.bits < 0x1_0000_0000
            case IntRef => v.Num? && v.bits < 0x1_0000_0000
            case UInt => v.Num? && v.bits < 0x1_0000_0000
            case Float => v.Num? && v.bits < 0x1_0000_0000
            case FloatRef => v.Num? && v.bits < 0x1_0000_0000
            case Long => v.Num? && v.bits < 0x1_0000_0000_0000_0000
            case LongRef => v.Num? && v.bits < 0x1_0000_0000_0000_0000
            case ULong => v.Num? && v.bits < 0x1_0000_0000_0000_0000
            case LongLong => v.Num? && v.bits < 0x1_0000_0000_0000_0000
            case LongLongRef => v.Num? && v.bits < 0x1_0000_0000_0000_0000
            case ULongLong => v.Num? && v.bits < 0x1_0000_0000_0000_0000
            case Double => v.Num? && v.bits < 0x1_0000_0000_0000_0000
            case DoubleRef => v.Num? && v.bits < 0x1_0000_0000_0000_0000
            case _ => v.Text?
  {
    Pow256Values();
  }

  /** Three places select the by-reference parameters, from three descriptions of the type.
      Those that write and read the reply agree; the one that remembers addresses also takes
      pointers to constants. */
  lemma SelectionsAgree(p: Param)
    ensures Returned(p) <==> WritesBack(InIdOf(p))
    ensures PushesAddress(p) <==> Returned(p) || PointsToConst(p)
    ensures !(Returned(p) && PointsToConst(p))
  {
  }

  lemma {:induction false} FormatFits(params: seq<Param>, vals: seq<Value>)
    requires FitAll(params, vals)
    ensures FitFormat(InFormat(params), vals)
    ensures forall i :: 0 <= i < |params| ==> InFormat(params)[i] == InIdOf(params[i])
  {
    if params != [] {
      FormatFits(params[1..], vals[1..]);
      TablesAgree(params[0]);
      assert InFormat(params) == [InIdOf(params[0])] + InFormat(params[1..]);
    }
  }

  predicate Addressed(params: seq<Param>, actuals: seq<Actual>) {
    && |actuals| == |params|
    && forall i :: 0 <= i < |params| && PushesAddress(params[i]) ==> actuals[i].Variable?
  }

  /** The addresses that are remembered, in order. */
  function AddressesOf(params: seq<Param>, actuals: seq<Actual>): seq<Addr>
    requires Addressed(params, actuals)
  {
    if params == [] then []
    else (if PushesAddress(params[0]) then [actuals[0].addr] else []) + AddressesOf(params[1..], actuals[1..])
  }

  /** The addresses that the results belong to, in order. */
  function Targets(params: seq<Param>, actuals: seq<Actual>): seq<Addr>
    requires Addressed(params, actuals)
  {
    if params == [] then []
    else
      SelectionsAgree(params[0]);
      (if Returned(params[0]) then [actuals[0].addr] else []) + Targets(params[1..], actuals[1..])
  }

  /** The results of a call, in order. */
  function Outs(params: seq<Param>, vals: seq<Value>): seq<Value>
    requires |vals| == |params|
  {
    if params == [] then []
    else (if Returned(params[0]) then [vals[0]] else []) + Outs(params[1..], vals[1..])
  }

  /** One value after the other through one address after the other. */
  function StoreAll(addresses: seq<Addr>, vals: seq<Value>, mem: Store): Store {
    if vals == [] || addresses == [] then mem
    else StoreAll(addresses[1..], vals[1..], mem[addresses[0] := vals[0]])
  }

  lemma StoreCons(x: Addr, rest: seq<Addr>, v: Value, more: seq<Value>, mem: Store)
    ensures StoreAll([x] + rest, [v] + more, mem) == StoreAll(rest, more, mem[x := v])
  {
    assert ([x] + rest)[1..] == rest && ([v] + more)[1..] == more;
  }

  /** Whatever addresses are remembered, the i-th result is stored through the i-th one. */
  lemma {:induction false} OutsRoundTrip(a: End, b: End, params: seq<Param>, vals: seq<Value>, mem: Store, addresses: seq<Addr>)
    requires Reconciled(a, b) && FitAll(params, vals) && FitFormat(InFormat(params), vals)
    requires |addresses| >= |Outs(params, vals)|
    ensures WriteOuts(b, OutFormat(params), EncodeOuts(a, InFormat(params), vals), addresses, mem) ==
            Some(StoreAll(addresses, WireAll(Outs(params, vals)), mem))
  {
    if params != [] {
      hide EncodeValue, DecodeValue, Wire, OutKind, KindOf, Returned, EncodeOuts, OutFormat, InFormat;
      var p, v := params[0], vals[0];
      var rest, tail := InFormat(params[1..]), vals[1..];
      FormatFits(params[1..], tail);
      OutsHead(a, params, vals);
      hide FitFormat, FitAll, Reconciled;
      if Returned(p) {
        ValueRoundTrip(a, b, KindOf(p), v, EncodeOuts(a, rest, tail));
        WriteOutsHead(b, OutFormat(params), EncodeOuts(a, InFormat(params), vals), addresses, mem, KindOf(p));
        assert Outs(params, vals) == [v] + Outs(params[1..], tail);
        StoreHead(addresses, v, Outs(params[1..], tail), mem);
        hide WriteOuts, WireAll, StoreAll;
        OutsRoundTrip(a, b, params[1..], tail, mem[addresses[0] := Wire(v)], addresses[1..]);
      } else {
        assert Outs(params, vals) == Outs(params[1..], tail);
        hide WriteOuts, WireAll, StoreAll;
        OutsRoundTrip(a, b, params[1..], tail, mem, addresses);
      }
    }
  }

  lemma StoreHead(addresses: seq<Addr>, v: Value, vals: seq<Value>, mem: Store)
    requires addresses != []
    ensures StoreAll(addresses, WireAll([v] + vals), mem) == StoreAll(addresses[1..], WireAll(vals), mem[addresses[0] := Wire(v)])
  {
    hide Wire;
    assert ([v] + vals)[1..] == vals;
    assert WireAll([v] + vals)[1..] == WireAll(vals);
  }

  lemma WriteOutsHead(e: End, format: seq<OutId>, data: seq<byte>, addresses: seq<Addr>, mem: Store, k: Kind)
    requires format != [] && addresses != [] && OutKind(format[0]) == Some(k)
    requires DecodeValue(e, k, data).Some? && DecodeValue(e, k, data).value.1 <= |data|
    ensures var (v, n) := DecodeValue(e, k, data).value;
            WriteOuts(e, format, data, addresses, mem) ==
            WriteOuts(e, format[1..], data[n..], addresses[1..], mem[addresses[0] := v])
  {
    hide OutKind, DecodeValue;
  }

  /** Format and bytes of a result list, read from the front. */
  lemma OutsHead(e: End, params: seq<Param>, vals: seq<Value>)
    requires params != []
    requires FitAll(params, vals) && FitFormat(InFormat(params), vals) && FitFormat(InFormat(params[1..]), vals[1..])
    ensures var p, outs, rest := params[0], EncodeOuts(e, InFormat(params), vals), EncodeOuts(e, InFormat(params[1..]), vals[1..]);
            if Returned(p) then
              var head := EncodeValue(e, KindOf(p), vals[0]);
              && outs == head + rest && outs[|head|..] == rest
              && OutFormat(params) != [] && OutKind(OutFormat(params)[0]) == Some(KindOf(p))
              && OutFormat(params)[1..] == OutFormat(params[1..])
            else outs == rest && OutFormat(params) == OutFormat(params[1..])
  {
    var p := params[0];
    SelectionsAgree(p);
    TablesAgree(p);
    hide EncodeValue, InKind, OutKind, KindOf, WritesBack, OutIdOf, InIdOf;
    assert InFormat(params)[1..] == InFormat(params[1..]);
  }

  // Which variable a result reaches.

  /** Copy-out is storing the results through their own addresses. */
  lemma {:induction false} CopyOutIsStore(params: seq<Param>, actuals: seq<Actual>, vals: seq<Value>, mem: Store)
    requires Addressed(params, actuals) && |vals| == |params|
    ensures CopyOut(params, actuals, vals, mem) == StoreAll(Targets(params, actuals), Outs(params, vals), mem)
  {
    if params != [] {
      SelectionsAgree(params[0]);
      hide Returned, PushesAddress;
      var ts, outs := Targets(params[1..], actuals[1..]), Outs(params[1..], vals[1..]);
      if Returned(params[0]) {
        CopyOutIsStore(params[1..], actuals[1..], vals[1..], mem[actuals[0].addr := vals[0]]);
        StoreCons(actuals[0].addr, ts, vals[0], outs, mem);
      } else {
        CopyOutIsStore(params[1..], actuals[1..], vals[1..], mem);
        assert Targets(params, actuals) == ts && Outs(params, vals) == outs;
      }
    }
  }

  predicate HasResult(params: seq<Param>) {
    params != [] && (Returned(params[0]) || HasResult(params[1..]))
  }

  /** No pointer to a constant comes before a parameter that carries a result. */
  predicate Aligned(params: seq<Param>) {
    params == [] || if PointsToConst(params[0]) then !HasResult(params[1..]) else Aligned(params[1..])
  }

  lemma {:induction false} HasResultMeans(params: seq<Param>)
    ensures HasResult(params) <==> exists j :: 0 <= j < |params| && Returned(params[j])
  {
    if params != [] {
      hide Returned;
      HasResultMeans(params[1..]);
      assert forall j :: 0 < j < |params| ==> params[j] == params[1..][j - 1];
      assert forall j :: 0 <= j < |params[1..]| ==> params[1..][j] == params[j + 1];
    }
  }

  lemma {:induction false} AlignedMeans(params: seq<Param>)
    ensures Aligned(params) <==> forall i, j :: 0 <= i < j < |params| ==> !(PointsToConst(params[i]) && Returned(params[j]))
  {
    if params != [] {
      SelectionsAgree(params[0]);
      hide Returned, PointsToConst;
      HasResultMeans(params[1..]);
      AlignedMeans(params[1..]);
      assert forall j :: 0 < j < |params| ==> params[j] == params[1..][j - 1];
      assert forall j :: 0 <= j < |params[1..]| ==> params[1..][j] == params[j + 1];
      if Aligned(params) && PointsToConst(params[0]) {
        NoResultAligned(params[1..]);
      }
    }
  }

  lemma {:induction false} NoResultAligned(params: seq<Param>)
    requires !HasResult(params)
    ensures Aligned(params)
  {
    if params != [] { NoResultAligned(params[1..]); }
  }

  lemma {:induction false} TargetsRemembered(params: seq<Param>, actuals: seq<Actual>)
    requires Addressed(params, actuals)
    ensures |Targets(params, actuals)| <= |AddressesOf(params, actuals)|
    ensures HasResult(params) <==> Targets(params, actuals) != []
  {
    if params != [] {
      SelectionsAgree(params[0]);
      hide Returned, PushesAddress;
      TargetsRemembered(params[1..], actuals[1..]);
    }
  }

  lemma {:induction false} OutsLength(params: seq<Param>, actuals: seq<Actual>, vals: seq<Value>)
    requires Addressed(params, actuals) && |vals| == |params|
    ensures |Outs(params, vals)| == |Targets(params, actuals)|
  {
    if params != [] {
      SelectionsAgree(params[0]);
      hide Returned, PushesAddress;
      OutsLength(params[1..], actuals[1..], vals[1..]);
    }
  }

  /** The addresses that the results are stored through. */
  function Used(params: seq<Param>, actuals: seq<Actual>): (r: seq<Addr>)
    requires Addressed(params, actuals)
  {
    TargetsRemembered(params, actuals);
    AddressesOf(params, actuals)[..|Targets(params, actuals)|]
  }

  /** The lists of a call, read from the front. */
  lemma Front(params: seq<Param>, actuals: seq<Actual>)
    requires Addressed(params, actuals) && params != []
    ensures Addressed(params[1..], actuals[1..])
    ensures PushesAddress(params[0]) ==> actuals[0].Variable?
    ensures var addresses, rest := AddressesOf(params, actuals), AddressesOf(params[1..], actuals[1..]);
            addresses == if PushesAddress(params[0]) then [actuals[0].addr] + rest else rest
    ensures var targets, rest := Targets(params, actuals), Targets(params[1..], actuals[1..]);
            targets == if Returned(params[0]) then [actuals[0].addr] + rest else rest
  {
    SelectionsAgree(params[0]);
    hide PushesAddress, Returned;
  }

  lemma OutsFrontOf(params: seq<Param>, vals: seq<Value>)
    requires |vals| == |params| && params != []
    ensures Outs(params, vals) ==
            if Returned(params[0]) then [vals[0]] + Outs(params[1..], vals[1..]) else Outs(params[1..], vals[1..])
  {
    hide Returned;
  }

  lemma {:induction false} AlignedRoutes(params: seq<Param>, actuals: seq<Actual>)
    requires Addressed(params, actuals) && Aligned(params)
    ensures Used(params, actuals) == Targets(params, actuals)
  {
    if params != [] {
      SelectionsAgree(params[0]);
      Front(params, actuals);
      TargetsRemembered(params[1..], actuals[1..]);
      hide Addressed, Returned, PushesAddress, PointsToConst, AddressesOf, Targets;
      if !PointsToConst(params[0]) {
        AlignedRoutes(params[1..], actuals[1..]);
      }
    }
  }

  lemma {:induction false} StoreFar(addresses: seq<Addr>, vals: seq<Value>, mem: Store, x: Addr)
    requires |vals| <= |addresses| && x !in addresses
    ensures Content(StoreAll(addresses, vals, mem), x) == Content(mem, x)
  {
    if vals != [] {
      StoreFar(addresses[1..], vals[1..], mem[addresses[0] := vals[0]], x);
    }
  }

  function Content(mem: Store, x: Addr): Option<Value> {
    if x in mem then Some(mem[x]) else None
  }

  lemma StoreOnce(x: Addr, rest: seq<Addr>, v: Value, more: seq<Value>, mem: Store)
    requires x !in rest && |more| <= |rest|
    ensures Content(StoreAll(rest, more, mem[x := v]), x) == Some(v)
  {
    StoreFar(rest, more, mem[x := v], x);
  }

  lemma DistinctCons(x: Addr, rest: seq<Addr>)
    requires Distinct([x] + rest)
    ensures Distinct(rest) && x !in rest
  {
    var all := [x] + rest;
    forall i, j | 0 <= i < j < |rest| ensures rest[i] != rest[j] {
      assert all[i + 1] != all[j + 1];
    }
    forall i | 0 <= i < |rest| ensures x != rest[i] {
      assert all[0] != all[i + 1];
    }
  }

  /** Result j is the value v, and argument i, for a pointer to a constant before it, the
      variable x. */
  predicate Crossed(params: seq<Param>, actuals: seq<Actual>, vals: seq<Value>, i: nat, j: nat, x: Addr, v: Value)
    requires |params| == |actuals| == |vals|
  {
    i < j < |params| && PointsToConst(params[i]) && Returned(params[j]) && actuals[i] == Variable(x) && vals[j] == v
  }

  lemma CrossedTail(params: seq<Param>, actuals: seq<Actual>, vals: seq<Value>, i: nat, j: nat, x: Addr, v: Value)
    requires |params| == |actuals| == |vals| && params != []
    requires Crossed(params[1..], actuals[1..], vals[1..], i, j, x, v)
    ensures Crossed(params, actuals, vals, i + 1, j + 1, x, v)
  {
    hide PointsToConst, Returned;
  }

  lemma {:induction false} FirstOut(params: seq<Param>, vals: seq<Value>) returns (j: nat)
    requires |vals| == |params| && HasResult(params)
    ensures j < |params| && Returned(params[j]) && Outs(params, vals) != [] && Outs(params, vals)[0] == vals[j]
  {
    hide Returned;
    if Returned(params[0]) {
      j := 0;
    } else {
      j := FirstOut(params[1..], vals[1..]);
      j := j + 1;
    }
  }

  /** With distinct addresses, a parameter list that is not aligned has a result that
      overwrites the variable of a pointer to a constant. */
  lemma {:induction false} Overwritten(params: seq<Param>, actuals: seq<Actual>, vals: seq<Value>, mem: Store)
    returns (i: nat, j: nat, x: Addr, v: Value)
    requires Addressed(params, actuals) && |vals| == |params|
    requires Distinct(AddressesOf(params, actuals)) && !Aligned(params)
    ensures Crossed(params, actuals, vals, i, j, x, v)
    ensures Content(StoreAll(AddressesOf(params, actuals), Outs(params, vals), mem), x) == Some(v)
  {
    hide Distinct, AddressesOf, Targets, StoreAll, Content, Outs, Crossed;
    var p, a := params[0], actuals[0];
    SelectionsAgree(p);
    hide Returned, PushesAddress, PointsToConst;
    Front(params, actuals);
    OutsFrontOf(params, vals);
    hide Addressed;
    var rest, more := AddressesOf(params[1..], actuals[1..]), Outs(params[1..], vals[1..]);
    if PushesAddress(p) {
      DistinctCons(a.addr, rest);
    }
    if PointsToConst(p) {
      TargetsRemembered(params[1..], actuals[1..]);
      OutsLength(params[1..], actuals[1..], vals[1..]);
      i, j, x, v := CrossedAtHead(params, actuals, vals, mem, rest);
    } else {
      var mem' := if Returned(p) then mem[a.addr := vals[0]] else mem;
      if Returned(p) {
        StoreCons(a.addr, rest, vals[0], more, mem);
      }
      i, j, x, v := Overwritten(params[1..], actuals[1..], vals[1..], mem');
      CrossedTail(params, actuals, vals, i, j, x, v);
      i, j := i + 1, j + 1;
    }
  }

  lemma CrossedAtHead(params: seq<Param>, actuals: seq<Actual>, vals: seq<Value>, mem: Store, rest: seq<Addr>)
    returns (i: nat, j: nat, x: Addr, v: Value)
    requires |vals| == |params| == |actuals| && params != [] && PointsToConst(params[0]) && HasResult(params[1..])
    requires actuals[0].Variable? && actuals[0].addr !in rest && |Outs(params[1..], vals[1..])| <= |rest|
    ensures Crossed(params, actuals, vals, i, j, x, v)
    ensures Content(StoreAll([actuals[0].addr] + rest, Outs(params[1..], vals[1..]), mem), x) == Some(v)
  {
    hide Content, StoreAll, HasResult, Outs, PointsToConst, Returned;
    var more := Outs(params[1..], vals[1..]);
    j := FirstOut(params[1..], vals[1..]);
    i, j, x, v := 0, j + 1, actuals[0].addr, more[0];
    assert more == [v] + more[1..];
    StoreCons(x, rest, v, more[1..], mem);
    StoreOnce(x, rest, v, more[1..], mem);
  }

  ghost predicate IsLastOut(params: seq<Param>, actuals: seq<Actual>, l: nat)
    requires Addressed(params, actuals)
  {
    && l < |params| && Returned(params[l]) && actuals[l].Variable?
    && var ts := Targets(params, actuals); ts != [] && actuals[l].addr == ts[|ts| - 1]
  }

  lemma {:induction false} LastOut(params: seq<Param>, actuals: seq<Actual>) returns (l: nat)
    requires Addressed(params, actuals) && HasResult(params)
    ensures l < |params| && Returned(params[l]) && actuals[l].Variable?
    ensures var ts := Targets(params, actuals); ts != [] && actuals[l].addr == ts[|ts| - 1]
    decreases |params|
  {
    assert Returned(params[0]) || HasResult(params[1..]);
    hide Returned, PushesAddress, Targets, HasResult, Addressed, AddressesOf;
    Front(params, actuals);
    if HasResult(params[1..]) {
      l := LastOut(params[1..], actuals[1..]);
      LastOutShifts(params, actuals, l);
      l := l + 1;
    } else {
      OnlyOut(params, actuals);
      l := 0;
    }
  }

  lemma LastOutShifts(params: seq<Param>, actuals: seq<Actual>, l: nat)
    requires Addressed(params, actuals) && params != [] && Addressed(params[1..], actuals[1..]) && IsLastOut(params[1..], actuals[1..], l)
    ensures IsLastOut(params, actuals, l + 1)
  {
    assert |actuals| == |params| && params[1..][l] == params[l + 1];
    hide Returned, Targets, Addressed;
    var ts := TargetsTail(params, actuals);
    LastShifts(actuals, l, ts, Targets(params, actuals));
  }

  lemma TargetsTail(params: seq<Param>, actuals: seq<Actual>) returns (ts: seq<Addr>)
    requires Addressed(params, actuals) && params != []
    ensures Addressed(params[1..], actuals[1..]) && ts == Targets(params[1..], actuals[1..])
    ensures Targets(params, actuals) == ts || (actuals[0].Variable? && Targets(params, actuals) == [actuals[0].addr] + ts)
  {
    hide Returned, PushesAddress, Targets, AddressesOf;
    Front(params, actuals);
    SelectionsAgree(params[0]);
    ts := Targets(params[1..], actuals[1..]);
  }

  lemma LastShifts(actuals: seq<Actual>, l: nat, ts: seq<Addr>, ts': seq<Addr>)
    requires actuals != [] && l < |actuals[1..]| && actuals[1..][l].Variable? && ts != [] && actuals[1..][l].addr == ts[|ts| - 1]
    requires ts' == ts || (actuals[0].Variable? && ts' == [actuals[0].addr] + ts)
    ensures actuals[l + 1].Variable? && ts' != [] && actuals[l + 1].addr == ts'[|ts'| - 1]
  {
  }

  lemma OnlyOut(params: seq<Param>, actuals: seq<Actual>)
    requires Addressed(params, actuals) && params != [] && Returned(params[0]) && !HasResult(params[1..])
    ensures IsLastOut(params, actuals, 0)
  {
    hide Returned, PushesAddress, Targets, HasResult, AddressesOf;
    SelectionsAgree(params[0]);
    Front(params, actuals);
    TargetsRemembered(params[1..], actuals[1..]);
  }

  /** And the last result does not reach its own variable. */
  lemma {:induction false} Missed(params: seq<Param>, actuals: seq<Actual>) returns (l: nat)
    requires Addressed(params, actuals) && Distinct(AddressesOf(params, actuals)) && !Aligned(params)
    ensures l < |params| && Returned(params[l]) && actuals[l].Variable?
    ensures actuals[l].addr in AddressesOf(params, actuals) && actuals[l].addr !in Used(params, actuals)
    decreases params, 0
  {
    hide Distinct, AddressesOf, Targets;
    var p, a := params[0], actuals[0];
    SelectionsAgree(p);
    hide Returned, PushesAddress, PointsToConst;
    Front(params, actuals);
    TargetsRemembered(params[1..], actuals[1..]);
    hide Addressed;
    var rest, n := AddressesOf(params[1..], actuals[1..]), |Targets(params[1..], actuals[1..])|;
    if PushesAddress(p) {
      DistinctCons(a.addr, rest);
    }
    if PointsToConst(p) {
      l := MissedBehind(params[1..], actuals[1..], a.addr);
    } else {
      l := Missed(params[1..], actuals[1..]);
      if Returned(p) {
        assert ([a.addr] + rest)[..n + 1] == [a.addr] + rest[..n];
      }
    }
    l := l + 1;
  }

  /** Behind one more address, the last of the results has no address left. */
  lemma MissedBehind(params: seq<Param>, actuals: seq<Actual>, x: Addr) returns (l: nat)
    requires Addressed(params, actuals) && HasResult(params)
    requires Distinct(AddressesOf(params, actuals)) && x !in AddressesOf(params, actuals)
    ensures l < |params| && Returned(params[l]) && actuals[l].Variable?
    ensures actuals[l].addr in AddressesOf(params, actuals)
    ensures |Targets(params, actuals)| <= |AddressesOf(params, actuals)|
    ensures actuals[l].addr !in ([x] + AddressesOf(params, actuals))[..|Targets(params, actuals)|]
    decreases params, 1
  {
    TargetsRemembered(params, actuals);
    var addresses, n := AddressesOf(params, actuals), |Targets(params, actuals)|;
    hide Returned, AddressesOf, Targets, Addressed, HasResult;
    assert ([x] + addresses)[..n] == [x] + addresses[..n - 1];
    if Aligned(params) {
      AlignedRoutes(params, actuals);
      l := LastOut(params, actuals);
      hide Aligned;
      assert addresses[n - 1] == actuals[l].addr;
      assert addresses[n - 1] !in addresses[..n - 1];
    } else {
      hide Aligned, Distinct;
      l := Missed(params, actuals);
      assert addresses[..n - 1] == addresses[..n][..n - 1];
    }
  }

  /** With distinct addresses, every result is stored through the address of its own
      variable if and only if no pointer to a constant comes before a by-reference parameter. */
  lemma RoutedExactly(params: seq<Param>, actuals: seq<Actual>)
    requires Addressed(params, actuals) && Distinct(AddressesOf(params, actuals))
    ensures Used(params, actuals) == Targets(params, actuals) <==> Aligned(params)
  {
    if Aligned(params) {
      AlignedRoutes(params, actuals);
    } else {
      var l := Missed(params, actuals);
      InTargets(params, actuals, l);
    }
  }

  lemma {:induction false} InTargets(params: seq<Param>, actuals: seq<Actual>, l: nat)
    requires Addressed(params, actuals) && l < |params| && Returned(params[l]) && actuals[l].Variable?
    ensures actuals[l].addr in Targets(params, actuals)
  {
    Front(params, actuals);
    hide Returned, PushesAddress, Targets, Addressed;
    if l > 0 {
      InTargets(params[1..], actuals[1..], l - 1);
    }
  }

  lemma {:induction false} OutsOnWire(params: seq<Param>, vals: seq<Value>)
    requires |vals| == |params|
    ensures WireAll(Outs(params, vals)) == Outs(params, WireAll(vals))
  {
    if params != [] {
      OutsFrontOf(params, vals);
      OutsFrontOf(params, WireAll(vals));
      hide Returned, Outs, Wire;
      var more := Outs(params[1..], vals[1..]);
      assert WireAll(vals)[1..] == WireAll(vals[1..]);
      assert WireAll([vals[0]] + more) == [Wire(vals[0])] + WireAll(more);
      OutsOnWire(params[1..], vals[1..]);
    }
  }

  /** What the client reads from a reply into the variables of an aligned call is copy-out. */
  lemma ResultsReachVariables(a: End, b: End, params: seq<Param>, actuals: seq<Actual>, vals: seq<Value>, mem: Store)
    requires Reconciled(a, b) && FitAll(params, vals) && FitFormat(InFormat(params), vals)
    requires Addressed(params, actuals) && Aligned(params)
    ensures WriteOuts(b, OutFormat(params), EncodeOuts(a, InFormat(params), vals), AddressesOf(params, actuals), mem) ==
            Some(CopyOut(params, actuals, WireAll(vals), mem))
  {
    hide Aligned, AddressesOf, Targets, Outs, StoreAll, CopyOut, WriteOuts, EncodeOuts, OutFormat, InFormat;
    var addresses, outs := AddressesOf(params, actuals), WireAll(Outs(params, vals));
    TargetsRemembered(params, actuals);
    OutsLength(params, actuals, vals);
    OutsRoundTrip(a, b, params, vals, mem, addresses);
    AlignedRoutes(params, actuals);
    StorePrefix(addresses, outs, mem);
    OutsOnWire(params, vals);
    CopyOutIsStore(params, actuals, WireAll(vals), mem);
  }

  /** In a call that is not aligned, the variable of a pointer to a constant gets the value of
      a result that comes later, and some variable does not get its result. */
  lemma ResultsAreMisrouted(a: End, b: End, params: seq<Param>, actuals: seq<Actual>, vals: seq<Value>, mem: Store)
    returns (mem': Store, i: nat, j: nat, x: Addr, v: Value, l: nat)
    requires Reconciled(a, b) && FitAll(params, vals) && FitFormat(InFormat(params), vals)
    requires Addressed(params, actuals) && Distinct(AddressesOf(params, actuals)) && !Aligned(params)
    ensures WriteOuts(b, OutFormat(params), EncodeOuts(a, InFormat(params), vals), AddressesOf(params, actuals), mem) == Some(mem')
    ensures Crossed(params, actuals, WireAll(vals), i, j, x, v) && Content(mem', x) == Some(v)
    ensures l < |params| && Returned(params[l]) && actuals[l].Variable? && Content(mem', actuals[l].addr) == Content(mem, actuals[l].addr)
  {
    hide Aligned, AddressesOf, Targets, Outs, StoreAll, WriteOuts, EncodeOuts, OutFormat, InFormat, Crossed, Content, Distinct;
    var addresses, outs := AddressesOf(params, actuals), WireAll(Outs(params, vals));
    TargetsRemembered(params, actuals);
    OutsLength(params, actuals, vals);
    OutsRoundTrip(a, b, params, vals, mem, addresses);
    mem' := StoreAll(addresses, outs, mem);
    OutsOnWire(params, vals);
    i, j, x, v := Overwritten(params, actuals, WireAll(vals), mem);
    l := Missed(params, actuals);
    StorePrefix(addresses, outs, mem);
    StoreFar(addresses[..|outs|], outs, mem, actuals[l].addr);
  }

  lemma {:induction false} SerializedAddresses(e: End, params: seq<Param>, actuals: seq<Actual>, mem: Store)
    requires WellCalled(params, actuals, mem)
    ensures SerializeArgs(e, params, actuals, mem).1 == AddressesOf(params, actuals)
  {
    if params != [] {
      WellCalledTail(params, actuals, mem);
      SerializedAddresses(e, params[1..], actuals[1..], mem);
    }
  }

  // A whole call.

  /** What a registered function does: it may use and change the state of its device, it
      returns a value, and it leaves final values in its parameters. */
  datatype Outcome<+W> = Outcome(world: W, ret: nat, args: seq<Value>)
  type Impl<!W> = (W, seq<Value>) -> Outcome<W>

  /** The type checker's part: given arguments of its types, a function returns such. */
  ghost predicate Typed<W(!new)>(p: Prototype, f: Impl<W>) {
    forall w, vals :: FitAll(p.params, vals) ==>
      FitAll(p.params, f(w, vals).args) && RetFits(p.ret, f(w, vals).ret)
  }

  /** The bit patterns of a returned type; a `void` function returns nothing, which is 0. */
  predicate RetFits(r: Ret, n: nat) {
    match r
    case Void => n == 0
    case RInt => n < 0x1_0000_0000
    case RFloat => n < 0x1_0000_0000
    case RLong => n < 0x1_0000_0000_0000_0000
    case RLongLong => n < 0x1_0000_0000_0000_0000
    case RDouble => n < 0x1_0000_0000_0000_0000
  }

  /** They are as wide as what is split off the reply. */
  lemma RetFitsWidth(r: Ret, n: nat)
    ensures RetFits(r, n) <==> n < Pow256(RetSize(RetIdOf(r)))
  {
    Pow256Values();
  }

  /** The server's part of a call: from the bytes of a request to the bytes of the reply. */
  function Perform<W>(e: End, p: Prototype, f: Impl<W>, w: W, data: seq<byte>): Option<(W, seq<byte>)> {
    match DecodeArgs(e, InFormat(p.params), data)
    case None => None
    case Some((vals, _)) =>
      var out := f(w, vals);
      if FitFormat(InFormat(p.params), out.args) then
        Some((out.world, EncodeReply(e, RetIdOf(p.ret), out.ret, InFormat(p.params), out.args)))
      else None
  }

  /** The client's part of a reply: the value for the callback, none for a `void` function,
      and the variables afterwards. */
  function Accept(e: End, p: Prototype, data: seq<byte>, addresses: seq<Addr>, mem: Store): Option<(Option<nat>, Store)> {
    match SplitReply(RetIdOf(p.ret), data)
    case None => None
    case Some((r, outs)) =>
      match WriteOuts(e, OutFormat(p.params), outs, addresses, mem)
      case None => None
      case Some(mem') => Some((if p.ret.Void? then None else Some(DecodeNum(e, r)), mem'))
  }

  /** A local call that copies its arguments in and its results out. */
  function LocalCall<W>(p: Prototype, f: Impl<W>, w: W, vals: seq<Value>, actuals: seq<Actual>, mem: Store)
    : (W, Option<nat>, Store)
    requires |actuals| == |p.params|
  {
    var out := f(w, vals);
    (out.world,
     if p.ret.Void? then None else Some(out.ret),
     if |out.args| == |p.params| then CopyOut(p.params, actuals, out.args, mem) else mem)
  }

  /** What a call over the connection does in general: arguments and results are cut, and
      the results are stored through the remembered addresses. */
  function RemoteCall<W>(p: Prototype, f: Impl<W>, w: W, vals: seq<Value>, actuals: seq<Actual>, mem: Store)
    : (W, Option<nat>, Store)
    requires Addressed(p.params, actuals)
  {
    var out := f(w, WireAll(vals));
    (out.world,
     if p.ret.Void? then None else Some(out.ret),
     if |out.args| == |p.params| then
       StoreAll(AddressesOf(p.params, actuals), WireAll(Outs(p.params, out.args)), mem)
     else mem)
  }

  /** Every string and blob is shorter than 65536 bytes. */
  predicate Short(vals: seq<Value>) {
    forall i :: 0 <= i < |vals| && vals[i].Text? ==> |vals[i].chars| < TWO16
  }

  /** What is sent and what is returned is short, and no pointer to a constant comes before
      a by-reference parameter. */
  predicate Plain<W>(p: Prototype, f: Impl<W>, w: W, vals: seq<Value>) {
    && Aligned(p.params) && Short(vals)
    && |f(w, vals).args| == |p.params| && Short(Outs(p.params, f(w, vals).args))
  }

  lemma {:induction false} StorePrefix(addresses: seq<Addr>, vals: seq<Value>, mem: Store)
    requires |vals| <= |addresses|
    ensures StoreAll(addresses, vals, mem) == StoreAll(addresses[..|vals|], vals, mem)
  {
    if vals != [] {
      assert addresses[..|vals|][1..] == addresses[1..][..|vals| - 1];
      StorePrefix(addresses[1..], vals[1..], mem[addresses[0] := vals[0]]);
    }
  }

  /** Then the connection does not show. */
  lemma PlainIsLocal<W>(p: Prototype, f: Impl<W>, w: W, vals: seq<Value>, actuals: seq<Actual>, mem: Store)
    requires Addressed(p.params, actuals) && Plain(p, f, w, vals)
    ensures RemoteCall(p, f, w, vals, actuals, mem) == LocalCall(p, f, w, vals, actuals, mem)
  {
    var args, addresses := f(w, vals).args, AddressesOf(p.params, actuals);
    var outs := Outs(p.params, args);
    WireIsIdentity(vals);
    WireIsIdentity(outs);
    hide WireAll, Aligned, AddressesOf, Targets, Outs, StoreAll, CopyOut;
    TargetsRemembered(p.params, actuals);
    OutsLength(p.params, actuals, args);
    AlignedRoutes(p.params, actuals);
    StorePrefix(addresses, outs, mem);
    CopyOutIsStore(p.params, actuals, args, mem);
  }

  lemma WireFits(params: seq<Param>, vals: seq<Value>)
    requires FitAll(params, vals)
    ensures FitAll(params, WireAll(vals))
  {
  }

  /** The server performs a request on the values that were sent. */
  lemma PerformIsCall<W(!new)>(c: End, s: End, p: Prototype, f: Impl<W>, w: W, vals: seq<Value>)
    requires Reconciled(c, s) && Typed(p, f) && FitAll(p.params, vals)
    ensures var out := f(w, WireAll(vals));
            && FitFormat(InFormat(p.params), out.args)
            && FitAll(p.params, out.args) && RetFits(p.ret, out.ret) && out.ret < Pow256(RetSize(RetIdOf(p.ret)))
            && Perform(s, p, f, w, EncodeArgs(c, p.params, vals)) ==
               Some((out.world, EncodeReply(s, RetIdOf(p.ret), out.ret, InFormat(p.params), out.args)))
  {
    ArgsRoundTrip(c, s, p.params, vals);
    WireFits(p.params, vals);
    FormatFits(p.params, f(w, WireAll(vals)).args);
    RetFitsWidth(p.ret, f(w, WireAll(vals)).ret);
  }

  /** A call, serialized on the client as the variables are when it is issued, performed by
      the server, and accepted by the client later, is a remote call on the values passed; it is a
      local call on them when strings and blobs are short and no pointer to a constant is in the
      way. */
  lemma RemoteIsLocal<W(!new)>(c: End, s: End, p: Prototype, f: Impl<W>, w: W,
                               actuals: seq<Actual>, vals: seq<Value>, before: Store, after: Store)
    requires Reconciled(c, s) && Reconciled(s, c) && Typed(p, f) && WellCalled(p.params, actuals, before)
    requires Passes(before, actuals, vals)
    ensures var (request, addresses) := SerializeArgs(c, p.params, actuals, before);
            var (w', ret, mem) := RemoteCall(p, f, w, vals, actuals, after);
            var reply := Perform(s, p, f, w, request);
            && reply.Some? && reply.value.0 == w'
            && Accept(c, p, reply.value.1, addresses, after) == Some((ret, mem))
            && (Plain(p, f, w, vals) ==> (w', ret, mem) == LocalCall(p, f, w, vals, actuals, after))
  {
    ReadsPassed(before, actuals, vals);
    SerializedBytes(c, p.params, actuals, before);
    SerializedAddresses(c, p.params, actuals, before);
    hide Passes, ReadAll;
    PerformIsCall(c, s, p, f, w, vals);
    var out := f(w, WireAll(vals));
    ReplyRoundTrip(s, c, p, out.ret, out.args, actuals, after);
    hide Perform, Accept, SerializeArgs;
    if Plain(p, f, w, vals) {
      PlainIsLocal(p, f, w, vals, actuals, after);
    }
  }

  /** What reaches the caller of a function that returns something is what it returned, on the
      values that arrived; a `void` function gives nothing. */
  lemma ReturnArrives<W(!new)>(c: End, s: End, p: Prototype, f: Impl<W>, w: W,
                               actuals: seq<Actual>, vals: seq<Value>, before: Store, after: Store)
    requires Reconciled(c, s) && Reconciled(s, c) && Typed(p, f) && WellCalled(p.params, actuals, before)
    requires Passes(before, actuals, vals)
    ensures var (request, addresses) := SerializeArgs(c, p.params, actuals, before);
            var reply, out := Perform(s, p, f, w, request), f(w, WireAll(vals));
            && reply.Some? && reply.value.0 == out.world && RetFits(p.ret, out.ret)
            && var r := Accept(c, p, reply.value.1, addresses, after);
               r.Some? && r.value.0 == if p.ret == Void then None else Some(out.ret)
  {
    RemoteIsLocal(c, s, p, f, w, actuals, vals, before, after);
    hide Perform, Accept, SerializeArgs, StoreAll, AddressesOf, Passes, WellCalled;
    PassedFits(p.params, actuals, before, vals);
    PerformIsCall(c, s, p, f, w, vals);
    RetFitsWidth(p.ret, f(w, WireAll(vals)).ret);
  }

  lemma PassedFits(params: seq<Param>, actuals: seq<Actual>, mem: Store, vals: seq<Value>)
    requires WellCalled(params, actuals, mem) && Passes(mem, actuals, vals)
    ensures FitAll(params, vals)
  {
    ReadsPassed(mem, actuals, vals);
  }

  lemma ReplyRoundTrip(s: End, c: End, p: Prototype, ret: nat, vals: seq<Value>, actuals: seq<Actual>, mem: Store)
    requires Reconciled(s, c)
    requires FitAll(p.params, vals) && FitFormat(InFormat(p.params), vals) && RetFits(p.ret, ret)
    requires Addressed(p.params, actuals)
    ensures Accept(c, p, EncodeReply(s, RetIdOf(p.ret), ret, InFormat(p.params), vals),
                   AddressesOf(p.params, actuals), mem) ==
            Some((if p.ret.Void? then None else Some(ret),
                  StoreAll(AddressesOf(p.params, actuals), WireAll(Outs(p.params, vals)), mem)))
  {
    hide EncodeOuts, WriteOuts, DecodeNum, EncodeNum, StoreAll, OutFormat, AddressesOf, Outs;
    var r, size := RetIdOf(p.ret), RetSize(RetIdOf(p.ret));
    var head, outs := EncodeNum(s, ret, size), EncodeOuts(s, InFormat(p.params), vals);
    RetFitsWidth(p.ret, ret);
    Transfer(s, c, ret, size);
    TargetsRemembered(p.params, actuals);
    OutsLength(p.params, actuals, vals);
    OutsRoundTrip(s, c, p.params, vals, mem, AddressesOf(p.params, actuals));
    assert (head + outs)[..size] == head && (head + outs)[size..] == outs;
  }

  // A pointer to a constant before a by-reference parameter.

  lemma StringAndNumber(s: seq<byte>, n: nat)
    requires n < Pow256(4)
    ensures var params, actuals, vals := [ConstStringPtr, IntRef], [Variable(1), Variable(2)], [Text(s), Num(n)];
            && Addressed(params, actuals) && FitAll(params, vals)
            && AddressesOf(params, actuals) == [1, 2] && Outs(params, vals) == [Num(n)]
  {
    var params, actuals, vals := [ConstStringPtr, IntRef], [Variable(1), Variable(2)], [Text(s), Num(n)];
    assert params[1..] == [IntRef] && vals[1..] == [Num(n)] && actuals[1..] == [Variable(2)];
    assert Outs([IntRef], [Num(n)]) == [Num(n)] + Outs([], []);
    assert AddressesOf([IntRef], [Variable(2)]) == [2] + AddressesOf([], []);
  }

  /** The function `f(const std::string*, int&)`: the number is stored over the string. */
  lemma PointerToConstMisroutes(e: End, s: seq<byte>, n: nat)
    requires n < Pow256(4)
    ensures var params, actuals, vals := [ConstStringPtr, IntRef], [Variable(1), Variable(2)], [Text(s), Num(n)];
            && Addressed(params, actuals) && FitAll(params, vals) && FitFormat(InFormat(params), vals)
            && WriteOuts(e.(swapIn := e.swapOut), OutFormat(params), EncodeOuts(e, InFormat(params), vals),
                         AddressesOf(params, actuals), map[1 := Text(s), 2 := Num(0)]) == Some(map[1 := Num(n), 2 := Num(0)])
  {
    var params, vals := [ConstStringPtr, IntRef], [Text(s), Num(n)];
    var mem: Store := map[1 := Text(s), 2 := Num(0)];
    StringAndNumber(s, n);
    FormatFits(params, vals);
    assert WireAll([Num(n)]) == [Num(n)];
    var e' := e.(swapIn := e.swapOut);
    assert Reconciled(e, e');
    hide WriteOuts, EncodeOuts, OutFormat, InFormat, AddressesOf, Outs, FitAll, FitFormat, WireAll, StoreAll, Addressed, Reconciled;
    OutsRoundTrip(e, e', params, vals, mem, [1, 2]);
    StoreCons(1, [2], Num(n), [], mem);
    assert [1] + [2] == [1, 2] && [Num(n)] + [] == [Num(n)];
    StoreNothing([2], mem[1 := Num(n)]);
    assert mem[1 := Num(n)] == map[1 := Num(n), 2 := Num(0)];
  }

  lemma StoreNothing(addresses: seq<Addr>, mem: Store)
    ensures StoreAll(addresses, [], mem) == mem
  {
  }

  // Requests and replies are far shorter than what their size field can hold.

  lemma {:induction false} EncodeArgsLength(e: End, params: seq<Param>, vals: seq<Value>)
    requires FitAll(params, vals)
    ensures |EncodeArgs(e, params, vals)| <= |params| * 0x1_0002
  {
    if params != [] {
      EncodeArgsLength(e, params[1..], vals[1..]);
    }
  }

  lemma {:induction false} EncodeOutsLength(e: End, format: seq<InId>, vals: seq<Value>)
    requires FitFormat(format, vals)
    ensures |EncodeOuts(e, format, vals)| <= |format| * 0x1_0002
  {
    if format != [] {
      hide InKind, WritesBack;
      EncodeOutsLength(e, format[1..], vals[1..]);
    }
  }
}
