/** The table of parameter types: the C++ shape of each, its printed name, and the ids that
    the marshaller switches on. */
module ParamTypes {
  import opened Bytes

  /** The parameter types of the `ParamType` table (64-bit build, binary protocol). */
  datatype Param =
    | Bool | Char | UChar | Short | UShort
    | Int | IntRef | UInt | Long | LongRef | ULong | Float | FloatRef
    | LongLong | LongLongRef | ULongLong | Double | DoubleRef
    | StringRef | ConstStringRef | StringPtr | ConstStringPtr
    | BlobRef | ConstBlobRef | BlobPtr | ConstBlobPtr

  datatype Ret = Void | RInt | RLong | RFloat | RLongLong | RDouble

  datatype InId =
    | WRONG | BOOL | CHAR | UCHAR | SHORT | USHORT | INT | UINT | LONG | ULONG | FLOAT
    | CONST_STRING_REF | CONST_BLOB_REF | INT_REF | LONG_REF | FLOAT_REF | STRING_REF | BLOB_REF
    | VOID | LONGLONG | ULONGLONG | LONGLONG_REF | DOUBLE | DOUBLE_REF

  datatype OutId =
    | O_WRONG | O_INT_REF | O_LONG_REF | O_FLOAT_REF | O_STRING_REF | O_BLOB_REF
    | O_VOID | O_LONGLONG_REF | O_DOUBLE_REF

  datatype RetId = R_WRONG | R_INT | R_LONG | R_FLOAT | R_LONGLONG | R_DOUBLE | R_VOID

  /** How a type travels: a number of a fixed width, or counted bytes. */
  datatype Kind = Number(width: nat) | Counted

  function Name(p: Param): string {
    match p
    case Bool => "bool"
    case Char => "char"
    case UChar => "uchar"
    case Short => "short"
    case UShort => "ushort"
    case Int => "int"
    case IntRef => "int&"
    case UInt => "uint"
    case Long => "long"
    case LongRef => "long&"
    case ULong => "ulong"
    case Float => "float"
    case FloatRef => "float&"
    case LongLong => "longlong"
    case LongLongRef => "longlong&"
    case ULongLong => "ulonglong"
    case Double => "double"
    case DoubleRef => "double&"
    case StringRef => "string&"
    case ConstStringRef => "conststring&"
    case StringPtr => "string*"
    case ConstStringPtr => "conststring*"
    case BlobRef => "vector<unsigned char>&"
    case ConstBlobRef => "constvector<unsigned char>&"
    case BlobPtr => "vector<unsigned char>*"
    case ConstBlobPtr => "constvector<unsigned char>*"
  }

  function RetName(r: Ret): string {
    match r
    case Void => "void"
    case RInt => "int"
    case RLong => "long"
    case RFloat => "float"
    case RLongLong => "longlong"
    case RDouble => "double"
  }

  function InIdOf(p: Param): InId {
    match p
    case Bool => BOOL
    case Char => CHAR
    case UChar => UCHAR
    case Short => SHORT
    case UShort => USHORT
    case Int => INT
    case IntRef => INT_REF
    case UInt => UINT
    case Long => LONG
    case LongRef => LONG_REF
    case ULong => ULONG
    case Float => FLOAT
    case FloatRef => FLOAT_REF
    case LongLong => LONGLONG
    case LongLongRef => LONGLONG_REF
    case ULongLong => ULONGLONG
    case Double => DOUBLE
    case DoubleRef => DOUBLE_REF
    case StringRef => STRING_REF
    case ConstStringRef => CONST_STRING_REF
    case StringPtr => STRING_REF
    case ConstStringPtr => CONST_STRING_REF
    case BlobRef => BLOB_REF
    case ConstBlobRef => CONST_BLOB_REF
    case BlobPtr => BLOB_REF
    case ConstBlobPtr => CONST_BLOB_REF
  }

  function OutIdOf(p: Param): OutId {
    match p
    case IntRef => O_INT_REF
    case LongRef => O_LONG_REF
    case FloatRef => O_FLOAT_REF
    case LongLongRef => O_LONGLONG_REF
    case DoubleRef => O_DOUBLE_REF
    case StringRef => O_STRING_REF
    case StringPtr => O_STRING_REF
    case BlobRef => O_BLOB_REF
    case BlobPtr => O_BLOB_REF
    case _ => O_WRONG
  }

  function RetIdOf(r: Ret): RetId {
    match r
    case Void => R_VOID
    case RInt => R_INT
    case RLong => R_LONG
    case RFloat => R_FLOAT
    case RLongLong => R_LONGLONG
    case RDouble => R_DOUBLE
  }

  // The shape of the C++ type, which `serialize_args` looks at.

  predicate IsReference(p: Param) {
    p in {IntRef, LongRef, FloatRef, LongLongRef, DoubleRef, StringRef, ConstStringRef, BlobRef, ConstBlobRef}
  }

  predicate IsConstReference(p: Param) {
    p in {ConstStringRef, ConstBlobRef}
  }

  predicate IsPointer(p: Param) {
    p in {StringPtr, ConstStringPtr, BlobPtr, ConstBlobPtr}
  }

  /** A pointer to a constant takes an argument that is a pointer to a variable. */
  predicate PointsToConst(p: Param) {
    p == ConstStringPtr || p == ConstBlobPtr
  }

  /** The parameters that carry a result back. */
  predicate Returned(p: Param) {
    OutIdOf(p) != O_WRONG
  }

  /** The bytes that a parameter's value has in memory. */
  function KindOf(p: Param): Kind {
    match p
    case Bool => Number(1)
    case Char => Number(1)
    case UChar => Number(1)
    case Short => Number(2)
    case UShort => Number(2)
    case Int => Number(4)
    case IntRef => Number(4)
    case UInt => Number(4)
    case Float => Number(4)
    case FloatRef => Number(4)
    case Long => Number(8)
    case LongRef => Number(8)
    case ULong => Number(8)
    case LongLong => Number(8)
    case LongLongRef => Number(8)
    case ULongLong => Number(8)
    case Double => Number(8)
    case DoubleRef => Number(8)
    case _ => Counted
  }

  /** What the switch in `deserialize_in_args` reads for an id. */
  function InKind(id: InId): Option<Kind> {
    match id
    case BOOL => Some(Number(1))
    case UCHAR => Some(Number(1))
    case CHAR => Some(Number(1))
    case USHORT => Some(Number(2))
    case SHORT => Some(Number(2))
    case INT => Some(Number(4))
    case UINT => Some(Number(4))
    case INT_REF => Some(Number(4))
    case LONG => Some(Number(8))
    case ULONG => Some(Number(8))
    case LONG_REF => Some(Number(8))
    case FLOAT => Some(Number(4))
    case FLOAT_REF => Some(Number(4))
    case CONST_STRING_REF => Some(Counted)
    case STRING_REF => Some(Counted)
    case CONST_BLOB_REF => Some(Counted)
    case BLOB_REF => Some(Counted)
    case LONGLONG => Some(Number(8))
    case ULONGLONG => Some(Number(8))
    case LONGLONG_REF => Some(Number(8))
    case DOUBLE => Some(Number(8))
    case DOUBLE_REF => Some(Number(8))
    case WRONG => None
    case VOID => None
  }

  /** What the switch in `deserialize_out_args` reads for an id. */
  function OutKind(id: OutId): Option<Kind> {
    match id
    case O_INT_REF => Some(Number(4))
    case O_LONG_REF => Some(Number(8))
    case O_FLOAT_REF => Some(Number(4))
    case O_STRING_REF => Some(Counted)
    case O_BLOB_REF => Some(Counted)
    case O_LONGLONG_REF => Some(Number(8))
    case O_DOUBLE_REF => Some(Number(8))
    case O_WRONG => None
    case O_VOID => None
  }

  /** The size that `unmarshall_out_args` splits off for the returned value. */
  function RetSize(id: RetId): nat {
    match id
    case R_INT => 4
    case R_LONG => 8
    case R_FLOAT => 4
    case R_LONGLONG => 8
    case R_DOUBLE => 8
    case _ => 0
  }

  /** The cases of `serialize_out_args` that write to the reply. */
  predicate WritesBack(id: InId) {
    id in {INT_REF, LONG_REF, FLOAT_REF, STRING_REF, BLOB_REF, DOUBLE_REF, LONGLONG_REF}
  }

  predicate BeginsConst(n: string) {
    |n| > 5 && n[..5] == "const"
  }

  lemma ConstByName(p: Param)
    ensures BeginsConst(Name(p)) <==> p in {ConstStringRef, ConstStringPtr, ConstBlobRef, ConstBlobPtr}
  {
    var n := Name(p);
    if |n| > 5 {
      assert n[..5][0] == n[0] && n[..5][1] == n[1] && "const"[0] == 'c' && "const"[1] == 'o';
      if n[0] == 'c' && n[1] == 'o' {
        assert n[..5] == "const";
      }
    }
  }

  /** The shape of a type can be told from its name: references end in `&`, pointers in `*`, and
      what points to a constant begins with `const`; a result comes back through the others. */
  lemma ShapeByName(p: Param)
    ensures var n := Name(p);
            && |n| > 0
            && (IsReference(p) <==> n[|n| - 1] == '&') && (IsPointer(p) <==> n[|n| - 1] == '*')
            && (IsConstReference(p) <==> n[|n| - 1] == '&' && BeginsConst(n))
            && (PointsToConst(p) <==> n[|n| - 1] == '*' && BeginsConst(n))
            && (Returned(p) <==> (n[|n| - 1] == '&' || n[|n| - 1] == '*') && !BeginsConst(n))
  {
    ConstByName(p);
    hide BeginsConst;
  }

  /** A returned type has the name and the width of the parameter of the same type. */
  lemma ReturnedLikeParam()
    ensures RetName(RInt) == Name(Int) && Number(RetSize(RetIdOf(RInt))) == KindOf(Int)
    ensures RetName(RLong) == Name(Long) && Number(RetSize(RetIdOf(RLong))) == KindOf(Long)
    ensures RetName(RFloat) == Name(Float) && Number(RetSize(RetIdOf(RFloat))) == KindOf(Float)
    ensures RetName(RLongLong) == Name(LongLong) && Number(RetSize(RetIdOf(RLongLong))) == KindOf(LongLong)
    ensures RetName(RDouble) == Name(Double) && Number(RetSize(RetIdOf(RDouble))) == KindOf(Double)
    ensures RetName(Void) == "void" && RetSize(RetIdOf(Void)) == 0
  {
  }

  /** Server and client tables read every parameter the way it is written. */
  lemma TablesAgree(p: Param)
    ensures InKind(InIdOf(p)) == Some(KindOf(p))
    ensures OutIdOf(p) != O_WRONG ==> OutKind(OutIdOf(p)) == Some(KindOf(p))
  {
  }
}
