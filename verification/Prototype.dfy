/** The identification of a remote procedure: the text of its whole prototype. */
module PrototypeModule {
  import opened Bytes
  import opened ParamTypes

  datatype Prototype = Prototype(ret: Ret, name: string, params: seq<Param>)

  /** What `connect` gets from its caller: a C string without spaces, and at least one
      parameter (and no more than a compiler takes). */
  ghost predicate Connectable(p: Prototype) {
    PlainName(p.name) && 0 < |p.params| < 0x1_0000_0000
  }

  ghost predicate PlainName(name: string) {
    forall c :: c in name ==> 0 < c as int < 256 && c != ' '
  }

  function Stringify(params: seq<Param>): string
    requires params != []
  {
    if |params| == 1 then Name(params[0]) else Name(params[0]) + " " + Stringify(params[1..])
  }

  function Id(p: Prototype): string
    requires p.params != []
  {
    RetName(p.ret) + " " + p.name + " " + Stringify(p.params)
  }

  /** The same text as the bytes of a `std::string`. */
  function Ascii(s: string): (r: seq<byte>)
    ensures |r| == |s|
    ensures forall i :: 0 <= i < |s| ==> r[i] == s[i] as int % 256
  {
    seq(|s|, i requires 0 <= i < |s| => s[i] as int % 256)
  }

  function KeyOf(p: Prototype): seq<byte>
    requires p.params != []
  {
    Ascii(Id(p))
  }

  predicate IsBlob(p: Param) {
    p in {BlobRef, ConstBlobRef, BlobPtr, ConstBlobPtr}
  }

  /** Length, first and last character tell any two type names apart. */
  function Mark(s: string): int {
    if s == "" then 0 else |s| * 65536 + s[0] as int * 256 + s[|s| - 1] as int
  }

  function Code(p: Param): int {
    match p
    case Bool => 287340
    case Char => 287602
    case UChar => 357746
    case Short => 357236
    case UShort => 423284
    case Int => 223604
    case IntRef => 289062
    case UInt => 292212
    case Long => 289895
    case LongRef => 355366
    case ULong => 357735
    case Float => 353908
    case FloatRef => 419366
    case LongLong => 552039
    case LongLongRef => 617510
    case ULongLong => 619879
    case Double => 418917
    case DoubleRef => 484390
    case StringRef => 488230
    case ConstStringRef => 811814
    case StringPtr => 488234
    case ConstStringPtr => 811818
    case BlobRef => 1472038
    case ConstBlobRef => 1794854
    case BlobPtr => 1472042
    case ConstBlobPtr => 1794858
  }

  lemma NameMark(p: Param)
    ensures Mark(Name(p)) == Code(p)
  {
  }

  lemma NameInjective(p: Param, q: Param)
    requires Name(p) == Name(q)
    ensures p == q
  {
    NameMark(p);
    NameMark(q);
  }

  /** What may follow a token in an id: nothing, or a space and more. */
  predicate Tail(t: string) {
    t == "" || t[0] == ' '
  }

  /** Space-free first tokens of equal texts are equal. */
  lemma {:induction false} FirstToken(a: string, x: string, b: string, y: string)
    requires ' ' !in a && ' ' !in b && Tail(x) && Tail(y)
    requires a + x == b + y
    ensures a == b && x == y
  {
    assert a != [] ==> (a + x)[0] == a[0] && a[0] in a;
    assert b != [] ==> (b + y)[0] == b[0] && b[0] in b;
    if a != [] && b != [] {
      assert (a + x)[1..] == a[1..] + x && (b + y)[1..] == b[1..] + y;
      FirstToken(a[1..], x, b[1..], y);
    } else {
      assert [] + x == x && [] + y == y;
    }
  }

  /** The first token of a type name; only the names of blobs have a second one. */
  function Word(p: Param): string {
    match p
    case BlobRef => "vector<unsigned"
    case BlobPtr => "vector<unsigned"
    case ConstBlobRef => "constvector<unsigned"
    case ConstBlobPtr => "constvector<unsigned"
    case _ => Name(p)
  }

  function Second(p: Param): string {
    match p
    case BlobRef => "char>&"
    case ConstBlobRef => "char>&"
    case BlobPtr => "char>*"
    case ConstBlobPtr => "char>*"
    case _ => ""
  }

  lemma PlainWords(p: Param)
    requires !IsBlob(p)
    ensures ' ' !in Name(p) && Word(p) == Name(p)
  {
  }

  lemma BlobWords(p: Param)
    requires IsBlob(p)
    ensures ' ' !in Word(p) && ' ' !in Second(p)
    ensures Name(p) == Word(p) + " " + Second(p)
  {
    match p {
      case BlobRef => assert Name(p) == "vector<unsigned" + " " + "char>&";
      case ConstBlobRef => assert Name(p) == "constvector<unsigned" + " " + "char>&";
      case BlobPtr => assert Name(p) == "vector<unsigned" + " " + "char>*";
      case ConstBlobPtr => assert Name(p) == "constvector<unsigned" + " " + "char>*";
    }
  }

  /** No plain type name is the first word of a blob's name. */
  lemma WordTellsBlob(p: Param, q: Param)
    requires Word(p) == Word(q)
    ensures IsBlob(p) == IsBlob(q)
  {
    assert |Word(p)| == |Word(q)|;
  }

  /** A name and what follows it, read word by word. */
  lemma FirstWord(p: Param, name: string, word: string, second: string, x: string) returns (x': string)
    requires name == Name(p) && word == Word(p) && second == Second(p) && Tail(x)
    ensures ' ' !in word && ' ' !in second && Tail(x') && name + x == word + x'
    ensures if IsBlob(p) then x' != "" && x'[1..] == second + x else x' == x
  {
    if IsBlob(p) {
      BlobWords(p);
      x' := " " + second + x;
    } else {
      PlainWords(p);
      x' := x;
    }
  }

  lemma SecondTellsBlob(p: Param, q: Param)
    requires IsBlob(p) && IsBlob(q) && Word(p) == Word(q) && Second(p) == Second(q)
    ensures Name(p) == Name(q)
  {
    BlobWords(p);
    BlobWords(q);
  }

  /** The names of the types form a uniquely decodable code, spaces included. */
  lemma NameCode(p: Param, np: string, x: string, q: Param, nq: string, y: string)
    requires np == Name(p) && nq == Name(q)
    requires Tail(x) && Tail(y) && np + x == nq + y
    ensures p == q && x == y
  {
    var wp, wq, sp, sq := Word(p), Word(q), Second(p), Second(q);
    var x' := FirstWord(p, np, wp, sp, x);
    var y' := FirstWord(q, nq, wq, sq, y);
    FirstToken(wp, x', wq, y');
    WordTellsBlob(p, q);
    if IsBlob(p) {
      FirstToken(sp, x, sq, y);
      SecondTellsBlob(p, q);
    }
    NameInjective(p, q);
  }

  function After(params: seq<Param>): (t: string)
    requires params != []
    ensures Tail(t)
  {
    if |params| == 1 then "" else " " + Stringify(params[1..])
  }

  lemma StringifySplit(ps: seq<Param>) returns (name: string)
    requires ps != []
    ensures name == Name(ps[0]) && Stringify(ps) == name + After(ps)
  {
    name := Name(ps[0]);
    if |ps| == 1 {
      assert name + "" == name;
    } else {
      assert name + " " + Stringify(ps[1..]) == name + After(ps);
    }
  }

  lemma {:induction false} StringifyInjective(ps: seq<Param>, qs: seq<Param>)
    requires ps != [] && qs != [] && Stringify(ps) == Stringify(qs)
    ensures ps == qs
  {
    var np := StringifySplit(ps);
    var nq := StringifySplit(qs);
    NameCode(ps[0], np, After(ps), qs[0], nq, After(qs));
    AfterSplit(ps);
    AfterSplit(qs);
    hide Name, Tail, Stringify, After;
    if |ps| > 1 {
      StringifyInjective(ps[1..], qs[1..]);
      assert ps == [ps[0]] + ps[1..] && qs == [qs[0]] + qs[1..];
    }
  }

  lemma AfterSplit(ps: seq<Param>)
    requires ps != []
    ensures if |ps| == 1 then After(ps) == "" else After(ps) != "" && After(ps)[1..] == Stringify(ps[1..])
  {
    hide Name;
  }

  lemma RetNames(r: Ret, q: Ret)
    ensures ' ' !in RetName(r)
    ensures RetName(r) == RetName(q) ==> r == q
  {
    assert RetName(r) == RetName(q) ==>
           RetName(r)[0] == RetName(q)[0] && |RetName(r)| == |RetName(q)|;
  }

  lemma IdTokens(r: string, n: string, ps: string, r': string, n': string, ps': string)
    requires ' ' !in r && ' ' !in n && ' ' !in r' && ' ' !in n'
    requires r + " " + n + " " + ps == r' + " " + n' + " " + ps'
    ensures r == r' && n == n' && ps == ps'
  {
    var x, y := " " + n + " " + ps, " " + n' + " " + ps';
    assert r + " " + n + " " + ps == r + x && r' + " " + n' + " " + ps' == r' + y;
    FirstToken(r, x, r', y);
    assert x[1..] == n + (" " + ps) && y[1..] == n' + (" " + ps');
    FirstToken(n, " " + ps, n', " " + ps');
    assert (" " + ps)[1..] == ps && (" " + ps')[1..] == ps';
  }

  /** Overloading is safe: equal ids mean equal return type, name and parameter list. */
  lemma IdInjective(p: Prototype, q: Prototype)
    requires p.params != [] && q.params != [] && ' ' !in p.name && ' ' !in q.name
    requires Id(p) == Id(q)
    ensures p == q
  {
    RetNames(p.ret, q.ret);
    RetNames(q.ret, p.ret);
    IdTokens(RetName(p.ret), p.name, Stringify(p.params), RetName(q.ret), q.name, Stringify(q.params));
    StringifyInjective(p.params, q.params);
  }

  /** With a space in the function name, two different prototypes may share an id. */
  lemma SpacedNameCollides()
    ensures Id(Prototype(Void, "f int", [Int])) == Id(Prototype(Void, "f", [Int, Int]))
  {
    assert Stringify([Int]) == "int";
    assert [Int, Int][1..] == [Int];
    assert Stringify([Int, Int]) == "int" + " " + "int";
  }

  ghost predicate Printable(s: string) {
    forall c :: c in s ==> 0 < c as int < 256
  }

  lemma AsciiAt(s: string, i: nat)
    requires Printable(s) && i < |s|
    ensures Ascii(s)[i] == s[i] as int != 0
  {
    assert s[i] in s;
  }

  lemma AsciiFacts(s: string, t: string)
    requires Printable(s) && Printable(t)
    ensures 0 !in Ascii(s)
    ensures Ascii(s) == Ascii(t) ==> s == t
  {
    forall i | 0 <= i < |s| ensures Ascii(s)[i] == s[i] as int != 0 {
      AsciiAt(s, i);
    }
    forall i | 0 <= i < |t| ensures Ascii(t)[i] == t[i] as int {
      AsciiAt(t, i);
    }
    if Ascii(s) == Ascii(t) {
      assert |s| == |t|;
      assert forall i :: 0 <= i < |s| ==> s[i] as int == Ascii(s)[i] == Ascii(t)[i] == t[i] as int;
    }
  }

  lemma PrintableName(p: Param)
    ensures Printable(Name(p))
  {
  }

  lemma PrintableRet(r: Ret)
    ensures Printable(RetName(r))
  {
  }

  lemma {:induction false} PrintableList(ps: seq<Param>)
    requires ps != []
    ensures Printable(Stringify(ps))
  {
    PrintableName(ps[0]);
    hide Name;
    if |ps| > 1 { PrintableList(ps[1..]); }
  }

  lemma PrintableId(p: Prototype)
    requires Connectable(p)
    ensures Printable(Id(p))
  {
    PrintableRet(p.ret);
    PrintableList(p.params);
    hide RetName, Stringify;
  }

  /** Keys can be framed, and two procedures share a key only when they are the same. */
  lemma KeyFacts(p: Prototype, q: Prototype)
    requires Connectable(p) && Connectable(q)
    ensures 0 !in KeyOf(p)
    ensures KeyOf(p) == KeyOf(q) ==> p == q
  {
    PrintableId(p);
    PrintableId(q);
    AsciiFacts(Id(p), Id(q));
    if KeyOf(p) == KeyOf(q) {
      IdInjective(p, q);
    }
  }

  /** A function name without spaces is never the key of a procedure: keys hold two. */
  lemma BareNameMisses(name: string, p: Prototype)
    requires PlainName(name) && Connectable(p)
    ensures Ascii(name) != KeyOf(p)
  {
    PrintableId(p);
    AsciiFacts(name, Id(p));
    assert Id(p)[|RetName(p.ret)|] == ' ';
    assert ' ' in Id(p);
  }
}
