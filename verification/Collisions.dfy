/** Which prototypes share an id, when function names may hold spaces. */
module Collisions {
  import opened ParamTypes
  import opened PrototypeModule

  /** The name of q is that of p and the first parameters of p, which q lacks. */
  predicate Shifted(p: Prototype, q: Prototype) {
    && 0 < |q.params| < |p.params|
    && var k := |p.params| - |q.params|;
       p.params[k..] == q.params && q.name == p.name + " " + Stringify(p.params[..k])
  }

  lemma {:induction false} StringifyConcat(ps: seq<Param>, k: nat)
    requires 0 < k < |ps|
    ensures Stringify(ps) == Stringify(ps[..k]) + " " + Stringify(ps[k..])
  {
    hide Name;
    if k == 1 {
      assert ps[..1][0] == ps[0];
    } else {
      StringifyConcat(ps[1..], k - 1);
      assert ps[1..][..k - 1] == ps[..k][1..] && ps[1..][k - 1..] == ps[k..] && ps[..k][0] == ps[0];
      Regroup(Name(ps[0]), Stringify(ps[..k][1..]), Stringify(ps[k..]));
    }
  }

  lemma Regroup(a: string, b: string, c: string)
    ensures a + " " + (b + " " + c) == a + " " + b + " " + c
  {
  }

  /** No type name begins with the second word of a blob's name. */
  lemma SecondIsNoWord(p: Param, q: Param)
    requires IsBlob(p)
    ensures Second(p) != Word(q)
  {
    assert |Second(p)| == 6 && Second(p)[4] == '>';
    assert |Word(q)| == 6 ==> Word(q)[4] != '>';
  }

  /** A suffix of a parameter list's text that is the text of a parameter list begins where a
      parameter begins, not inside the name of a blob. */
  lemma SuffixAtWord(p: Param, name: string, x: string, w: string, q: Param, nq: string, y: string)
    requires name == Name(p) && nq == Name(q) && Tail(x) && Tail(y) && name + x == w + " " + (nq + y)
    ensures |w| >= |name|
  {
    if |w| < |name| {
      assert name[|w|] == ' ' by { assert (w + " " + (nq + y))[|w|] == ' '; }
      InsideBlob(p, name, w);
      var second, word := Second(p), Word(q);
      SecondIsNoWord(p, q);
      BlobParts(p, name, second);
      var y' := FirstWord(q, nq, word, Second(q), y);
      assert second + x == nq + y by {
        assert name[|w| + 1..] == second;
        assert (name + x)[|w| + 1..] == second + x;
        assert (w + " " + (nq + y))[|w| + 1..] == nq + y;
      }
      hide Name, Word, Second;
      FirstToken(second, x, word, y');
      assert false;
    }
  }

  lemma BlobParts(p: Param, name: string, second: string)
    requires IsBlob(p) && name == Name(p) && second == Second(p)
    ensures ' ' !in second && |name| == |Word(p)| + 1 + |second| && name[|Word(p)| + 1..] == second
  {
    BlobWords(p);
  }

  lemma SpaceAt(word: string, second: string, name: string, i: nat)
    requires name == word + " " + second && ' ' !in word && ' ' !in second && i < |name|
    ensures name[i] == ' ' ==> i == |word|
  {
    if i < |word| {
      assert name[i] == word[i] && word[i] in word;
    } else if i > |word| {
      assert name[i] == second[i - |word| - 1] && second[i - |word| - 1] in second;
    }
  }

  /** The only space in a type name is the one of a blob. */
  lemma InsideBlob(p: Param, name: string, w: string)
    requires name == Name(p) && |w| < |name| && name[|w|] == ' '
    ensures IsBlob(p) && |w| == |Word(p)|
  {
    assert name[|w|] in name;
    assert IsBlob(p) by {
      assert !IsBlob(p) ==> ' ' !in Name(p);
    }
    BlobWords(p);
    SpaceAt(Word(p), Second(p), name, |w|);
  }

  lemma {:induction false} CutList(ps: seq<Param>, w: string, qs: seq<Param>)
    requires ps != [] && qs != [] && Stringify(ps) == w + " " + Stringify(qs)
    ensures |qs| < |ps| && ps[|ps| - |qs|..] == qs && w == Stringify(ps[..|ps| - |qs|])
  {
    hide Name, Stringify;
    var name, v := HeadCut(ps, w, qs);
    if w == name {
      StringifyInjective(ps[1..], qs);
      CutHere(ps, qs);
    } else {
      CutList(ps[1..], v, qs);
      CutLater(ps, qs, name, v);
    }
  }

  /** The first parameter, and what is before the cut behind it. */
  lemma HeadCut(ps: seq<Param>, w: string, qs: seq<Param>) returns (name: string, v: string)
    requires ps != [] && qs != [] && Stringify(ps) == w + " " + Stringify(qs)
    ensures name == Name(ps[0]) && |ps| > 1
    ensures if w == name then Stringify(ps[1..]) == Stringify(qs)
            else w == name + " " + v && Stringify(ps[1..]) == v + " " + Stringify(qs)
  {
    name := HeadWithin(ps, w, qs);
    AfterSplit(ps);
    hide Name, Stringify, After;
    NextPart(name, After(ps), w, Stringify(qs));
    v := if |w| > |name| then w[|name| + 1..] else "";
  }

  lemma HeadWithin(ps: seq<Param>, w: string, qs: seq<Param>) returns (name: string)
    requires ps != [] && qs != [] && Stringify(ps) == w + " " + Stringify(qs)
    ensures name == Name(ps[0]) && Stringify(ps) == name + After(ps) && |w| >= |name|
  {
    hide Name;
    name := StringifySplit(ps);
    var nq := StringifySplit(qs);
    hide Stringify, After;
    SuffixAtWord(ps[0], name, After(ps), w, qs[0], nq, After(qs));
  }

  lemma CutLater(ps: seq<Param>, qs: seq<Param>, name: string, v: string)
    requires ps != [] && 0 < |qs| < |ps[1..]| && ps[1..][|ps[1..]| - |qs|..] == qs && name == Name(ps[0])
    requires v == Stringify(ps[1..][..|ps[1..]| - |qs|])
    ensures ps[|ps| - |qs|..] == qs && name + " " + v == Stringify(ps[..|ps| - |qs|])
  {
    hide Name;
    var k := |ps| - |qs|;
    assert ps[1..][k - 1..] == ps[k..] && ps[1..][..k - 1] == ps[..k][1..];
    MoreNames(ps, k);
  }

  lemma NextPart(name: string, x: string, w: string, s: string)
    requires name + x == w + " " + s && |w| >= |name| && Tail(x)
    ensures x != ""
    ensures |w| == |name| ==> w == name && x[1..] == s
    ensures |w| > |name| ==> w == name + " " + w[|name| + 1..] && x[1..] == w[|name| + 1..] + " " + s
  {
    var all := name + x;
    assert all[..|name|] == name && all[|name|..] == x;
    assert all[..|name|] == w[..|name|];
    if |w| == |name| {
      assert all[|name| + 1..] == s;
    } else {
      assert all[|name|] == w[|name|] == x[0];
      assert all[|name| + 1..] == w[|name| + 1..] + " " + s;
    }
  }

  lemma CutHere(ps: seq<Param>, qs: seq<Param>)
    requires |ps| > 1 && ps[1..] == qs
    ensures |qs| < |ps| && ps[|ps| - |qs|..] == qs && Stringify(ps[..|ps| - |qs|]) == Name(ps[0])
  {
    hide Name;
    assert ps[..1][0] == ps[0];
  }

  lemma MoreNames(ps: seq<Param>, k: nat)
    requires 1 < k <= |ps|
    ensures Stringify(ps[..k]) == Name(ps[0]) + " " + Stringify(ps[..k][1..])
  {
    hide Name;
  }

  /** Two prototypes share an id if and only if they are equal, or return the same type and the
      name of one is the name of the other followed by the parameters that it has more. */
  lemma IdExactly(p: Prototype, q: Prototype)
    requires p.params != [] && q.params != []
    ensures Id(p) == Id(q) <==> p == q || (p.ret == q.ret && (Shifted(p, q) || Shifted(q, p)))
  {
    hide Shifted, Id;
    if Id(p) == Id(q) {
      SameId(p, q);
    }
    if p.ret == q.ret && Shifted(p, q) {
      ShiftedId(p, q);
    }
    if p.ret == q.ret && Shifted(q, p) {
      ShiftedId(q, p);
    }
  }

  /** A function name that ends in the text of a parameter list. */
  ghost predicate EndsIn(name: string, front: string, ps: seq<Param>) {
    ps != [] && name == front + " " + Stringify(ps)
  }

  ghost predicate Collides(p: Prototype, q: Prototype) {
    p.params != [] && q.params != [] && p != q && Id(p) == Id(q)
  }

  /** Some other prototype shares the id of p if and only if p has two parameters or more, or its
      name ends in a parameter list. */
  lemma CollisionExactly(p: Prototype)
    requires p.params != []
    ensures (exists q :: Collides(p, q)) <==> |p.params| > 1 || exists front, ps :: EndsIn(p.name, front, ps)
  {
    hide Id, Stringify, Shifted;
    if q :| Collides(p, q) {
      IdExactly(p, q);
      if Shifted(q, p) {
        var ps := NameEnds(q, p);
        assert EndsIn(p.name, q.name, ps);
      } else {
        MoreThanOne(p, q);
      }
    }
    if |p.params| > 1 {
      var q := FewerParams(p);
      IdExactly(p, q);
      assert Collides(p, q);
    }
    if front, ps :| EndsIn(p.name, front, ps) {
      var q := MoreParams(p, front, ps);
      IdExactly(p, q);
      assert Collides(p, q);
    }
  }

  lemma NameEnds(p: Prototype, q: Prototype) returns (ps: seq<Param>)
    requires Shifted(p, q)
    ensures EndsIn(q.name, p.name, ps)
  {
    ps := p.params[..|p.params| - |q.params|];
  }

  lemma MoreThanOne(p: Prototype, q: Prototype)
    requires Shifted(p, q)
    ensures |p.params| > 1
  {
  }

  /** The first parameter is moved into the name. */
  lemma FewerParams(p: Prototype) returns (q: Prototype)
    requires |p.params| > 1
    ensures q.params != [] && q.ret == p.ret && q != p && Shifted(p, q)
  {
    q := Prototype(p.ret, p.name + " " + Stringify(p.params[..1]), p.params[1..]);
  }

  /** The parameter list at the end of the name is moved out of it. */
  lemma MoreParams(p: Prototype, front: string, ps: seq<Param>) returns (q: Prototype)
    requires p.params != [] && EndsIn(p.name, front, ps)
    ensures q.params != [] && q.ret == p.ret && q != p && Shifted(q, p)
  {
    hide Stringify;
    q := Prototype(p.ret, front, ps + p.params);
    assert q.params[|ps|..] == p.params && q.params[..|ps|] == ps;
  }

  lemma ShiftedId(p: Prototype, q: Prototype)
    requires p.ret == q.ret && Shifted(p, q)
    ensures Id(p) == Id(q)
  {
    var k := |p.params| - |q.params|;
    StringifyConcat(p.params, k);
    hide RetName, Stringify;
    ShiftedText(RetName(p.ret), p.name, Stringify(p.params[..k]), Stringify(q.params), q.name, Stringify(p.params));
  }

  lemma ShiftedText(r: string, n: string, a: string, b: string, n': string, s: string)
    requires n' == n + " " + a && s == a + " " + b
    ensures r + " " + n + " " + s == r + " " + n' + " " + b
  {
    assert r + " " + n + " " + (a + " " + b) == r + " " + n + " " + a + " " + b;
    assert r + " " + (n + " " + a) == r + " " + n + " " + a;
  }

  lemma SameId(p: Prototype, q: Prototype)
    requires p.params != [] && q.params != [] && Id(p) == Id(q)
    ensures p == q || (p.ret == q.ret && (Shifted(p, q) || Shifted(q, p)))
  {
    RetNames(p.ret, q.ret);
    RetNames(q.ret, p.ret);
    hide RetName, Stringify, Shifted;
    SameRest(RetName(p.ret), p.name, Stringify(p.params), RetName(q.ret), q.name, Stringify(q.params));
    if |p.name| <= |q.name| {
      SameText(p, q);
    } else {
      SameText(q, p);
    }
  }

  lemma SameRest(r: string, n: string, ps: string, r': string, n': string, ps': string)
    requires ' ' !in r && ' ' !in r' && r + " " + n + " " + ps == r' + " " + n' + " " + ps'
    ensures r == r' && n + " " + ps == n' + " " + ps'
  {
    var x, y := " " + n + " " + ps, " " + n' + " " + ps';
    assert r + " " + n + " " + ps == r + x && r' + " " + n' + " " + ps' == r' + y;
    FirstToken(r, x, r', y);
    assert x[1..] == n + " " + ps && y[1..] == n' + " " + ps';
  }

  lemma SameText(p: Prototype, q: Prototype)
    requires p.params != [] && q.params != [] && p.ret == q.ret && |p.name| <= |q.name|
    requires p.name + " " + Stringify(p.params) == q.name + " " + Stringify(q.params)
    ensures p == q || Shifted(p, q)
  {
    hide Stringify, Shifted;
    var w := CutText(p.name, Stringify(p.params), q.name, Stringify(q.params));
    if p.name == q.name {
      StringifyInjective(p.params, q.params);
    } else {
      CutList(p.params, w, q.params);
      IsShifted(p, q, w);
    }
  }

  lemma IsShifted(p: Prototype, q: Prototype, w: string)
    requires 0 < |q.params| < |p.params| && p.params[|p.params| - |q.params|..] == q.params
    requires q.name == p.name + " " + w && w == Stringify(p.params[..|p.params| - |q.params|])
    ensures Shifted(p, q)
  {
    hide Stringify;
  }

  lemma CutText(n: string, s: string, n': string, t: string) returns (w: string)
    requires n + " " + s == n' + " " + t && |n| <= |n'|
    ensures if n == n' then s == t else n' == n + " " + w && s == w + " " + t
  {
    Cut(n, s, n', t);
    w := if |n| < |n'| then n'[|n| + 1..] else "";
  }

  lemma Cut(n: string, s: string, n': string, t: string)
    requires n + " " + s == n' + " " + t && |n| <= |n'|
    ensures |n| == |n'| ==> n == n' && s == t
    ensures |n| < |n'| ==> n' == n + " " + n'[|n| + 1..] && s == n'[|n| + 1..] + " " + t
  {
    var all := n + " " + s;
    assert all[..|n|] == n && all[|n|] == ' ' && all[|n| + 1..] == s;
    assert all[..|n|] == n'[..|n|];
    if |n| == |n'| {
      assert all[|n| + 1..] == t;
    } else {
      assert all[|n|] == n'[|n|];
      assert all[|n| + 1..] == n'[|n| + 1..] + " " + t;
    }
  }
}
