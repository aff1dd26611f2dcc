/** The registry of procedures: a hash map for lookup by name, and a linked list that owns
    the entries.  T stands for a pointer to a stub or skeleton. */
module Registry {
  import opened Bytes
  import opened Frame

  datatype Node<T> = Node(name: Key, item: T)

  /** Linear search by name. */
  function Search<T>(list: seq<Node<T>>, name: Key): Option<T> {
    if list == [] then None
    else if list[0].name == name then Some(list[0].item)
    else Search(list[1..], name)
  }

  function Lookup<T>(m: map<Key, Option<T>>, name: Key): Option<T> {
    if name in m then m[name] else None
  }

  /** The list without the first node of that name. */
  function Without<T>(list: seq<Node<T>>, name: Key): seq<Node<T>> {
    if list == [] then []
    else if list[0].name == name then list[1..]
    else [list[0]] + Without(list[1..], name)
  }

  /** Map and list are in bijection; a null entry of the map has no node. */
  ghost predicate Bijective<T>(m: map<Key, Option<T>>, list: seq<Node<T>>) {
    && (forall i :: 0 <= i < |list| ==> list[i].name in m && m[list[i].name] == Some(list[i].item))
    && (forall i, j :: 0 <= i < j < |list| ==> list[i].name != list[j].name)
    && (forall k :: k in m && m[k].Some? ==> exists i :: 0 <= i < |list| && list[i].name == k)
  }

  /** Hashed lookup equals linear search by name. */
  lemma {:induction false} LookupIsSearch<T>(m: map<Key, Option<T>>, list: seq<Node<T>>, name: Key)
    requires Bijective(m, list)
    ensures Lookup(m, name) == Search(list, name)
  {
    SearchFinds(list, name);
    if name in m && m[name].Some? {
      var i :| 0 <= i < |list| && list[i].name == name;
    }
  }

  lemma {:induction false} SearchFinds<T>(list: seq<Node<T>>, name: Key)
    ensures Search(list, name).None? ==> forall i :: 0 <= i < |list| ==> list[i].name != name
    ensures Search(list, name).Some? ==> exists i :: 0 <= i < |list| && list[i] == Node(name, Search(list, name).value)
  {
    if list != [] {
      SearchFinds(list[1..], name);
      if list[0].name == name {
        assert list[0] == Node(name, Search(list, name).value);
      } else if Search(list, name).Some? {
        var j :| 0 <= j < |list[1..]| && list[1..][j] == Node(name, Search(list, name).value);
        assert list[j + 1] == Node(name, Search(list, name).value);
      }
    }
  }

  lemma {:induction false} WithoutAt<T>(list: seq<Node<T>>, name: Key, i: nat)
    requires i < |list| && list[i].name == name && forall j :: 0 <= j < i ==> list[j].name != name
    ensures Without(list, name) == list[..i] + list[i + 1..]
  {
    if i > 0 {
      WithoutAt(list[1..], name, i - 1);
      assert list[1..][..i - 1] == list[1..i] && list[1..][i..] == list[i + 1..];
      assert [list[0]] + list[1..i] == list[..i];
    }
  }

  lemma {:induction false} WithoutNone<T>(list: seq<Node<T>>, name: Key)
    requires forall j :: 0 <= j < |list| ==> list[j].name != name
    ensures Without(list, name) == list
  {
    if list != [] { WithoutNone(list[1..], name); }
  }

  lemma InsertBijective<T>(m: map<Key, Option<T>>, list: seq<Node<T>>, name: Key, item: T)
    requires Bijective(m, list) && name !in m
    ensures Bijective(m[name := Some(item)], [Node(name, item)] + list)
  {
    var m', list' := m[name := Some(item)], [Node(name, item)] + list;
    forall k | k in m' && m'[k].Some?
      ensures exists i :: 0 <= i < |list'| && list'[i].name == k
    {
      if k == name {
        assert list'[0].name == k;
      } else {
        var i :| 0 <= i < |list| && list[i].name == k;
        assert list'[i + 1].name == k;
      }
    }
  }

  lemma NullBijective<T>(m: map<Key, Option<T>>, list: seq<Node<T>>, name: Key)
    requires Bijective(m, list) && name !in m
    ensures Bijective(m[name := None], list)
  {
  }

  lemma RemoveBijective<T>(m: map<Key, Option<T>>, list: seq<Node<T>>, name: Key, i: nat)
    requires Bijective(m, list) && i < |list| && list[i].name == name
    ensures Bijective(m - {name}, list[..i] + list[i + 1..])
  {
    var m', list' := m - {name}, list[..i] + list[i + 1..];
    assert forall j :: 0 <= j < |list'| ==> list'[j] == list[if j < i then j else j + 1];
    forall k | k in m' && m'[k].Some?
      ensures exists j :: 0 <= j < |list'| && list'[j].name == k
    {
      var j :| 0 <= j < |list| && list[j].name == k;
      assert list'[if j < i then j else j - 1].name == k;
    }
  }

  class FunctionsRegistry<T(==)> {
    var functionsMap: map<Key, Option<T>>
    var functionsList: seq<Node<T>>

    ghost predicate Valid()
      reads this
    {
      Bijective(functionsMap, functionsList)
    }

    constructor ()
      ensures Valid() && functionsMap == map[] && functionsList == []
    {
      functionsMap, functionsList := map[], [];
    }

    /** An entry that exists is returned as it is, be it null; then no node is added. */
    method Insert(name: Key, item: T) returns (q: Option<T>)
      requires Valid()
      modifies this
      ensures Valid()
      ensures old(name in functionsMap) ==>
                functionsMap == old(functionsMap) && functionsList == old(functionsList) && q == old(functionsMap)[name]
      ensures old(name !in functionsMap) ==>
                && functionsMap == old(functionsMap)[name := Some(item)]
                && functionsList == [Node(name, item)] + old(functionsList) && q == Some(item)
    {
      if name in functionsMap {
        return functionsMap[name];
      }
      InsertBijective(functionsMap, functionsList, name, item);
      functionsList := [Node(name, item)] + functionsList;
      q := Some(item);
      functionsMap := functionsMap[name := q];
    }

    /** Erases the map entry and the first node of that name. */
    method Remove(name: Key)
      requires Valid()
      modifies this
      ensures Valid()
      ensures functionsMap == old(functionsMap) - {name}
      ensures functionsList == Without(old(functionsList), name)
    {
      var it := 0;
      while it < |functionsList| && functionsList[it].name != name
        invariant 0 <= it <= |functionsList|
        invariant forall j :: 0 <= j < it ==> functionsList[j].name != name
      {
        it := it + 1;
      }
      if it < |functionsList| {
        RemoveBijective(functionsMap, functionsList, name, it);
        WithoutAt(functionsList, name, it);
        functionsList := functionsList[..it] + functionsList[it + 1..];
      } else {
        WithoutNone(functionsList, name);
      }
      functionsMap := functionsMap - {name};
    }

    method Find(name: Key) returns (q: Option<T>)
      requires Valid()
      ensures q == Lookup(functionsMap, name) == Search(functionsList, name)
    {
      LookupIsSearch(functionsMap, functionsList, name);
      q := if name in functionsMap then functionsMap[name] else None;
    }

    /** Looking up an absent name inserts a null entry. */
    method Get(name: Key) returns (q: Option<T>)
      requires Valid()
      modifies this
      ensures Valid()
      ensures q == old(Lookup(functionsMap, name)) && functionsList == old(functionsList)
      ensures functionsMap == if name in old(functionsMap) then old(functionsMap) else old(functionsMap)[name := None]
    {
      if name !in functionsMap {
        NullBijective(functionsMap, functionsList, name);
        functionsMap := functionsMap[name := None];
      }
      q := functionsMap[name];
    }
  }
}
