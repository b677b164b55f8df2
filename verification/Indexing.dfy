/** Lists of rows with string identities, and the maps that index them. */
module Indexing {
  import opened Basics

  /** The row with this identity; the last one, should several share it. */
  function Find<T>(all: seq<T>, key: T -> string, id: string): Option<T> {
    if all == [] then None
    else if key(all[|all| - 1]) == id then Some(all[|all| - 1])
    else Find(all[..|all| - 1], key, id)
  }

  ghost predicate DistinctKeys<T>(all: seq<T>, key: T -> string) {
    forall i, j :: 0 <= i < j < |all| ==> key(all[i]) != key(all[j])
  }

  /** An earlier row has the identity of row `i`. */
  predicate Repeats<T>(all: seq<T>, key: T -> string, i: nat)
    requires i < |all|
  {
    exists j :: 0 <= j < i && key(all[j]) == key(all[i])
  }

  lemma NoRepeats<T>(all: seq<T>, key: T -> string)
    ensures DistinctKeys(all, key) <==> forall i :: 0 <= i < |all| ==> !Repeats(all, key, i)
  {
    if i, j :| 0 <= i < j < |all| && key(all[i]) == key(all[j]) {
      assert Repeats(all, key, j);
    }
  }

  /** The map answers every identity as a search of the list would. */
  ghost predicate Indexes<T>(m: map<string, T>, all: seq<T>, key: T -> string) {
    forall id :: Lookup(m, id) == Find(all, key, id)
  }

  lemma {:induction false} Found<T>(all: seq<T>, key: T -> string, id: string)
    ensures Find(all, key, id).Some? <==> exists i :: 0 <= i < |all| && key(all[i]) == id
    ensures Find(all, key, id).Some? ==> Find(all, key, id).value in all && key(Find(all, key, id).value) == id
  {
    if all != [] {
      Found(all[..|all| - 1], key, id);
      assert forall i :: 0 <= i < |all| - 1 ==> all[..|all| - 1][i] == all[i];
    }
  }

  lemma NothingIndexed<T>(all: seq<T>, key: T -> string)
    ensures Indexes(map[], all[..0], key) && DistinctKeys(all[..0], key)
  {
  }

  lemma IndexAnswers<T>(m: map<string, T>, all: seq<T>, key: T -> string, id: string)
    requires Indexes(m, all, key)
    ensures Lookup(m, id) == Find(all, key, id)
    ensures id in m <==> Find(all, key, id).Some?
  {
    assert Lookup(m, id) == Find(all, key, id);
  }

  /** With distinct identities, a row is found under its own. */
  lemma FoundAt<T>(all: seq<T>, key: T -> string, i: nat)
    requires DistinctKeys(all, key) && i < |all|
    ensures Find(all, key, key(all[i])) == Some(all[i])
  {
    Found(all, key, key(all[i]));
    var v := Find(all, key, key(all[i])).value;
    var j :| 0 <= j < |all| && all[j] == v;
  }

  /** With distinct identities, finding a row means being that row. */
  lemma FoundIff<T>(all: seq<T>, key: T -> string, id: string, x: T)
    requires DistinctKeys(all, key)
    ensures Find(all, key, id) == Some(x) <==> x in all && key(x) == id
  {
    Found(all, key, id);
    if x in all && key(x) == id {
      var i :| 0 <= i < |all| && all[i] == x;
      FoundAt(all, key, i);
    }
  }

  /** One round of an indexing loop: the next identity is taken exactly when the list repeats it. */
  lemma IndexNext<T>(m: map<string, T>, all: seq<T>, key: T -> string, i: nat)
    requires i < |all| && Indexes(m, all[..i], key) && DistinctKeys(all[..i], key)
    ensures key(all[i]) in m <==> Repeats(all, key, i)
    ensures key(all[i]) in m ==> !DistinctKeys(all, key)
    ensures key(all[i]) !in m ==> DistinctKeys(all[..i + 1], key) && Indexes(m[key(all[i]) := all[i]], all[..i + 1], key)
  {
    var id := key(all[i]);
    assert all[..i + 1][..i] == all[..i];
    assert forall j :: 0 <= j < i ==> all[..i][j] == all[j];
    Found(all[..i], key, id);
    assert Lookup(m, id) == Find(all[..i], key, id);
    var next, upTo := m[id := all[i]], all[..i + 1];
    forall other
      ensures Lookup(next, other) == Find(upTo, key, other)
    {
      assert Lookup(m, other) == Find(all[..i], key, other);
    }
  }
}
