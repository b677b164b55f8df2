/** Upstream model names, their order, and the sorted duplicate-free lists every component shares. */
module Models {
  datatype Model = Model(name: string)

  // Names compare by code point, which is also the order of their UTF-8 bytes.
  predicate Before(a: string, b: string)
  {
    b != "" && (a == "" || a[0] < b[0] || (a[0] == b[0] && Before(a[1..], b[1..])))
  }

  predicate Less(a: Model, b: Model)
  {
    Before(a.name, b.name)
  }

  /** The names share their first `k` characters, and then the first one ends or has the smaller character. */
  predicate DiffersAt(a: string, b: string, k: nat) {
    k <= |a| && k < |b| && (forall i :: 0 <= i < k ==> a[i] == b[i]) && (k == |a| || a[k] < b[k])
  }

  /** The order is lexicographic, with a shorter name before its extensions. */
  lemma {:induction false} BeforeIsLexicographic(a: string, b: string)
    ensures Before(a, b) <==> exists k :: DiffersAt(a, b, k)
  {
    if b == "" {
    } else if a == "" || a[0] != b[0] {
      assert DiffersAt(a, b, 0) <==> a == "" || a[0] < b[0];
      forall k: nat | DiffersAt(a, b, k)
        ensures k == 0
      {
      }
    } else {
      BeforeIsLexicographic(a[1..], b[1..]);
      forall k: nat | DiffersAt(a[1..], b[1..], k)
        ensures DiffersAt(a, b, k + 1)
      {
        forall i | 0 <= i < k + 1
          ensures a[i] == b[i]
        {
          if i > 0 { assert a[1..][i - 1] == b[1..][i - 1]; }
        }
      }
      forall k: nat | DiffersAt(a, b, k)
        ensures k > 0 && DiffersAt(a[1..], b[1..], k - 1)
      {
      }
    }
  }

  lemma {:induction false} BeforeTransitive(a: string, b: string, c: string)
    requires Before(a, b) && Before(b, c)
    ensures Before(a, c)
  {
    if a != "" && a[0] == b[0] == c[0] { BeforeTransitive(a[1..], b[1..], c[1..]); }
  }

  lemma {:induction false} BeforeTotal(a: string, b: string)
    ensures Before(a, b) || Before(b, a) || a == b
    ensures !Before(a, a)
  {
    if a != "" { BeforeTotal(a[1..], a[1..]); }
    if a != "" && b != "" && a[0] == b[0] {
      BeforeTotal(a[1..], b[1..]);
      assert a == [a[0]] + a[1..] && b == [b[0]] + b[1..];
    }
  }

  lemma LessIrreflexive(a: Model)
    ensures !Less(a, a)
  {
    BeforeTotal(a.name, a.name);
  }

  lemma LessTransitive(a: Model, b: Model, c: Model)
    requires Less(a, b) && Less(b, c)
    ensures Less(a, c)
  {
    BeforeTransitive(a.name, b.name, c.name);
  }

  lemma LessTotal(a: Model, b: Model)
    ensures Less(a, b) || Less(b, a) || a == b
  {
    BeforeTotal(a.name, b.name);
  }

  lemma LessIsStrictTotalOrder()
    ensures forall a: Model, b: Model :: Less(a, b) || Less(b, a) || a == b
    ensures forall a: Model, b: Model :: !(Less(a, b) && Less(b, a))
  {
    forall a: Model, b: Model
      ensures Less(a, b) || Less(b, a) || a == b
      ensures !(Less(a, b) && Less(b, a))
    {
      LessTotal(a, b);
      if Less(a, b) && Less(b, a) {
        LessTransitive(a, b, a);
        LessIrreflexive(a);
      }
    }
  }

  ghost predicate StrictlySorted(s: seq<Model>)
  {
    forall i, j :: 0 <= i < j < |s| ==> Less(s[i], s[j])
  }

  function ModelSet(s: seq<Model>): set<Model>
  {
    set m | m in s
  }

  ghost predicate IsLeast(m: Model, s: set<Model>)
  {
    m in s && forall x :: x in s && x != m ==> Less(m, x)
  }

  lemma {:induction false} LeastExists(s: set<Model>) returns (m: Model)
    requires s != {}
    ensures IsLeast(m, s)
  {
    var pick :| pick in s;
    m := pick;
    if s != {pick} {
      assert s - {pick} != {};
      var least := LeastExists(s - {pick});
      LessTotal(pick, least);
      if Less(least, pick) {
        m := least;
      } else {
        forall x | x in s && x != pick
          ensures Less(pick, x)
        {
          if x != least { LessTransitive(pick, least, x); }
        }
      }
    }
  }

  /** The order in which an ordered set or map yields its keys. */
  function Ascending(s: set<Model>): (r: seq<Model>)
    ensures StrictlySorted(r)
    ensures ModelSet(r) == s
  {
    if s == {} then []
    else
      assert exists m :: IsLeast(m, s) by { var m := LeastExists(s); }
      LessIsStrictTotalOrder();
      var m :| m in s && forall x :: x in s && x != m ==> Less(m, x);
      var rest := Ascending(s - {m});
      assert forall x :: x in rest <==> x in ModelSet(rest);
      assert ModelSet([m] + rest) == {m} + ModelSet(rest);
      [m] + rest
  }

  /** A strictly sorted list is determined by its set of names. */
  lemma {:induction false} StrictlySortedUnique(a: seq<Model>, b: seq<Model>)
    requires StrictlySorted(a) && StrictlySorted(b)
    requires ModelSet(a) == ModelSet(b)
    ensures a == b
  {
    LessIsStrictTotalOrder();
    NoModels(a);
    NoModels(b);
    if a != [] {
      HeadIsLeast(a);
      HeadIsLeast(b);
      assert a[0] == b[0];
      TailSet(a);
      TailSet(b);
      StrictlySortedUnique(a[1..], b[1..]);
    }
  }

  lemma NoModels(a: seq<Model>)
    ensures a == [] <==> ModelSet(a) == {}
  {
    if a != [] { assert a[0] in ModelSet(a); }
  }

  lemma HeadIsLeast(a: seq<Model>)
    requires StrictlySorted(a) && a != []
    ensures IsLeast(a[0], ModelSet(a))
  {
  }

  lemma TailSet(a: seq<Model>)
    requires StrictlySorted(a) && a != []
    ensures ModelSet(a[1..]) == ModelSet(a) - {a[0]}
  {
    LessIrreflexive(a[0]);
    assert a == [a[0]] + a[1..];
  }

  /** Sorted, duplicate-free form of a source answer. */
  function Normalized(s: seq<Model>): (r: seq<Model>)
    ensures StrictlySorted(r)
    ensures ModelSet(r) == ModelSet(s)
  {
    Ascending(ModelSet(s))
  }

  /** The normal form forgets order and repetition and nothing else. */
  lemma NormalizedCanonical(a: seq<Model>, b: seq<Model>)
    ensures Normalized(a) == Normalized(b) <==> ModelSet(a) == ModelSet(b)
    ensures Normalized(Normalized(a)) == Normalized(a)
  {
  }

  ghost predicate Sorted(s: seq<Model>)
  {
    forall i, j :: 0 <= i < j < |s| ==> s[i] == s[j] || Less(s[i], s[j])
  }

  /** Places one name into a sorted list, as one round of the sort does. */
  method Insert(s: seq<Model>, m: Model) returns (r: seq<Model>)
    requires Sorted(s)
    ensures Sorted(r)
    ensures multiset(r) == multiset(s) + multiset{m}
  {
    var k := 0;
    while k < |s| && Less(s[k], m)
      invariant k <= |s|
      invariant forall i :: 0 <= i < k ==> Less(s[i], m)
    {
      k := k + 1;
    }
    r := s[..k] + [m] + s[k..];
    assert s == s[..k] + s[k..];
    InsertedIsSorted(s, m, k);
  }

  lemma NotLessIsBelowRest(s: seq<Model>, m: Model, k: nat, i: nat)
    requires Sorted(s) && k <= i < |s| && !Less(s[k], m)
    ensures m == s[i] || Less(m, s[i])
  {
    hide Less;
    LessTotal(s[k], m);
    if k < i && Less(m, s[k]) && s[k] != s[i] { LessTransitive(m, s[k], s[i]); }
  }

  lemma InsertedIsSorted(s: seq<Model>, m: Model, k: nat)
    requires Sorted(s) && k <= |s| && (forall i :: 0 <= i < k ==> Less(s[i], m))
    requires k < |s| ==> !Less(s[k], m)
    ensures Sorted(s[..k] + [m] + s[k..])
  {
    hide Less;
    var r := s[..k] + [m] + s[k..];
    forall i, j | 0 <= i < j < |r|
      ensures r[i] == r[j] || Less(r[i], r[j])
    {
      if i == k { NotLessIsBelowRest(s, m, k, j - 1); }
    }
  }

  method SortModels(models: seq<Model>) returns (sorted: seq<Model>)
    ensures Sorted(sorted)
    ensures multiset(sorted) == multiset(models)
  {
    sorted := [];
    for i := 0 to |models|
      invariant Sorted(sorted)
      invariant multiset(sorted) == multiset(models[..i])
    {
      sorted := Insert(sorted, models[i]);
      assert models[..i + 1] == models[..i] + [models[i]];
    }
    assert models[..|models|] == models;
  }

  lemma SetOfNext(s: seq<Model>, i: nat)
    requires i < |s|
    ensures ModelSet(s[..i + 1]) == ModelSet(s[..i]) + {s[i]}
  {
    assert s[..i + 1] == s[..i] + [s[i]];
  }

  /** Drops adjacent repetitions. */
  method Dedup(sorted: seq<Model>) returns (r: seq<Model>)
    requires Sorted(sorted)
    ensures StrictlySorted(r)
    ensures ModelSet(r) == ModelSet(sorted)
  {
    r := [];
    for i := 0 to |sorted|
      invariant StrictlySorted(r)
      invariant r == [] <==> i == 0
      invariant i > 0 ==> r[|r| - 1] == sorted[i - 1]
      invariant ModelSet(r) == ModelSet(sorted[..i])
    {
      SetOfNext(sorted, i);
      if r == [] || r[|r| - 1] != sorted[i] {
        forall k | 0 <= k < |r|
          ensures Less(r[k], sorted[i])
        {
          if k < |r| - 1 { LessTransitive(r[k], r[|r| - 1], sorted[i]); }
        }
        r := r + [sorted[i]];
        assert r[..|r| - 1] + [sorted[i]] == r;
        SetOfNext(r, |r| - 1);
        assert r[..|r|] == r;
      }
    }
    assert sorted[..|sorted|] == sorted;
  }

  method NormalizeModels(models: seq<Model>) returns (r: seq<Model>)
    ensures r == Normalized(models)
  {
    var sorted := SortModels(models);
    r := Dedup(sorted);
    assert forall m :: m in sorted <==> m in multiset(sorted);
    assert forall m :: m in models <==> m in multiset(models);
    StrictlySortedUnique(r, Normalized(models));
  }
}
