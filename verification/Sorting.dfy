/** Sorting by a numeric key, greatest first; nothing is promised about ties. */
module Sorting {

  ghost predicate NoDuplicates<T>(s: seq<T>) {
    forall i, j | 0 <= i < j < |s| :: s[i] != s[j]
  }

  ghost predicate Descending<T>(s: seq<T>, key: T -> real) {
    forall i, j | 0 <= i < j < |s| :: key(s[i]) >= key(s[j])
  }

  lemma InsertKeepsOrder<T>(s: seq<T>, key: T -> real, k: nat, x: T)
    requires Descending(s, key) && k <= |s|
    requires forall j | 0 <= j < k :: key(s[j]) >= key(x)
    requires k < |s| ==> key(x) >= key(s[k])
    ensures Descending(s[..k] + [x] + s[k..], key)
  {
    var r := s[..k] + [x] + s[k..];
    forall i, j | 0 <= i < j < |r|
      ensures key(r[i]) >= key(r[j])
    {
      assert r[i] == if i < k then s[i] else if i == k then x else s[i - 1];
      assert r[j] == if j < k then s[j] else if j == k then x else s[j - 1];
    }
  }

  lemma InsertAddsOne<T>(s: seq<T>, k: nat, x: T)
    requires k <= |s|
    ensures multiset(s[..k] + [x] + s[k..]) == multiset(s) + multiset{x}
  {
    assert s == s[..k] + s[k..];
  }

  method Insert<T(==)>(s: seq<T>, key: T -> real, x: T) returns (r: seq<T>)
    requires Descending(s, key)
    ensures multiset(r) == multiset(s) + multiset{x} && Descending(r, key)
  {
    var k := 0;
    while k < |s| && key(s[k]) >= key(x)
      invariant 0 <= k <= |s|
      invariant forall j | 0 <= j < k :: key(s[j]) >= key(x)
    {
      k := k + 1;
    }
    InsertKeepsOrder(s, key, k, x);
    InsertAddsOne(s, k, x);
    r := s[..k] + [x] + s[k..];
  }

  method Sort<T(==)>(s: seq<T>, key: T -> real) returns (r: seq<T>)
    ensures multiset(r) == multiset(s) && Descending(r, key)
  {
    r := [];
    for i := 0 to |s|
      invariant multiset(r) == multiset(s[..i]) && Descending(r, key)
    {
      assert s[..i + 1] == s[..i] + [s[i]];
      r := Insert(r, key, s[i]);
    }
    assert s[..|s|] == s;
  }

  /** A sequence that lists each element of a set once is that set, as a multiset. */
  lemma {:induction false} ListsEachOnce<T>(s: seq<T>, all: set<T>)
    requires NoDuplicates(s) && forall x :: x in s <==> x in all
    ensures multiset(s) == multiset(all)
  {
    if s == [] {
    } else {
      var init, x := s[..|s| - 1], s[|s| - 1];
      assert s == init + [x];
      forall y
        ensures y in init <==> y in all - {x}
      {
        if y in init {
          assert y in s;
        }
      }
      ListsEachOnce(init, all - {x});
      assert x in all;
    }
  }

  /** Conversely, such a sequence has no duplicates. */
  lemma OnceEachIsDistinct<T>(s: seq<T>, all: set<T>)
    requires multiset(s) == multiset(all)
    ensures NoDuplicates(s) && forall x :: x in s <==> x in all
  {
    forall i, j | 0 <= i < j < |s|
      ensures s[i] != s[j]
    {
      assert s == s[..j] + s[j..];
      assert s[..j][i] == s[i] && s[j..][0] == s[j];
      assert multiset(s)[s[i]] <= 1;
    }
    forall x
      ensures x in s <==> x in all
    {
      assert x in s <==> x in multiset(s);
    }
  }
}
