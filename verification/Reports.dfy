/**
 Validation reports: for each subject in turn, the items of the rules it
 breaks, in the order of the rules.
 */
module Reports {
  import opened Records

  /** The items for the broken rules among the first `n`, in order. */
  function Broken<R, E>(rules: seq<R>, n: nat, i: nat, e: E, breaks: (R, E) -> bool,
                        item: (R, nat) -> ValidationItem): seq<ValidationItem>
    requires n <= |rules|
  {
    if n == 0 then []
    else
      Broken(rules, n - 1, i, e, breaks, item)
      + (if breaks(rules[n - 1], e) then [item(rules[n - 1], i)] else [])
  }

  /** The items for the first `n` subjects, in order. */
  function Report<R, E>(rules: seq<R>, es: seq<E>, n: nat, breaks: (R, E) -> bool,
                        item: (R, nat) -> ValidationItem): seq<ValidationItem>
    requires n <= |es|
  {
    if n == 0 then []
    else Report(rules, es, n - 1, breaks, item) + Broken(rules, |rules|, n - 1, es[n - 1], breaks, item)
  }

  /** Rule `k` is broken by subject `i`, and `x` says so. */
  ghost predicate Tells<R, E>(rules: seq<R>, k: nat, es: seq<E>, i: nat, breaks: (R, E) -> bool,
                                item: (R, nat) -> ValidationItem, x: ValidationItem)
  {
    k < |rules| && i < |es| && breaks(rules[k], es[i]) && x == item(rules[k], i)
  }

  lemma {:induction false} BrokenIsExact<R, E>(rules: seq<R>, n: nat, es: seq<E>, i: nat, breaks: (R, E) -> bool,
                                               item: (R, nat) -> ValidationItem, x: ValidationItem)
    requires n <= |rules| && i < |es|
    ensures x in Broken(rules, n, i, es[i], breaks, item)
            <==> exists k: nat :: k < n && Tells(rules, k, es, i, breaks, item, x)
  {
    if n == 0 {
    } else {
      BrokenIsExact(rules, n - 1, es, i, breaks, item, x);
      if Tells(rules, n - 1, es, i, breaks, item, x) {
        assert x in Broken(rules, n, i, es[i], breaks, item);
      }
    }
  }

  /** Subject `i` breaks a rule, and `x` says so. */
  ghost predicate ToldOf<R, E>(rules: seq<R>, es: seq<E>, i: nat, breaks: (R, E) -> bool,
                               item: (R, nat) -> ValidationItem, x: ValidationItem)
  {
    exists k: nat :: Tells(rules, k, es, i, breaks, item, x)
  }

  /** One of the first `n` subjects breaks a rule, and `x` says so. */
  ghost predicate Told<R, E>(rules: seq<R>, es: seq<E>, n: nat, breaks: (R, E) -> bool,
                             item: (R, nat) -> ValidationItem, x: ValidationItem)
  {
    exists k: nat, i: nat :: i < n && Tells(rules, k, es, i, breaks, item, x)
  }

  lemma ToldStep<R, E>(rules: seq<R>, es: seq<E>, n: nat, breaks: (R, E) -> bool,
                       item: (R, nat) -> ValidationItem, x: ValidationItem)
    ensures Told(rules, es, n + 1, breaks, item, x)
            <==> Told(rules, es, n, breaks, item, x) || ToldOf(rules, es, n, breaks, item, x)
  {
  }

  /** The report lists exactly the broken rules of exactly the subjects that break them. */
  lemma {:induction false} ReportIsExact<R, E>(rules: seq<R>, es: seq<E>, n: nat, breaks: (R, E) -> bool,
                                               item: (R, nat) -> ValidationItem, x: ValidationItem)
    requires n <= |es|
    ensures x in Report(rules, es, n, breaks, item)
            <==> exists k: nat, i: nat :: i < n && Tells(rules, k, es, i, breaks, item, x)
  {
    if n == 0 {
    } else {
      var before := Report(rules, es, n - 1, breaks, item);
      var last := Broken(rules, |rules|, n - 1, es[n - 1], breaks, item);
      assert x in Report(rules, es, n, breaks, item) <==> x in before || x in last;
      assert x in before <==> Told(rules, es, n - 1, breaks, item, x) by {
        ReportIsExact(rules, es, n - 1, breaks, item, x);
      }
      assert x in last <==> ToldOf(rules, es, n - 1, breaks, item, x) by {
        BrokenIsExact(rules, |rules|, es, n - 1, breaks, item, x);
      }
      ToldStep(rules, es, n - 1, breaks, item, x);
    }
  }

  ghost predicate Keeps<R, E>(rules: seq<R>, e: E, breaks: (R, E) -> bool) {
    forall k | 0 <= k < |rules| :: !breaks(rules[k], e)
  }

  /** The report is empty exactly when every subject keeps every rule. */
  lemma ReportIsEmptyIff<R, E>(rules: seq<R>, es: seq<E>, breaks: (R, E) -> bool,
                               item: (R, nat) -> ValidationItem)
    ensures Report(rules, es, |es|, breaks, item) == []
            <==> forall i | 0 <= i < |es| :: Keeps(rules, es[i], breaks)
  {
    var report := Report(rules, es, |es|, breaks, item);
    if report != [] {
      assert report[0] in report;
      ReportIsExact(rules, es, |es|, breaks, item, report[0]);
    }
    forall i: nat, k: nat | i < |es| && k < |rules| && breaks(rules[k], es[i])
      ensures report != []
    {
      ReportIsExact(rules, es, |es|, breaks, item, item(rules[k], i));
      assert Tells(rules, k, es, i, breaks, item, item(rules[k], i));
    }
  }

  /** Every earlier item stands in the relation to every later one. */
  ghost predicate Pairwise(s: seq<ValidationItem>, rel: (ValidationItem, ValidationItem) -> bool) {
    forall a, b | 0 <= a < b < |s| :: rel(s[a], s[b])
  }

  lemma PairwiseConcat(s: seq<ValidationItem>, t: seq<ValidationItem>,
                       rel: (ValidationItem, ValidationItem) -> bool)
    requires Pairwise(s, rel) && Pairwise(t, rel)
    requires forall x, y | x in s && y in t :: rel(x, y)
    ensures Pairwise(s + t, rel)
  {
  }

  /** The relation holds between the items of earlier and later checks: of earlier subjects, or of earlier rules. */
  ghost predicate FollowsOrder<R>(rules: seq<R>, item: (R, nat) -> ValidationItem,
                                  rel: (ValidationItem, ValidationItem) -> bool)
  {
    forall k: nat, i: nat, m: nat, j: nat |
      k < |rules| && m < |rules| && (i < j || (i == j && k < m)) :: rel(item(rules[k], i), item(rules[m], j))
  }

  lemma {:induction false} BrokenInOrder<R, E>(rules: seq<R>, n: nat, es: seq<E>, i: nat, breaks: (R, E) -> bool,
                                               item: (R, nat) -> ValidationItem,
                                               rel: (ValidationItem, ValidationItem) -> bool)
    requires n <= |rules| && i < |es| && FollowsOrder(rules, item, rel)
    ensures Pairwise(Broken(rules, n, i, es[i], breaks, item), rel)
  {
    if n == 0 {
    } else {
      BrokenInOrder(rules, n - 1, es, i, breaks, item, rel);
      var before := Broken(rules, n - 1, i, es[i], breaks, item);
      var last := if breaks(rules[n - 1], es[i]) then [item(rules[n - 1], i)] else [];
      forall x, y | x in before && y in last
        ensures rel(x, y)
      {
        BrokenIsExact(rules, n - 1, es, i, breaks, item, x);
      }
      PairwiseConcat(before, last, rel);
    }
  }

  lemma LaterSubject<R, E>(rules: seq<R>, es: seq<E>, n: nat, breaks: (R, E) -> bool,
                           item: (R, nat) -> ValidationItem, rel: (ValidationItem, ValidationItem) -> bool,
                           x: ValidationItem, y: ValidationItem)
    requires n < |es| && FollowsOrder(rules, item, rel)
    requires x in Report(rules, es, n, breaks, item) && y in Broken(rules, |rules|, n, es[n], breaks, item)
    ensures rel(x, y)
  {
    ReportIsExact(rules, es, n, breaks, item, x);
    BrokenIsExact(rules, |rules|, es, n, breaks, item, y);
    var k: nat, j: nat :| j < n && Tells(rules, k, es, j, breaks, item, x);
    var m: nat :| m < |rules| && Tells(rules, m, es, n, breaks, item, y);
  }

  /** A report lists the subjects in turn, and the broken rules of each in the order of the rules. */
  lemma {:induction false} ReportInOrder<R, E>(rules: seq<R>, es: seq<E>, n: nat, breaks: (R, E) -> bool,
                                               item: (R, nat) -> ValidationItem,
                                               rel: (ValidationItem, ValidationItem) -> bool)
    requires n <= |es| && FollowsOrder(rules, item, rel)
    ensures Pairwise(Report(rules, es, n, breaks, item), rel)
  {
    if n == 0 {
    } else {
      ReportInOrder(rules, es, n - 1, breaks, item, rel);
      BrokenInOrder(rules, |rules|, es, n - 1, breaks, item, rel);
      var before := Report(rules, es, n - 1, breaks, item);
      var last := Broken(rules, |rules|, n - 1, es[n - 1], breaks, item);
      forall x, y | x in before && y in last
        ensures rel(x, y)
      {
        LaterSubject(rules, es, n - 1, breaks, item, rel, x, y);
      }
      PairwiseConcat(before, last, rel);
    }
  }
}
