/** A labelled document collection and the counting it is described by:
    `list.count`, `list.index`, per-class sample counts and their sums. */
module Corpus {

  /** The dictionary that loading a file produces: the documents, their labels
      (parallel to the documents) and the ordering of the distinct class names. */
  datatype Dataset = Dataset(objects: seq<string>, labels: seq<string>, classes: seq<string>)

  predicate Distinct(s: seq<string>) {
    forall i, j :: 0 <= i < j < |s| ==> s[i] != s[j]
  }

  /** What loading a file guarantees: one label per document, the class names are
      the distinct labels (so `classes.index(label)` never fails). */
  predicate WellFormed(d: Dataset) {
    && |d.objects| == |d.labels|
    && Distinct(d.classes)
    && forall j :: 0 <= j < |d.labels| ==> d.labels[j] in d.classes
  }

  /** `s.count(x)`: the number of positions of `s` holding `x`. */
  function Count(s: seq<string>, x: string): (r: nat)
    ensures r <= |s|
    decreases |s|
  {
    if s == [] then 0 else Count(s[..|s| - 1], x) + (if s[|s| - 1] == x then 1 else 0)
  }

  /** `[ls.count(c) for c in classes]`. */
  function ClassCounts(ls: seq<string>, classes: seq<string>): seq<nat> {
    seq(|classes|, i requires 0 <= i < |classes| => Count(ls, classes[i]))
  }

  /** Python's `sum` over a list of integers. */
  function SumN(s: seq<nat>): nat
    decreases |s|
  {
    if s == [] then 0 else s[0] + SumN(s[1..])
  }

  /** Python's `sum` over a list of (here exact) numbers. */
  function SumR(s: seq<real>): real
    decreases |s|
  {
    if s == [] then 0.0 else s[0] + SumR(s[1..])
  }

  /** `s.index(x)`: the first position holding `x`. */
  function IndexOf(s: seq<string>, x: string): (i: nat)
    requires x in s
    ensures i < |s| && s[i] == x
    ensures forall j :: 0 <= j < i ==> s[j] != x
    decreases |s|
  {
    if s[0] == x then 0 else 1 + IndexOf(s[1..], x)
  }

  /** Every class has at least one training document (no division by zero). */
  predicate EveryClassSampled(d: Dataset) {
    forall i :: 0 <= i < |d.classes| ==> Count(d.labels, d.classes[i]) > 0
  }

  lemma {:induction false} CountCons(x: string, s: seq<string>, y: string)
    ensures Count([x] + s, y) == (if x == y then 1 else 0) + Count(s, y)
    decreases |s|
  {
    if s != [] {
      var t := [x] + s;
      assert t[..|t| - 1] == [x] + s[..|s| - 1];
      CountCons(x, s[..|s| - 1], y);
    } else {
      assert ([x] + s)[..0] == [];
    }
  }

  lemma {:induction false} CountSnoc(s: seq<string>, x: string, y: string)
    ensures Count(s + [x], y) == Count(s, y) + (if x == y then 1 else 0)
  {
    assert (s + [x])[..|s|] == s;
  }

  /** A name listed once in a list of distinct names is counted once. */
  lemma {:induction false} CountOfDistinct(s: seq<string>, x: string)
    requires Distinct(s) && x in s
    ensures Count(s, x) == 1
    decreases |s|
  {
    CountCons(s[0], s[1..], x);
    assert [s[0]] + s[1..] == s;
    if s[0] == x {
      assert x !in s[1..];
      CountZero(s[1..], x);
    } else {
      CountOfDistinct(s[1..], x);
    }
  }

  /** `s.count(x)` is zero exactly when `x` does not occur in `s`. */
  lemma {:induction false} CountZero(s: seq<string>, x: string)
    ensures Count(s, x) == 0 <==> x !in s
    decreases |s|
  {
    if s != [] {
      var init := s[..|s| - 1];
      CountZero(init, x);
      assert s == init + [s[|s| - 1]];
    }
  }

  lemma ClassCountsCons(ls: seq<string>, classes: seq<string>)
    requires |classes| > 0
    ensures ClassCounts(ls, classes) == [Count(ls, classes[0])] + ClassCounts(ls, classes[1..])
  {
  }

  /** Adding one labelled document adds, over all classes, the number of times
      its label is listed among the classes. */
  lemma {:induction false} SumClassCountsSnoc(ls: seq<string>, l: string, classes: seq<string>)
    ensures SumN(ClassCounts(ls + [l], classes)) == SumN(ClassCounts(ls, classes)) + Count(classes, l)
    decreases |classes|
  {
    if classes == [] {
      assert ClassCounts(ls + [l], classes) == [];
      assert ClassCounts(ls, classes) == [];
    } else {
      ClassCountsCons(ls + [l], classes);
      ClassCountsCons(ls, classes);
      CountSnoc(ls, l, classes[0]);
      CountCons(classes[0], classes[1..], l);
      assert [classes[0]] + classes[1..] == classes;
      SumClassCountsSnoc(ls, l, classes[1..]);
    }
  }

  /** When every label is one of the distinct classes, the per-class counts
      partition the labels: they add up to the number of labels. */
  lemma {:induction false} SumOfClassCounts(ls: seq<string>, classes: seq<string>)
    requires Distinct(classes)
    requires forall j :: 0 <= j < |ls| ==> ls[j] in classes
    ensures SumN(ClassCounts(ls, classes)) == |ls|
    decreases |ls|
  {
    if ls == [] {
      SumOfZeros(classes);
    } else {
      var init, l := ls[..|ls| - 1], ls[|ls| - 1];
      assert init + [l] == ls;
      SumOfClassCounts(init, classes);
      SumClassCountsSnoc(init, l, classes);
      CountOfDistinct(classes, l);
    }
  }

  lemma {:induction false} SumOfZeros(classes: seq<string>)
    ensures SumN(ClassCounts([], classes)) == 0
    decreases |classes|
  {
    if classes != [] {
      ClassCountsCons([], classes);
      SumOfZeros(classes[1..]);
    }
  }

  /** No entry of a list of naturals exceeds its sum. */
  lemma {:induction false} EntryAtMostSum(s: seq<nat>, k: nat)
    requires k < |s|
    ensures s[k] <= SumN(s)
    decreases |s|
  {
    if k > 0 {
      EntryAtMostSum(s[1..], k - 1);
    }
  }

  /** Dividing every entry by the same positive number divides the sum by it. */
  lemma {:induction false} SumOfQuotients(q: seq<real>, counts: seq<nat>, t: real)
    requires t > 0.0
    requires |q| == |counts|
    requires forall i :: 0 <= i < |q| ==> q[i] == counts[i] as real / t
    ensures SumR(q) == SumN(counts) as real / t
    decreases |q|
  {
    if q != [] {
      SumOfQuotients(q[1..], counts[1..], t);
      assert q[0] == counts[0] as real / t;
      assert SumR(q) == counts[0] as real / t + SumN(counts[1..]) as real / t;
    }
  }
}
