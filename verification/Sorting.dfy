/** Sorting by an arbitrary total order, with the facts the callers of a library
    sort rely on: the result is sorted, a permutation, and the only such. */
module Sorting {

  ghost predicate TotalOrder<T(!new)>(le: (T, T) -> bool) {
    && (forall a, b :: le(a, b) || le(b, a))
    && (forall a, b :: le(a, b) && le(b, a) ==> a == b)
    && (forall a, b, c :: le(a, b) && le(b, c) ==> le(a, c))
  }

  ghost predicate Sorted<T(!new)>(le: (T, T) -> bool, xs: seq<T>) {
    forall i, j :: 0 <= i < j < |xs| ==> le(xs[i], xs[j])
  }

  function Insert<T>(le: (T, T) -> bool, x: T, xs: seq<T>): seq<T> {
    if xs == [] then [x]
    else if le(x, xs[0]) then [x] + xs
    else [xs[0]] + Insert(le, x, xs[1..])
  }

  function Sort<T>(le: (T, T) -> bool, xs: seq<T>): seq<T> {
    if xs == [] then [] else Insert(le, xs[0], Sort(le, xs[1..]))
  }

  lemma {:induction false} InsertKeeps<T(!new)>(le: (T, T) -> bool, x: T, xs: seq<T>)
    ensures multiset(Insert(le, x, xs)) == multiset{x} + multiset(xs)
  {
    if xs != [] {
      assert xs == [xs[0]] + xs[1..];
      InsertKeeps(le, x, xs[1..]);
    }
  }

  lemma {:induction false} InsertSorts<T(!new)>(le: (T, T) -> bool, x: T, xs: seq<T>)
    requires TotalOrder(le) && Sorted(le, xs)
    ensures Sorted(le, Insert(le, x, xs))
  {
    if xs == [] {
    } else if le(x, xs[0]) {
      forall j | 0 <= j < |xs| ensures le(x, xs[j]) {
        assert j > 0 ==> le(xs[0], xs[j]);
      }
    } else {
      InsertSorts(le, x, xs[1..]);
      InsertKeeps(le, x, xs[1..]);
      var rest := Insert(le, x, xs[1..]);
      forall j | 0 <= j < |rest| ensures le(xs[0], rest[j]) {
        assert rest[j] in multiset(rest);
        assert rest[j] == x || rest[j] in xs[1..];
      }
    }
  }

  lemma {:induction false} SortSorts<T(!new)>(le: (T, T) -> bool, xs: seq<T>)
    ensures multiset(Sort(le, xs)) == multiset(xs)
    ensures |Sort(le, xs)| == |xs|
    ensures TotalOrder(le) ==> Sorted(le, Sort(le, xs))
  {
    if xs != [] {
      assert xs == [xs[0]] + xs[1..];
      SortSorts(le, xs[1..]);
      InsertKeeps(le, xs[0], Sort(le, xs[1..]));
      if TotalOrder(le) {
        InsertSorts(le, xs[0], Sort(le, xs[1..]));
      }
    }
    assert |multiset(Sort(le, xs))| == |multiset(xs)|;
  }

  lemma TailLosesTheHead<T>(xs: seq<T>)
    requires xs != []
    ensures multiset(xs[1..]) == multiset(xs) - multiset{xs[0]}
  {
    assert xs == [xs[0]] + xs[1..];
  }

  lemma HeadIsLeast<T(!new)>(le: (T, T) -> bool, xs: seq<T>, y: T)
    requires TotalOrder(le) && Sorted(le, xs) && y in multiset(xs)
    ensures le(xs[0], y)
  {
    var i :| 0 <= i < |xs| && xs[i] == y;
    if i > 0 {
      assert le(xs[0], xs[i]);
    }
  }

  lemma HeadsAgree<T(!new)>(le: (T, T) -> bool, xs: seq<T>, ys: seq<T>)
    requires TotalOrder(le) && Sorted(le, xs) && Sorted(le, ys)
    requires multiset(xs) == multiset(ys) && xs != [] && ys != []
    ensures xs[0] == ys[0]
  {
    hide Sorted;
    assert xs[0] in multiset(xs) && ys[0] in multiset(ys);
    HeadIsLeast(le, xs, ys[0]);
    HeadIsLeast(le, ys, xs[0]);
  }

  lemma TailIsSorted<T(!new)>(le: (T, T) -> bool, xs: seq<T>)
    requires Sorted(le, xs) && xs != []
    ensures Sorted(le, xs[1..])
  {
  }

  lemma SameHeadAndTail<T>(xs: seq<T>, ys: seq<T>)
    requires xs != [] && ys != [] && xs[0] == ys[0] && xs[1..] == ys[1..]
    ensures xs == ys
  {
    assert xs == [xs[0]] + xs[1..] && ys == [ys[0]] + ys[1..];
  }

  /** Two sorted sequences with the same elements are the same sequence. */
  lemma {:induction false} SortedIsUnique<T(!new)>(le: (T, T) -> bool, xs: seq<T>, ys: seq<T>)
    requires TotalOrder(le) && Sorted(le, xs) && Sorted(le, ys)
    requires multiset(xs) == multiset(ys)
    ensures xs == ys
  {
    hide TotalOrder, Sorted;
    assert |multiset(xs)| == |multiset(ys)|;
    if xs != [] {
      HeadsAgree(le, xs, ys);
      TailLosesTheHead(xs);
      TailLosesTheHead(ys);
      TailIsSorted(le, xs);
      TailIsSorted(le, ys);
      SortedIsUnique(le, xs[1..], ys[1..]);
      SameHeadAndTail(xs, ys);
    }
  }

  /** Sorting forgets the original order and nothing else. */
  lemma SortIgnoresOrder<T(!new)>(le: (T, T) -> bool, xs: seq<T>, ys: seq<T>)
    requires TotalOrder(le)
    requires multiset(xs) == multiset(ys)
    ensures Sort(le, xs) == Sort(le, ys)
  {
    SortSorts(le, xs);
    SortSorts(le, ys);
    SortedIsUnique(le, Sort(le, xs), Sort(le, ys));
  }

  /** Taking one element out of two sequences with the same elements leaves the same elements. */
  lemma TakeOut<T>(before: seq<T>, x: T, after: seq<T>, b: seq<T>) returns (left: seq<T>, right: seq<T>)
    requires multiset(before + [x] + after) == multiset(b)
    ensures b == left + [x] + right
    ensures multiset(left + right) == multiset(before + after)
  {
    var a := before + [x] + after;
    assert a[|before|] == x;
    assert x in multiset(a);
    assert x in multiset(b);
    var i :| 0 <= i < |b| && b[i] == x;
    left, right := b[..i], b[i + 1..];
    assert b == left + [x] + right;
    assert multiset(left + right) == multiset(b) - multiset{x};
    assert multiset(before + after) == multiset(a) - multiset{x};
  }
}
