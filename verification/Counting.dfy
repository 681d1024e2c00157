/** Sums of a natural-valued function over a finite set. */
module Counting {

  ghost function Sum<T(!new)>(s: set<T>, f: T -> nat): nat {
    if s == {} then 0
    else
      var x :| x in s;
      f(x) + Sum(s - {x}, f)
  }

  lemma {:induction false} SumRemove<T(!new)>(s: set<T>, f: T -> nat, y: T)
    requires y in s
    ensures Sum(s, f) == f(y) + Sum(s - {y}, f)
  {
    var x :| x in s && Sum(s, f) == f(x) + Sum(s - {x}, f);
    if x != y {
      SumRemove(s - {x}, f, y);
      SumRemove(s - {y}, f, x);
      assert s - {x} - {y} == s - {y} - {x};
    }
  }

  lemma {:induction false} SumExtensional<T(!new)>(s: set<T>, f: T -> nat, g: T -> nat)
    requires forall x :: x in s ==> f(x) == g(x)
    ensures Sum(s, f) == Sum(s, g)
  {
    if s != {} {
      var x :| x in s;
      SumRemove(s, f, x);
      SumRemove(s, g, x);
      SumExtensional(s - {x}, f, g);
    }
  }

  lemma {:induction false} SumAdd<T(!new)>(s: set<T>, f: T -> nat, g: T -> nat, h: T -> nat)
    requires forall x :: x in s ==> h(x) == f(x) + g(x)
    ensures Sum(s, h) == Sum(s, f) + Sum(s, g)
  {
    if s != {} {
      var x :| x in s;
      SumRemove(s, f, x);
      SumRemove(s, g, x);
      SumRemove(s, h, x);
      SumAdd(s - {x}, f, g, h);
    }
  }

  /** A sum ignores members that contribute nothing. */
  lemma {:induction false} SumSupport<T(!new)>(s: set<T>, t: set<T>, f: T -> nat)
    requires t <= s
    requires forall x :: x in s && x !in t ==> f(x) == 0
    ensures Sum(s, f) == Sum(t, f)
  {
    if s == t {
    } else {
      var x :| x in s && x !in t;
      SumRemove(s, f, x);
      SumSupport(s - {x}, t, f);
    }
  }

  lemma {:induction false} SumConstant<T(!new)>(s: set<T>, f: T -> nat, c: nat)
    requires forall x :: x in s ==> f(x) == c
    ensures Sum(s, f) == c * |s|
  {
    if s != {} {
      var x :| x in s;
      SumRemove(s, f, x);
      SumConstant(s - {x}, f, c);
      assert |s| == |s - {x}| + 1;
    }
  }
}
