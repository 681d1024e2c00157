/** The order in which the program walks its ordered sets and maps of strings:
    ascending and lexicographic by character. */
module Ordering {

  predicate Less(a: string, b: string) {
    if b == [] then false
    else if a == [] then true
    else a[0] < b[0] || (a[0] == b[0] && Less(a[1..], b[1..]))
  }

  /** Up to the first place where they differ, or to the end of the shorter one. */
  lemma {:induction false} LessIffFirstDifference(a: string, b: string)
    ensures Less(a, b) <==> (|a| < |b| && a == b[..|a|]) || exists k :: DifferAt(a, b, k) && a[k] < b[k]
  {
    if a != [] && b != [] {
      assert a == [a[0]] + a[1..] && b == [b[0]] + b[1..];
      if a[0] == b[0] {
        LessIffFirstDifference(a[1..], b[1..]);
        SameHead(a, b);
        assert |a| <= |b| ==> b[..|a|] == [b[0]] + b[1..][..|a| - 1];
      } else {
        assert DifferAt(a, b, 0);
      }
    }
  }

  predicate DifferAt(a: string, b: string, k: int) {
    0 <= k < |a| && k < |b| && a[..k] == b[..k] && a[k] != b[k]
  }

  lemma SameHead(a: string, b: string)
    requires a != [] && b != [] && a[0] == b[0]
    ensures (exists k :: DifferAt(a, b, k) && a[k] < b[k])
            <==> (exists k :: DifferAt(a[1..], b[1..], k) && a[1..][k] < b[1..][k])
  {
    if k :| DifferAt(a, b, k) && a[k] < b[k] {
      assert a[1..][..k - 1] == a[..k][1..] == b[..k][1..] == b[1..][..k - 1];
      assert DifferAt(a[1..], b[1..], k - 1) && a[1..][k - 1] < b[1..][k - 1];
    }
    if k :| DifferAt(a[1..], b[1..], k) && a[1..][k] < b[1..][k] {
      assert a[..k + 1] == [a[0]] + a[1..][..k] && b[..k + 1] == [b[0]] + b[1..][..k];
      assert DifferAt(a, b, k + 1) && a[k + 1] < b[k + 1];
    }
  }

  lemma {:induction false} LessTotal(a: string, b: string)
    ensures a == b || Less(a, b) || Less(b, a)
    ensures !(Less(a, b) && Less(b, a))
    ensures !Less(a, a)
  {
    if a != [] {
      LessTotal(a[1..], a[1..]);
    }
    if a != [] && b != [] && a[0] == b[0] {
      LessTotal(a[1..], b[1..]);
      assert a == [a[0]] + a[1..] && b == [b[0]] + b[1..];
    }
  }

  lemma {:induction false} LessTransitive(a: string, b: string, c: string)
    requires Less(a, b) && Less(b, c)
    ensures Less(a, c)
  {
    if a != [] && a[0] == b[0] && b[0] == c[0] {
      LessTransitive(a[1..], b[1..], c[1..]);
    }
  }

  predicate IsLeast(m: string, s: set<string>) {
    m in s && forall x :: x in s && x != m ==> Less(m, x)
  }

  lemma LeastExists(s: set<string>)
    requires s != {}
    ensures exists m :: IsLeast(m, s)
  {
    var x :| x in s;
    var rest := s - {x};
    if rest == {} {
      assert s == {x};
      assert IsLeast(x, s);
    } else {
      LeastExists(rest);
      var m :| IsLeast(m, rest);
      LessTotal(m, x);
      if Less(m, x) {
        assert IsLeast(m, s);
      } else {
        forall y | y in s && y != x ensures Less(x, y) {
          if y != m {
            LessTransitive(x, m, y);
          }
        }
        assert IsLeast(x, s);
      }
    }
  }

  ghost predicate Ascending(xs: seq<string>) {
    forall i, j :: 0 <= i < j < |xs| ==> Less(xs[i], xs[j])
  }

  /** The members of `s` in ascending order: what iterating an ordered set yields. */
  function SortedSeq(s: set<string>): (xs: seq<string>)
    ensures Ascending(xs)
    ensures forall x :: x in xs <==> x in s
    ensures |xs| == |s|
  {
    if s == {} then []
    else
      LeastExists(s);
      forall a, b | IsLeast(a, s) && IsLeast(b, s) ensures a == b {
        LessTotal(a, b);
      }
      var m :| m in s && IsLeast(m, s);
      [m] + SortedSeq(s - {m})
  }

  /** An ascending sequence repeats nothing. */
  lemma AscendingIsInjective(xs: seq<string>, i: nat, j: nat)
    requires Ascending(xs)
    requires i < |xs| && j < |xs| && xs[i] == xs[j]
    ensures i == j
  {
    LessTotal(xs[i], xs[j]);
  }
}
