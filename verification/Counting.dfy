/** Sizes of finite sets, and the pigeonhole principle. */
module Counting {

  /** The numbers 0, ..., n - 1. */
  ghost function Below(n: nat): (s: set<int>)
    ensures |s| == n
    ensures forall i :: i in s <==> 0 <= i < n
  {
    if n == 0 then {} else Below(n - 1) + {n - 1}
  }

  lemma {:induction false} SubsetSize<T>(a: set<T>, b: set<T>)
    requires a <= b
    ensures |a| <= |b|
    ensures |a| == |b| ==> a == b
  {
    if a != {} {
      var x :| x in a;
      SubsetSize(a - {x}, b - {x});
      assert b == (b - {x}) + {x} && a == (a - {x}) + {x};
    }
  }

  ghost function Image<S(!new), T(!new)>(f: S -> T, s: set<S>): set<T> {
    set i | i in s :: f(i)
  }

  ghost predicate InjectiveOn<S(!new), T(!new)>(f: S -> T, s: set<S>) {
    forall i, j :: i in s && j in s && f(i) == f(j) ==> i == j
  }

  lemma {:induction false} ImageSize<S(!new), T(!new)>(f: S -> T, s: set<S>)
    requires InjectiveOn(f, s)
    ensures |Image(f, s)| == |s|
  {
    if s != {} {
      var x :| x in s;
      ImageSize(f, s - {x});
      assert Image(f, s) == Image(f, s - {x}) + {f(x)};
    }
  }

  /** An injection of [0, n) into [0, m) needs n <= m. */
  lemma Pigeonhole(f: int -> int, n: nat, m: nat)
    requires InjectiveOn(f, Below(n))
    requires forall i :: 0 <= i < n ==> 0 <= f(i) < m
    ensures n <= m
  {
    ImageSize(f, Below(n));
    SubsetSize(Image(f, Below(n)), Below(m));
  }
}
