/**
  Finite counting over sequences: the set of ordered samples without
  replacement drawn from a set, and the set of fixed-length words over an
  alphabet. Both are built by putting one more element in front of shorter
  sequences, and both are counted by the same lemma about such families.
  These definitions give the choice counts of the program their meaning: the
  number of outcomes a password scheme can produce.
*/
module Counting {

  /** No element occurs twice. */
  predicate Distinct<T(==)>(s: seq<T>) {
    forall i, j :: 0 <= i < j < |s| ==> s[i] != s[j]
  }

  /** Every element of `s` belongs to `S`. */
  predicate AllIn<T(==)>(s: seq<T>, S: set<T>) {
    forall i :: 0 <= i < |s| ==> s[i] in S
  }

  /** Extending a prefix by one element. */
  lemma PrefixStep<T>(s: seq<T>, k: nat)
    requires k < |s|
    ensures s[..k + 1] == s[..k] + [s[k]]
  {
  }

  /** `b` raised to the power `e`, the meaning of Python's `b ** e` on naturals. */
  function Pow(b: nat, e: nat): (r: nat)
    ensures b > 0 ==> r > 0
  {
    if e == 0 then 1 else b * Pow(b, e - 1)
  }

  /** Every sequence of `ts` with `x` put in front. */
  ghost function Prefixed<T>(x: T, ts: set<seq<T>>): set<seq<T>> {
    set t | t in ts :: [x] + t
  }

  /** Putting the same element in front is injective, so no sequence is lost. */
  lemma {:induction false} PrefixedCard<T>(x: T, ts: set<seq<T>>)
    ensures |Prefixed(x, ts)| == |ts|
    decreases ts
  {
    if ts != {} {
      var t0 :| t0 in ts;
      var rest := ts - {t0};
      PrefixedCard(x, rest);
      assert Prefixed(x, ts) == Prefixed(x, rest) + {[x] + t0} by {
        forall s | s in Prefixed(x, ts) ensures s in Prefixed(x, rest) + {[x] + t0} {
          var t :| t in ts && s == [x] + t;
          if t != t0 { assert t in rest; }
        }
      }
      assert [x] + t0 !in Prefixed(x, rest) by {
        forall t | t in rest ensures [x] + t != [x] + t0 {
          assert ([x] + t)[1..] == t && ([x] + t0)[1..] == t0;
        }
      }
    }
  }

  /** The sequences `[x] + t` with `x` in `X` and `t` drawn from the family `F(x)`. */
  ghost function Family<T>(X: set<T>, F: T -> set<seq<T>>): set<seq<T>> {
    set x, t | x in X && t in F(x) :: [x] + t
  }

  /** Taking one head `x0` out of `X` splits the family into two disjoint parts. */
  lemma FamilySplit<T>(X: set<T>, F: T -> set<seq<T>>, x0: T)
    requires x0 in X
    ensures Family(X, F) == Family(X - {x0}, F) + Prefixed(x0, F(x0))
    ensures Family(X - {x0}, F) !! Prefixed(x0, F(x0))
  {
    var rest := X - {x0};
    forall s | s in Family(X, F) ensures s in Family(rest, F) + Prefixed(x0, F(x0)) {
      var x, t :| x in X && t in F(x) && s == [x] + t;
      if x != x0 { assert x in rest; }
    }
    forall s | s in Family(rest, F) ensures s !in Prefixed(x0, F(x0)) {
      var x, t :| x in rest && t in F(x) && s == [x] + t;
      assert s[0] == x != x0;
    }
  }

  /**
    When every member of the family has `m` sequences, the family as a whole
    has `|X| * m`: the parts for different heads are disjoint.
  */
  lemma {:induction false} FamilyCard<T>(X: set<T>, F: T -> set<seq<T>>, m: nat)
    requires forall x :: x in X ==> |F(x)| == m
    ensures |Family(X, F)| == |X| * m
    decreases X
  {
    if X != {} {
      var x0 :| x0 in X;
      var rest := X - {x0};
      FamilyCard(rest, F, m);
      PrefixedCard(x0, F(x0));
      FamilySplit(X, F, x0);
      var A, B := Family(rest, F), Prefixed(x0, F(x0));
      assert A * B == {};
      assert |A + B| == |A| + |B|;
      assert |X| == |rest| + 1;
      MulSucc(|rest|, m);
    }
  }

  lemma MulSucc(a: nat, m: nat)
    ensures (a + 1) * m == a * m + m
  {
  }

  /**
    The ordered samples of `k` distinct elements of `S`: what drawing `k`
    elements one after another without putting any back can yield.
  */
  ghost function Arrangements<T>(S: set<T>, k: nat): set<seq<T>>
    decreases k
  {
    if k == 0 then {[]}
    else set x, t | x in S && t in Arrangements(S - {x}, k - 1) :: [x] + t
  }

  /** A sequence is an arrangement exactly when it has the right length, repeats nothing and stays in `S`. */
  lemma {:induction false} ArrangementsMembership<T>(S: set<T>, k: nat, s: seq<T>)
    ensures s in Arrangements(S, k) <==> |s| == k && Distinct(s) && AllIn(s, S)
    decreases k
  {
    if k > 0 {
      if s in Arrangements(S, k) {
        var x, t :| x in S && t in Arrangements(S - {x}, k - 1) && s == [x] + t;
        ArrangementsMembership(S - {x}, k - 1, t);
        assert forall i :: 0 < i < |s| ==> s[i] == t[i - 1];
      }
      if |s| == k && Distinct(s) && AllIn(s, S) {
        var t := s[1..];
        assert Distinct(t) && AllIn(t, S - {s[0]}) by {
          forall i | 0 <= i < |t| ensures t[i] in S - {s[0]} {
            assert t[i] == s[i + 1] && s[0] != s[i + 1];
          }
        }
        ArrangementsMembership(S - {s[0]}, k - 1, t);
        assert s == [s[0]] + t;
      }
    } else {
      assert |s| == 0 ==> s == [];
    }
  }

  /** Every arrangement of size `k` of `S`, viewed as a family over its first element. */
  lemma ArrangementsAsFamily<T>(S: set<T>, k: nat)
    requires k > 0
    ensures Arrangements(S, k) == Family(S, x => Arrangements(S - {x}, k - 1))
  {
  }

  /** The words of length `n` over the alphabet `A`. */
  ghost function Words<T>(A: set<T>, n: nat): set<seq<T>>
    decreases n
  {
    if n == 0 then {[]}
    else set x, t | x in A && t in Words(A, n - 1) :: [x] + t
  }

  /** A sequence is a word of length `n` over `A` exactly when its length is `n` and its letters are in `A`. */
  lemma {:induction false} WordsMembership<T>(A: set<T>, n: nat, s: seq<T>)
    ensures s in Words(A, n) <==> |s| == n && AllIn(s, A)
    decreases n
  {
    if n > 0 {
      if s in Words(A, n) {
        var x, t :| x in A && t in Words(A, n - 1) && s == [x] + t;
        WordsMembership(A, n - 1, t);
        assert forall i :: 0 < i < |s| ==> s[i] == t[i - 1];
      }
      if |s| == n && AllIn(s, A) {
        var t := s[1..];
        assert AllIn(t, A) by {
          forall i | 0 <= i < |t| ensures t[i] in A {
            assert t[i] == s[i + 1];
          }
        }
        WordsMembership(A, n - 1, t);
        assert s == [s[0]] + t;
      }
    } else {
      assert |s| == 0 ==> s == [];
    }
  }

  /** There are `|A| ^ n` words of length `n` over `A`. */
  lemma {:induction false} WordsCard<T>(A: set<T>, n: nat)
    ensures |Words(A, n)| == Pow(|A|, n)
    decreases n
  {
    if n > 0 {
      WordsCard(A, n - 1);
      var F := x => Words(A, n - 1);
      assert Words(A, n) == Family(A, F);
      FamilyCard(A, F, Pow(|A|, n - 1));
    }
  }

  /** The set of elements of a sequence. */
  ghost function Elements<T>(s: seq<T>): set<T> {
    set i | 0 <= i < |s| :: s[i]
  }

  /** No element of `a` occurs in `b`. */
  predicate Apart<T(==)>(a: seq<T>, b: seq<T>) {
    forall i, j :: 0 <= i < |a| && 0 <= j < |b| ==> a[i] != b[j]
  }

  lemma ApartAppend<T>(a1: seq<T>, a2: seq<T>, b: seq<T>)
    requires Apart(a1, b) && Apart(a2, b)
    ensures Apart(a1 + a2, b) && Apart(b, a1 + a2)
  {
    forall i, j | 0 <= i < |a1 + a2| && 0 <= j < |b| ensures (a1 + a2)[i] != b[j] {
      if i < |a1| { assert (a1 + a2)[i] == a1[i]; } else { assert (a1 + a2)[i] == a2[i - |a1|]; }
    }
  }

  /** Two sequences without repetitions and without a common element concatenate to one without repetitions. */
  lemma DistinctAppend<T>(a: seq<T>, b: seq<T>)
    requires Distinct(a) && Distinct(b) && Apart(a, b)
    ensures Distinct(a + b)
  {
    forall i, j | 0 <= i < j < |a + b| ensures (a + b)[i] != (a + b)[j] {
      if j < |a| {
        assert (a + b)[i] == a[i] && (a + b)[j] == a[j];
      } else if i < |a| {
        assert (a + b)[i] == a[i] && (a + b)[j] == b[j - |a|];
      } else {
        assert (a + b)[i] == b[i - |a|] && (a + b)[j] == b[j - |a|];
      }
    }
  }

  /** A sequence without repetitions has as many distinct elements as positions. */
  lemma {:induction false} DistinctCard<T>(s: seq<T>)
    requires Distinct(s)
    ensures |Elements(s)| == |s|
  {
    if s != [] {
      var t := s[1..];
      assert Distinct(t) by {
        forall i, j | 0 <= i < j < |t| ensures t[i] != t[j] {
          assert t[i] == s[i + 1] && t[j] == s[j + 1];
        }
      }
      DistinctCard(t);
      var St := Elements(t);
      assert Elements(s) == {s[0]} + St by {
        forall c | c in Elements(s) ensures c in {s[0]} + St {
          var i :| 0 <= i < |s| && c == s[i];
          if i > 0 { assert c == t[i - 1]; }
        }
        forall c | c in St ensures c in Elements(s) {
          var i :| 0 <= i < |t| && c == t[i];
          assert c == s[i + 1];
        }
      }
      assert s[0] !in St by {
        forall i | 0 <= i < |t| ensures t[i] != s[0] {
          assert t[i] == s[i + 1];
        }
      }
    }
  }
}
