/**
  `count_choices`, the inner function of the password engine that counts how
  many ordered selections of `w_count` distinct words a pool of `len_w` words
  allows: the falling factorial `len_w * (len_w - 1) * ... * (len_w - w_count + 1)`.
*/
module Choices {
  import opened Counting

  /**
    `count_choices(n, k)`. The source asserts `k > 1` in the recursive case, so
    a call with `k < 1` fails; the model requires `k >= 1`, and the caller
    (`PassWords.Run`) turns a smaller word count into that assertion failure.
  */
  function CountChoices(n: int, k: int): (r: int)
    requires k >= 1
    ensures n >= 0 ==> r >= 0
    ensures 0 <= n < k ==> r == 0
    ensures 1 <= k <= n ==> r > 0
    decreases k
  {
    if k == 1 then n else n * CountChoices(n - 1, k - 1)
  }

  function Factorial(n: nat): (r: nat)
    ensures r >= 1
  {
    if n == 0 then 1 else n * Factorial(n - 1)
  }

  lemma MulAssoc(a: int, b: int, c: int)
    ensures a * (b * c) == (a * b) * c
  {
  }

  /** Taking one more word multiplies the count by the number of words still left. */
  lemma {:induction false} CountChoicesStep(n: int, k: int)
    requires k >= 1
    ensures CountChoices(n, k + 1) == CountChoices(n, k) * (n - k)
    decreases k
  {
    if k > 1 {
      CountChoicesStep(n - 1, k - 1);
      MulAssoc(n, CountChoices(n - 1, k - 1), n - k);
    }
  }

  /** The falling factorial times `(n - k)!` is `n!`. */
  lemma {:induction false} CountChoicesFactorial(n: nat, k: nat)
    requires 1 <= k <= n
    ensures CountChoices(n, k) * Factorial(n - k) == Factorial(n)
    decreases k
  {
    if k > 1 {
      CountChoicesFactorial(n - 1, k - 1);
      MulAssoc(n, CountChoices(n - 1, k - 1), Factorial(n - k));
    }
  }

  /** Ordering the whole pool: `count_choices(n, n) == n!`. */
  lemma CountChoicesAll(n: nat)
    requires n >= 1
    ensures CountChoices(n, n) == Factorial(n)
  {
    CountChoicesFactorial(n, n);
  }

  /**
    The count is exactly the number of ordered samples of `k` distinct words a
    pool `S` admits: the number of outcomes `random.sample` can produce.
  */
  lemma {:induction false} ArrangementsCard<T>(S: set<T>, k: nat)
    requires k >= 1
    ensures |Arrangements(S, k)| == CountChoices(|S|, k)
    decreases k
  {
    var F := x => Arrangements(S - {x}, k - 1);
    ArrangementsAsFamily(S, k);
    if k == 1 {
      FamilyCard(S, F, 1);
    } else if S == {} {
      FamilyCard(S, F, 0);
    } else {
      forall x | x in S ensures |F(x)| == CountChoices(|S| - 1, k - 1) {
        ArrangementsCard(S - {x}, k - 1);
      }
      FamilyCard(S, F, CountChoices(|S| - 1, k - 1));
    }
  }

  /**
    The same count computed by a loop that multiplies in the descending
    factors one after another.
  */
  method CountChoicesLoop(n: int, k: int) returns (c: int)
    requires k >= 1
    ensures c == CountChoices(n, k)
  {
    c := n;
    var i := 1;
    while i < k
      invariant 1 <= i <= k
      invariant c == CountChoices(n, i)
    {
      CountChoicesStep(n, i);
      c := c * (n - i);
      i := i + 1;
    }
  }
}
