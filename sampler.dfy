/**
  Drawing the password: `random.sample(list(words), word_count)` picks
  `word_count` distinct words of the pool in some order, and the password is
  those words joined by the separator. The draw itself is a nondeterministic
  choice among all admissible outcomes; which one the random generator picks,
  and with what probability, is not modelled.
*/
module Sampler {
  import opened Counting
  import opened Choices
  import opened Text

  /** The outcomes `random.sample(population, k)` may return. */
  predicate IsSample(pool: set<string>, k: int, ws: seq<string>) {
    |ws| == k && Distinct(ws) && AllIn(ws, pool)
  }

  /**
    Every admissible outcome is an arrangement of `k` pool words, and
    conversely; so there are exactly `count_choices(len(pool), k)` outcomes to
    choose from.
  */
  lemma SamplesAreArrangements(pool: set<string>, k: nat, ws: seq<string>)
    ensures IsSample(pool, k, ws) <==> ws in Arrangements(pool, k)
    ensures k >= 1 ==> |Arrangements(pool, k)| == CountChoices(|pool|, k)
  {
    ArrangementsMembership(pool, k, ws);
    if k >= 1 {
      ArrangementsCard(pool, k);
    }
  }

  /**
    `random.sample(list(words), k)`: it raises when `k` is negative or larger
    than the pool (`ok` is false and nothing is drawn); otherwise it picks one
    word at a time among those not yet picked, so that `ws` holds `k` pairwise
    distinct words, each from the pool.
  */
  method Sample(pool: set<string>, k: int) returns (ok: bool, ws: seq<string>)
    ensures ok <==> 0 <= k <= |pool|
    ensures ok ==> IsSample(pool, k, ws)
    ensures !ok ==> ws == []
  {
    if k < 0 || k > |pool| {
      return false, [];
    }
    ws := [];
    var rest := pool;
    for i := 0 to k
      invariant |ws| == i && Distinct(ws) && AllIn(ws, pool)
      invariant forall w :: w in rest <==> w in pool && w !in ws
      invariant |rest| == |pool| - i
    {
      var w :| w in rest;
      ws := ws + [w];
      rest := rest - {w};
    }
    ok := true;
  }

  /** `word_separator.join(words)`: the password printed on the last line. */
  function Password(sep: string, ws: seq<string>): (p: string)
    ensures |ws| == 1 ==> p == ws[0]
  {
    Join(sep, ws)
  }

  /**
    With a one-character separator that occurs in none of the drawn words,
    the password splits back into exactly the drawn words, in order.
  */
  lemma PasswordSplits(c: char, ws: seq<string>)
    requires |ws| >= 1
    requires forall k :: 0 <= k < |ws| ==> c !in ws[k]
    ensures Split(Password([c], ws), c) == ws
  {
    SplitJoin(ws, c);
  }

  /** The password's length is the words' lengths plus one separator between neighbours. */
  lemma {:induction false} PasswordLength(sep: string, ws: seq<string>)
    requires |ws| >= 1
    ensures |Password(sep, ws)| == TotalLength(ws) + (|ws| - 1) * |sep|
  {
    if |ws| > 1 {
      PasswordLength(sep, ws[1..]);
    }
  }

  function TotalLength(ws: seq<string>): nat {
    if ws == [] then 0 else |ws[0]| + TotalLength(ws[1..])
  }
}
