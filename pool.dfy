/**
  The word pool: every line of every word list, stripped and lower-cased,
  kept when its length lies within the bounds, collected into one set.
*/
module Pool {
  import opened Text

  /** Whether a normalised line is kept: `min_word_len <= len(line) <= max_word_len`. */
  predicate InBounds(w: string, lo: int, hi: int) {
    lo <= |w| <= hi
  }

  /** Every line of a word list, stripped and lower-cased. */
  function Normalized(lines: seq<string>): (ns: seq<string>)
    ensures |ns| == |lines|
    ensures forall j :: 0 <= j < |lines| ==> ns[j] == Normalize(lines[j])
  {
    seq(|lines|, j requires 0 <= j < |lines| => Normalize(lines[j]))
  }

  /** The normalised lines whose length is within the bounds, read in order. */
  function Kept(ws: seq<string>, lo: int, hi: int): set<string> {
    if ws == [] then {}
    else
      var w := ws[|ws| - 1];
      Kept(ws[..|ws| - 1], lo, hi) + (if InBounds(w, lo, hi) then {w} else {})
  }

  /** The words one word list contributes. */
  function FileWords(lines: seq<string>, lo: int, hi: int): set<string> {
    Kept(Normalized(lines), lo, hi)
  }

  /** The union of a sequence of sets, taken in order. */
  function Union(ss: seq<set<string>>): set<string> {
    if ss == [] then {} else Union(ss[..|ss| - 1]) + ss[|ss| - 1]
  }

  /** What each word list contributes, list by list. */
  function Contributions(files: seq<seq<string>>, lo: int, hi: int): (cs: seq<set<string>>)
    ensures |cs| == |files|
    ensures forall i :: 0 <= i < |files| ==> cs[i] == FileWords(files[i], lo, hi)
  {
    seq(|files|, i requires 0 <= i < |files| => FileWords(files[i], lo, hi))
  }

  /** The pool: the words of every word list, as one set. */
  function PoolOf(files: seq<seq<string>>, lo: int, hi: int): set<string> {
    Union(Contributions(files, lo, hi))
  }

  /** Keeping one more normalised line adds it when it is within the bounds. */
  lemma KeptStep(ws: seq<string>, j: nat, lo: int, hi: int)
    requires j < |ws|
    ensures Kept(ws[..j + 1], lo, hi) == Kept(ws[..j], lo, hi) + (if InBounds(ws[j], lo, hi) then {ws[j]} else {})
  {
    assert ws[..j + 1][..j] == ws[..j];
  }

  /** The inner loop: normalise each line of one list and add it when its length is within the bounds. */
  method AddFileWords(words0: set<string>, lines: seq<string>, lo: int, hi: int) returns (words: set<string>)
    ensures words == words0 + FileWords(lines, lo, hi)
  {
    ghost var ns := Normalized(lines);
    words := words0;
    for j := 0 to |lines|
      invariant words == words0 + Kept(ns[..j], lo, hi)
    {
      var line := Normalize(lines[j]);
      if lo <= |line| <= hi {
        words := words + {line};
      }
      KeptStep(ns, j, lo, hi);
    }
    assert ns[..|lines|] == ns;
  }

  /** The outer loop over the word lists, building the pool from the empty set. */
  method BuildPool(files: seq<seq<string>>, lo: int, hi: int) returns (words: set<string>)
    ensures words == PoolOf(files, lo, hi)
  {
    ghost var cs := Contributions(files, lo, hi);
    words := {};
    for i := 0 to |files|
      invariant words == Union(cs[..i])
    {
      words := AddFileWords(words, files[i], lo, hi);
      assert cs[..i + 1][..i] == cs[..i];
    }
    assert cs[..|files|] == cs;
  }

  /** A word is in a union exactly when it is in one of the sets. */
  lemma {:induction false} UnionMembership(ss: seq<set<string>>, w: string)
    ensures w in Union(ss) <==> exists i :: 0 <= i < |ss| && w in ss[i]
  {
    if ss != [] {
      var init := ss[..|ss| - 1];
      UnionMembership(init, w);
      assert forall i :: 0 <= i < |init| ==> init[i] == ss[i];
    }
  }

  /** A word is kept exactly when it is one of the normalised lines and within the bounds. */
  lemma {:induction false} KeptMembership(ws: seq<string>, lo: int, hi: int, w: string)
    ensures w in Kept(ws, lo, hi) <==> InBounds(w, lo, hi) && w in ws
  {
    if ws != [] {
      var init := ws[..|ws| - 1];
      KeptMembership(init, lo, hi, w);
      assert ws == init + [ws[|ws| - 1]];
    }
  }

  /** A word comes from a list exactly when some line of it normalises to the word and the word is within bounds. */
  lemma FileWordsMembership(lines: seq<string>, lo: int, hi: int, w: string)
    ensures w in FileWords(lines, lo, hi) <==>
      InBounds(w, lo, hi) && exists j :: 0 <= j < |lines| && Normalize(lines[j]) == w
  {
    var ns := Normalized(lines);
    KeptMembership(ns, lo, hi, w);
    if w in ns {
      var j :| 0 <= j < |ns| && ns[j] == w;
      assert Normalize(lines[j]) == w;
    }
    if exists j :: 0 <= j < |lines| && Normalize(lines[j]) == w {
      var j :| 0 <= j < |lines| && Normalize(lines[j]) == w;
      assert ns[j] == w;
    }
  }

  /** A word is in the pool exactly when it is in the contribution of some word list. */
  lemma PoolMembership(files: seq<seq<string>>, lo: int, hi: int, w: string)
    ensures w in PoolOf(files, lo, hi) <==> exists i :: 0 <= i < |files| && w in FileWords(files[i], lo, hi)
  {
    var cs := Contributions(files, lo, hi);
    UnionMembership(cs, w);
    if exists i :: 0 <= i < |files| && w in FileWords(files[i], lo, hi) {
      var i :| 0 <= i < |files| && w in FileWords(files[i], lo, hi);
      assert w in cs[i];
    }
  }

  /**
    What the pool holds: `w` is in it exactly when some line of some word
    list strips and lower-cases to `w` and `w` is within the bounds. Such a
    word is then lower case, has no surrounding whitespace, and normalises
    to itself.
  */
  lemma PoolWords(files: seq<seq<string>>, lo: int, hi: int, w: string)
    ensures w in PoolOf(files, lo, hi) <==>
      InBounds(w, lo, hi) &&
      exists i, j :: 0 <= i < |files| && 0 <= j < |files[i]| && Normalize(files[i][j]) == w
    ensures w in PoolOf(files, lo, hi) ==>
      Normalize(w) == w && (forall k :: 0 <= k < |w| ==> !IsUpper(w[k])) &&
      (w == [] || (!IsSpace(w[0]) && !IsSpace(w[|w| - 1])))
  {
    PoolMembership(files, lo, hi, w);
    forall i | 0 <= i < |files| {
      FileWordsMembership(files[i], lo, hi, w);
    }
    if w in PoolOf(files, lo, hi) {
      var i, j :| 0 <= i < |files| && 0 <= j < |files[i]| && Normalize(files[i][j]) == w;
      NormalizeIdempotent(files[i][j]);
    }
  }

  /**
    The pool depends only on which word lists are given: their order and
    repetitions do not matter, and a word in several lists appears once.
  */
  lemma PoolIgnoresOrder(files1: seq<seq<string>>, files2: seq<seq<string>>, lo: int, hi: int)
    requires forall f :: f in files1 <==> f in files2
    ensures PoolOf(files1, lo, hi) == PoolOf(files2, lo, hi)
  {
    forall w ensures w in PoolOf(files1, lo, hi) <==> w in PoolOf(files2, lo, hi) {
      PoolMembership(files1, lo, hi, w);
      PoolMembership(files2, lo, hi, w);
      if exists i :: 0 <= i < |files1| && w in FileWords(files1[i], lo, hi) {
        var i :| 0 <= i < |files1| && w in FileWords(files1[i], lo, hi);
        assert files1[i] in files2;
      }
      if exists i :: 0 <= i < |files2| && w in FileWords(files2[i], lo, hi) {
        var i :| 0 <= i < |files2| && w in FileWords(files2[i], lo, hi);
        assert files2[i] in files1;
      }
    }
  }

  /** The pool of several word lists is the union of their pools. */
  lemma PoolAppend(files1: seq<seq<string>>, files2: seq<seq<string>>, lo: int, hi: int)
    ensures PoolOf(files1 + files2, lo, hi) == PoolOf(files1, lo, hi) + PoolOf(files2, lo, hi)
  {
    forall w ensures w in PoolOf(files1 + files2, lo, hi) <==> w in PoolOf(files1, lo, hi) + PoolOf(files2, lo, hi) {
      var all := files1 + files2;
      PoolMembership(all, lo, hi, w);
      PoolMembership(files1, lo, hi, w);
      PoolMembership(files2, lo, hi, w);
      if exists i :: 0 <= i < |all| && w in FileWords(all[i], lo, hi) {
        var i :| 0 <= i < |all| && w in FileWords(all[i], lo, hi);
        if i < |files1| { assert all[i] == files1[i]; } else { assert all[i] == files2[i - |files1|]; }
      }
      if exists i :: 0 <= i < |files1| && w in FileWords(files1[i], lo, hi) {
        var i :| 0 <= i < |files1| && w in FileWords(files1[i], lo, hi);
        assert all[i] == files1[i];
      }
      if exists i :: 0 <= i < |files2| && w in FileWords(files2[i], lo, hi) {
        var i :| 0 <= i < |files2| && w in FileWords(files2[i], lo, hi);
        assert all[i + |files1|] == files2[i];
      }
    }
  }
}
