/**
  The password engine of `main()`: validate the options, build the
  comparison table, build the word pool, count the pool's password choices,
  print the table sorted by strength, draw the words and print the password.

  The command line arrives already parsed into `Options`. The file system is
  a map from path to the lines of that file: a path is a file exactly when it
  is a key. The default word lists (found at start-up by searching `PATH`)
  arrive as the sequence `defaults`, in the order `list(DEFAULT_WORDS_PATHS)`
  happens to produce. Printed lines are values of `Line`; a floating-point bit
  count is represented by the choice count it is computed from.
*/
module PassWords {
  import opened Counting
  import opened Text
  import opened Format
  import opened Choices
  import opened Entropy
  import opened Pool
  import opened Sampler

  const DefaultMaxWordLen: int := 8
  const DefaultMinWordLen: int := 4
  const DefaultWordCount: int := 5
  const DefaultWordSeparator: string := " "

  /** The settings `-c`, `-m`, `-n`, `-s`, `-v` and the `-p` paths in the order given. */
  datatype Options = Options(
    wordCount: int, maxWordLen: int, minWordLen: int,
    separator: string, verbose: bool, paths: seq<string>)

  const Defaults: Options :=
    Options(DefaultWordCount, DefaultMaxWordLen, DefaultMinWordLen, DefaultWordSeparator, false, [])

  /** Why `usage_exit` was called. */
  datatype Usage = NotAFile(path: string) | MaxBelowMin(maxWordLen: int, minWordLen: int)

  /** How a run can end early. */
  datatype Failure =
    | UsageError(usage: Usage)   // message and usage text on standard error, exit 1
    | CannotOpen(path: string)   // `open(wp)` raises
    | AssertionFailed            // `assert w_count > 1` in `count_choices`
    | SampleTooLarge             // `random.sample` raises: more words wanted than the pool holds

  datatype Status = Success | Failed(failure: Failure)

  /** One line of standard output. */
  datatype Line =
    | Header                              // "Bit Entropy comparisons"
    | EntropyLine(bits: Bits, desc: string)  // "{log2:5.1f} bits - {desc}"
    | WordLine(word: string)
    | PasswordLine(password: string)

  /** Everything a run prints on standard output, and how it ends. */
  datatype Report = Report(out: seq<Line>, status: Status)

  /** The process exit status: 0 after a normal end, 1 after any failure. */
  function ExitCode(s: Status): (code: int)
    ensures code == 0 <==> s == Success
    ensures code == 0 || code == 1
  {
    if s == Success then 0 else 1
  }

  datatype Bounds = Rejected(usage: Usage) | Bounds(lo: int, hi: int)

  /**
    `max < min` is rejected; otherwise the minimum that `-n`
    set is replaced by the default, so the filter always keeps words of at
    least four characters.
  */
  function WordBounds(maxWordLen: int, minWordLen: int): (b: Bounds)
    ensures b.Rejected? <==> maxWordLen < minWordLen
    ensures b.Rejected? ==> b.usage == MaxBelowMin(maxWordLen, minWordLen)
    ensures b.Bounds? ==> b.lo == DefaultMinWordLen && b.hi == maxWordLen
  {
    if maxWordLen < minWordLen then Rejected(MaxBelowMin(maxWordLen, minWordLen))
    else Bounds(DefaultMinWordLen, maxWordLen)
  }

  /** The position of the first path that is not a file, or `|paths|` when all are. */
  function FirstNotFile(paths: seq<string>, fs: map<string, seq<string>>): (i: nat)
    ensures i <= |paths|
    ensures forall j :: 0 <= j < i ==> paths[j] in fs
    ensures i < |paths| ==> paths[i] !in fs
  {
    if paths == [] then 0
    else if paths[0] !in fs then 0
    else 1 + FirstNotFile(paths[1..], fs)
  }

  /** The word lists read: the `-p` paths, or the defaults when none was given. */
  function WordsPaths(o: Options, defaults: seq<string>): (ps: seq<string>)
    ensures o.paths != [] ==> ps == o.paths
    ensures o.paths == [] ==> ps == defaults
  {
    if o.paths == [] then defaults else o.paths
  }

  /** The lines of each file in turn (a missing file reads as empty here; the run stops before that matters). */
  function Contents(paths: seq<string>, fs: map<string, seq<string>>): (files: seq<seq<string>>)
    ensures |files| == |paths|
  {
    seq(|paths|, i requires 0 <= i < |paths| => if paths[i] in fs then fs[paths[i]] else [])
  }

  /** The pool a run draws from. */
  function WordPool(o: Options, defaults: seq<string>, fs: map<string, seq<string>>): set<string> {
    PoolOf(Contents(WordsPaths(o, defaults), fs), DefaultMinWordLen, o.maxWordLen)
  }

  /** The bounds part of the pool's description, with the minimum already reset to the default. */
  function PoolBounds(maxWordLen: int): string {
    "words (" + IntToString(DefaultMinWordLen) + "-" + IntToString(maxWordLen) + " letters) from "
  }

  /**
    The description of the pool's record: the right-aligned word count, `*[`,
    the pool's size, and at the end the word lists joined by `:` and `]`.
  */
  function PoolDesc(wordCount: int, poolSize: nat, maxWordLen: int, paths: seq<string>): (d: string)
    ensures |d| == |Format2d(wordCount)| + |IntToString(poolSize)| + |PoolBounds(maxWordLen)| + |Join(":", paths)| + 4
    ensures d[..|Format2d(wordCount)| + 2] == Format2d(wordCount) + "*["
    ensures d[|Format2d(wordCount)| + 2..|Format2d(wordCount)| + 2 + |IntToString(poolSize)|] == IntToString(poolSize)
    ensures d[|d| - |Join(":", paths)| - 1..] == Join(":", paths) + "]"
  {
    var pre, j := PoolBounds(maxWordLen), Join(":", paths);
    ReferenceDescEnds(wordCount, poolSize, pre, j);
    ReferenceDesc(wordCount, poolSize, pre + j)
  }

  /** The record appended for the pool: `count_choices(len(words), word_count)` choices. */
  function PoolRecord(wordCount: int, pool: set<string>, maxWordLen: int, paths: seq<string>): (r: Record)
    requires wordCount >= 1
    ensures r.choices == 0 <==> wordCount > |pool|
  {
    Record(CountChoices(|pool|, wordCount), PoolDesc(wordCount, |pool|, maxWordLen, paths))
  }

  /** The records `entropies` holds before the pool's is appended: the sixteen reference records in verbose mode. */
  function References(verbose: bool): (rs: seq<Record>)
    ensures |rs| == if verbose then 16 else 0
    ensures verbose ==> rs == ReferenceTable()
  {
    if verbose then ReferenceTable() else []
  }

  /** One printed line per record, in the order given. */
  function EntropyLines(rs: seq<Record>): (ls: seq<Line>)
    ensures |ls| == |rs|
    ensures forall i :: 0 <= i < |rs| ==> ls[i] == EntropyLine(DisplayedBits(rs[i].choices), rs[i].desc)
  {
    seq(|rs|, i requires 0 <= i < |rs| => EntropyLine(DisplayedBits(rs[i].choices), rs[i].desc))
  }

  /** The table as printed: the header when there is more than one record, then the records sorted. */
  function TableLines(es: seq<Record>): (ls: seq<Line>)
    ensures |ls| == |es| + (if |es| > 1 then 1 else 0)
    ensures forall i :: 0 <= i < |ls| ==> (ls[i].Header? <==> i == 0 && |es| > 1)
  {
    (if |es| > 1 then [Header] else []) + EntropyLines(Sort(es))
  }

  /** One printed line per drawn word, in the order drawn. */
  function WordLines(ws: seq<string>): (ls: seq<Line>)
    ensures |ls| == |ws|
    ensures forall i :: 0 <= i < |ws| ==> ls[i] == WordLine(ws[i])
  {
    seq(|ws|, i requires 0 <= i < |ws| => WordLine(ws[i]))
  }

  /**
    What a run prints and how it ends, given the words `drawn` by the random
    sample (they matter only when the run gets that far).
  */
  function Outcome(o: Options, defaults: seq<string>, fs: map<string, seq<string>>, drawn: seq<string>): (r: Report)
    ensures r.out != [] ==> r.status == Success || r.status == Failed(SampleTooLarge)
    ensures r.out != [] ==>
      (o.wordCount >= 1 &&
       r == Draw(o, References(o.verbose), WordPool(o, defaults, fs), o.maxWordLen, WordsPaths(o, defaults), drawn))
    ensures r.status == Success ==> 1 <= o.wordCount <= |WordPool(o, defaults, fs)|
    ensures r.status == Failed(SampleTooLarge) ==> 1 <= o.wordCount && |WordPool(o, defaults, fs)| < o.wordCount
  {
    var bad := FirstNotFile(o.paths, fs);
    if bad < |o.paths| then Report([], Failed(UsageError(NotAFile(o.paths[bad]))))
    else
      match WordBounds(o.maxWordLen, o.minWordLen)
      case Rejected(u) => Report([], Failed(UsageError(u)))
      case Bounds(lo, hi) =>
        var paths := WordsPaths(o, defaults);
        var missing := FirstNotFile(paths, fs);
        if missing < |paths| then Report([], Failed(CannotOpen(paths[missing])))
        else if o.wordCount < 1 then Report([], Failed(AssertionFailed))
        else Draw(o, References(o.verbose), PoolOf(Contents(paths, fs), lo, hi), hi, paths, drawn)
  }

  /**
    The end of a run once the pool is built: the table is printed, then the
    sample either fails or its words and the password are printed.
  */
  function Draw(o: Options, refs: seq<Record>, pool: set<string>, hi: int, paths: seq<string>, drawn: seq<string>): (r: Report)
    requires o.wordCount >= 1
    ensures var table := TableLines(refs + [PoolRecord(o.wordCount, pool, hi, paths)]);
      |table| <= |r.out| && r.out[..|table|] == table
    ensures r.status == Success <==> o.wordCount <= |pool|
    ensures r.status != Success ==> r.status == Failed(SampleTooLarge)
  {
    var table := TableLines(refs + [PoolRecord(o.wordCount, pool, hi, paths)]);
    if o.wordCount > |pool| then Report(table, Failed(SampleTooLarge))
    else Report(table + WordLines(drawn) + [PasswordLine(Password(o.separator, drawn))], Success)
  }

  /** Reading one more file appends its lines. */
  lemma ContentsStep(paths: seq<string>, fs: map<string, seq<string>>, i: nat)
    requires i < |paths| && paths[i] in fs
    ensures Contents(paths[..i + 1], fs) == Contents(paths[..i], fs) + [fs[paths[i]]]
  {
    var a, b := Contents(paths[..i + 1], fs), Contents(paths[..i], fs) + [fs[paths[i]]];
    forall k | 0 <= k < |a| ensures a[k] == b[k] {
      assert paths[..i + 1][k] == paths[k];
    }
  }

  /** The `-p` check, path by path: the position of the first path that is not a file. */
  method CheckFiles(paths: seq<string>, fs: map<string, seq<string>>) returns (bad: nat)
    ensures bad == FirstNotFile(paths, fs)
  {
    for i := 0 to |paths|
      invariant forall j :: 0 <= j < i ==> paths[j] in fs
    {
      if paths[i] !in fs {
        FirstNotFileAt(paths, fs, i);
        return i;
      }
    }
    FirstNotFileAt(paths, fs, |paths|);
    bad := |paths|;
  }

  /** `FirstNotFile` is the one position before which every path is a file and at which one is not. */
  lemma {:induction false} FirstNotFileAt(paths: seq<string>, fs: map<string, seq<string>>, i: nat)
    requires i <= |paths|
    requires forall j :: 0 <= j < i ==> paths[j] in fs
    requires i < |paths| ==> paths[i] !in fs
    ensures FirstNotFile(paths, fs) == i
  {
    if i > 0 {
      FirstNotFileAt(paths[1..], fs, i - 1);
    }
  }

  /**
    `open(wp)` for each word list in turn: it fails on the first path that is
    not a file; otherwise every file's lines are read.
  */
  method OpenAll(paths: seq<string>, fs: map<string, seq<string>>)
    returns (missing: nat, files: seq<seq<string>>)
    ensures missing == FirstNotFile(paths, fs)
    ensures missing == |paths| ==> files == Contents(paths, fs)
  {
    files := [];
    for i := 0 to |paths|
      invariant forall j :: 0 <= j < i ==> paths[j] in fs
      invariant files == Contents(paths[..i], fs)
    {
      if paths[i] !in fs {
        FirstNotFileAt(paths, fs, i);
        return i, files;
      }
      ContentsStep(paths, fs, i);
      files := files + [fs[paths[i]]];
    }
    FirstNotFileAt(paths, fs, |paths|);
    assert paths[..|paths|] == paths;
    missing := |paths|;
  }

  /** The printing loop of the table: the header when there is more than one record, then one line per record in sorted order. */
  method PrintTable(out0: seq<Line>, entropies: seq<Record>) returns (out: seq<Line>)
    ensures out == out0 + TableLines(entropies)
  {
    out := out0;
    if |entropies| > 1 {
      out := out + [Header];
    }
    var sorted := Sort(entropies);
    ghost var header := out;
    for i := 0 to |sorted|
      invariant out == header + EntropyLines(sorted[..i])
    {
      out := out + [EntropyLine(DisplayedBits(sorted[i].choices), sorted[i].desc)];
      assert sorted[..i + 1] == sorted[..i] + [sorted[i]];
    }
    assert sorted[..|sorted|] == sorted;
  }

  /** The printing loop of the drawn words: one line per word. */
  method PrintWords(out0: seq<Line>, drawn: seq<string>) returns (out: seq<Line>)
    ensures out == out0 + WordLines(drawn)
  {
    out := out0;
    for i := 0 to |drawn|
      invariant out == out0 + WordLines(drawn[..i])
    {
      out := out + [WordLine(drawn[i])];
      assert drawn[..i + 1] == drawn[..i] + [drawn[i]];
    }
    assert drawn[..|drawn|] == drawn;
  }

  /** `main()`, step by step as the program does it. */
  method Run(o: Options, defaults: seq<string>, fs: map<string, seq<string>>)
    returns (out: seq<Line>, status: Status, drawn: seq<string>)
    ensures Report(out, status) == Outcome(o, defaults, fs, drawn)
    ensures status == Success ==> IsSample(WordPool(o, defaults, fs), o.wordCount, drawn)
  {
    out, drawn := [], [];
    var bad := CheckFiles(o.paths, fs);
    if bad < |o.paths| {
      status := Failed(UsageError(NotAFile(o.paths[bad])));
      return;
    }
    var maxWordLen, minWordLen := o.maxWordLen, o.minWordLen;
    if maxWordLen < minWordLen {
      status := Failed(UsageError(MaxBelowMin(maxWordLen, minWordLen)));
      return;
    }
    minWordLen := DefaultMinWordLen;

    var entropies: seq<Record> := [];
    if o.verbose {
      entropies := ReferenceRecords();
    }
    assert entropies == References(o.verbose);

    var paths := o.paths;
    if paths == [] {
      paths := defaults;
    }
    var missing, files := OpenAll(paths, fs);
    if missing < |paths| {
      status := Failed(CannotOpen(paths[missing]));
      return;
    }
    var words := BuildPool(files, minWordLen, maxWordLen);

    var wordCount := o.wordCount;
    if wordCount < 1 {
      status := Failed(AssertionFailed);
      return;
    }
    out, status, drawn := Finish(o, entropies, words, maxWordLen, paths);
  }

  /** The end of a run: append the pool's record, print the table, draw and print the words and the password. */
  method Finish(o: Options, entropies0: seq<Record>, words: set<string>, maxWordLen: int, paths: seq<string>)
    returns (out: seq<Line>, status: Status, drawn: seq<string>)
    requires o.wordCount >= 1
    ensures Report(out, status) == Draw(o, entropies0, words, maxWordLen, paths, drawn)
    ensures status == Success ==> IsSample(words, o.wordCount, drawn)
  {
    var wordCount := o.wordCount;
    var choices := CountChoices(|words|, wordCount);
    var desc := PoolDesc(wordCount, |words|, maxWordLen, paths);
    var entropies := entropies0 + [Record(choices, desc)];
    assert Record(choices, desc) == PoolRecord(wordCount, words, maxWordLen, paths);
    out := PrintTable([], entropies);
    ghost var table := out;
    assert table == TableLines(entropies);

    var ok;
    ok, drawn := Sample(words, wordCount);
    if !ok {
      status := Failed(SampleTooLarge);
      return;
    }
    out := PrintWords(out, drawn);
    out := out + [PasswordLine(Password(o.separator, drawn))];
    status := Success;
    assert out == table + WordLines(drawn) + [PasswordLine(Password(o.separator, drawn))];
  }
}

/**
  What a run promises, stated on `Outcome`.
*/
module PassWordsProperties {
  import opened Counting
  import opened Text
  import opened Choices
  import opened Entropy
  import opened Pool
  import opened Sampler
  import opened PassWords

  /** Whether a path is a file depends only on which paths exist, not on what the files hold. */
  lemma {:induction false} FirstNotFileKeys(paths: seq<string>, fs1: map<string, seq<string>>, fs2: map<string, seq<string>>)
    requires forall p :: p in fs1 <==> p in fs2
    ensures FirstNotFile(paths, fs1) == FirstNotFile(paths, fs2)
  {
    if paths != [] {
      FirstNotFileKeys(paths[1..], fs1, fs2);
    }
  }

  /**
    `max < min` ends the run with a usage error and exit code 1, before any
    output and before any word list is read: what the files hold makes no
    difference.
  */
  lemma BoundsRejected(o: Options, defaults: seq<string>, fs1: map<string, seq<string>>,
                       fs2: map<string, seq<string>>, drawn: seq<string>)
    requires o.maxWordLen < o.minWordLen
    requires forall p :: p in fs1 <==> p in fs2
    requires FirstNotFile(o.paths, fs1) == |o.paths|
    ensures Outcome(o, defaults, fs1, drawn) == Report([], Failed(UsageError(MaxBelowMin(o.maxWordLen, o.minWordLen))))
    ensures Outcome(o, defaults, fs1, drawn) == Outcome(o, defaults, fs2, drawn)
    ensures ExitCode(Outcome(o, defaults, fs1, drawn).status) == 1
  {
    FirstNotFileKeys(o.paths, fs1, fs2);
  }

  /**
    Once `max >= min` is accepted, the value given with `-n` has no effect on
    the run: the lower bound used is always the default, four.
  */
  lemma MinimumIgnored(o: Options, n: int, defaults: seq<string>, fs: map<string, seq<string>>, drawn: seq<string>)
    requires o.minWordLen <= o.maxWordLen && n <= o.maxWordLen
    ensures Outcome(o.(minWordLen := n), defaults, fs, drawn) == Outcome(o, defaults, fs, drawn)
  {
  }

  /**
    Every drawn word is the stripped, lower-cased form of a line of one of
    the word lists read, and has between four and `max` characters.
  */
  lemma DrawnWords(o: Options, defaults: seq<string>, fs: map<string, seq<string>>, drawn: seq<string>, i: nat)
    requires IsSample(WordPool(o, defaults, fs), o.wordCount, drawn)
    requires i < |drawn|
    ensures DefaultMinWordLen <= |drawn[i]| <= o.maxWordLen
    ensures var files := Contents(WordsPaths(o, defaults), fs);
      exists f, j :: 0 <= f < |files| && 0 <= j < |files[f]| && Normalize(files[f][j]) == drawn[i]
  {
    PoolWords(Contents(WordsPaths(o, defaults), fs), DefaultMinWordLen, o.maxWordLen, drawn[i]);
  }

  /**
    The pool's description names the word lists read, in order: when no path
    contains `:`, the text before the closing `]` splits on `:` into the paths.
  */
  lemma PoolDescNamesPaths(wordCount: int, poolSize: nat, maxWordLen: int, paths: seq<string>)
    requires |paths| >= 1
    requires forall k :: 0 <= k < |paths| ==> ':' !in paths[k]
    ensures var d, j := PoolDesc(wordCount, poolSize, maxWordLen, paths), Join(":", paths);
      Split(d[|d| - |j| - 1..|d| - 1], ':') == paths
  {
    ClosedListSplits(PoolDesc(wordCount, poolSize, maxWordLen, paths), paths);
  }

  /** A text ending with the paths joined by `:` and `]` gives the paths back when split before the `]`. */
  lemma ClosedListSplits(d: string, paths: seq<string>)
    requires |paths| >= 1
    requires forall k :: 0 <= k < |paths| ==> ':' !in paths[k]
    requires |Join(":", paths)| + 1 <= |d| && d[|d| - |Join(":", paths)| - 1..] == Join(":", paths) + "]"
    ensures var j := Join(":", paths); Split(d[|d| - |j| - 1..|d| - 1], ':') == paths
  {
    var j := Join(":", paths);
    var t := d[|d| - |j| - 1..];
    assert d[|d| - |j| - 1..|d| - 1] == t[..|j|];
    assert t[..|j|] == j;
    SplitJoin(paths, ':');
  }

  /** The pool's count is the number of different word sequences the draw can produce. */
  lemma PoolRecordCounts(wordCount: int, pool: set<string>, maxWordLen: int, paths: seq<string>)
    requires wordCount >= 1
    ensures PoolRecord(wordCount, pool, maxWordLen, paths).choices == |Arrangements(pool, wordCount)|
  {
    ArrangementsCard(pool, wordCount);
  }

  /**
    The table lists the records in ascending order: it is the same as
    printing any arrangement of the records that is sorted, because there is
    only one.
  */
  lemma TablePrintsSorted(es: seq<Record>, rs: seq<Record>)
    requires SortedRecords(rs) && multiset(rs) == multiset(es)
    ensures TableLines(es) == (if |es| > 1 then [Header] else []) + EntropyLines(rs)
  {
    SortSortsAndPermutes(es);
    SortedUnique(Sort(es), rs);
  }

  /** The table's first line is the header exactly when there is more than one record. */
  lemma TableStart(es: seq<Record>)
    requires es != []
    ensures TableLines(es) != []
    ensures TableLines(es)[0] == Header <==> |es| > 1
  {
    SortSortsAndPermutes(es);
    assert |Sort(es)| == |multiset(Sort(es))| == |es|;
  }

  /** Every record, the pool's included, gets its line in the table. */
  lemma TableShows(es: seq<Record>, r: Record)
    requires r in es
    ensures exists i :: 0 <= i < |TableLines(es)| && TableLines(es)[i] == EntropyLine(DisplayedBits(r.choices), r.desc)
  {
    var sorted := Sort(es);
    SortSortsAndPermutes(es);
    assert r in multiset(es);
    assert r in multiset(sorted);
    var k :| 0 <= k < |sorted| && sorted[k] == r;
    var header: seq<Line> := if |es| > 1 then [Header] else [];
    var lines := EntropyLines(sorted);
    assert lines[k] == EntropyLine(DisplayedBits(r.choices), r.desc);
    assert TableLines(es) == header + lines;
    assert TableLines(es)[|header| + k] == lines[k];
  }

  /** A run that prints anything starts with the header exactly in verbose mode. */
  lemma HeaderIffVerbose(o: Options, defaults: seq<string>, fs: map<string, seq<string>>, drawn: seq<string>)
    requires Outcome(o, defaults, fs, drawn).out != []
    ensures Outcome(o, defaults, fs, drawn).out[0] == Header <==> o.verbose
  {
    var paths := WordsPaths(o, defaults);
    var pool := PoolOf(Contents(paths, fs), DefaultMinWordLen, o.maxWordLen);
    var es := References(o.verbose) + [PoolRecord(o.wordCount, pool, o.maxWordLen, paths)];
    var d := Draw(o, References(o.verbose), pool, o.maxWordLen, paths, drawn);
    assert Outcome(o, defaults, fs, drawn) == d;
    assert |es| > 1 <==> o.verbose;
    assert d.out[0] == TableLines(es)[0];
  }

  /**
    When more words are wanted than the pool holds, the table is still
    printed, the pool's line shows 0 bits, and the run fails with exit code 1.
  */
  lemma SampleTooLargeShowsZero(o: Options, defaults: seq<string>, fs: map<string, seq<string>>, drawn: seq<string>)
    requires Outcome(o, defaults, fs, drawn).status == Failed(SampleTooLarge)
    ensures var out := Outcome(o, defaults, fs, drawn).out;
      exists i :: 0 <= i < |out| && out[i].EntropyLine? && out[i].bits == ZeroBits
  {
    var paths := WordsPaths(o, defaults);
    var pool := PoolOf(Contents(paths, fs), DefaultMinWordLen, o.maxWordLen);
    var r := PoolRecord(o.wordCount, pool, o.maxWordLen, paths);
    var es := References(o.verbose) + [r];
    assert r in es;
    TableShows(es, r);
  }

  /**
    A successful run prints the drawn words one per line, in the order drawn,
    and ends with them joined by the separator.
  */
  lemma PasswordIsLastLine(o: Options, defaults: seq<string>, fs: map<string, seq<string>>, drawn: seq<string>)
    requires Outcome(o, defaults, fs, drawn).status == Success
    ensures var out := Outcome(o, defaults, fs, drawn).out;
      |out| > |drawn| &&
      out[|out| - 1] == PasswordLine(Join(o.separator, drawn)) &&
      out[|out| - 1 - |drawn|..|out| - 1] == WordLines(drawn)
  {
    var paths := WordsPaths(o, defaults);
    var pool := PoolOf(Contents(paths, fs), DefaultMinWordLen, o.maxWordLen);
    var table := TableLines(References(o.verbose) + [PoolRecord(o.wordCount, pool, o.maxWordLen, paths)]);
    var out := Outcome(o, defaults, fs, drawn).out;
    assert out == table + WordLines(drawn) + [PasswordLine(Password(o.separator, drawn))];
    assert out[|table|..|out| - 1] == WordLines(drawn);
  }

  /** Every failure other than the sample's prints nothing on standard output. */
  lemma EarlyFailuresPrintNothing(o: Options, defaults: seq<string>, fs: map<string, seq<string>>, drawn: seq<string>)
    requires Outcome(o, defaults, fs, drawn).status.Failed?
    requires Outcome(o, defaults, fs, drawn).status.failure != SampleTooLarge
    ensures Outcome(o, defaults, fs, drawn).out == []
    ensures ExitCode(Outcome(o, defaults, fs, drawn).status) == 1
  {
  }
}
