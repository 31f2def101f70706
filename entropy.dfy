/**
  The comparison table of the password engine's verbose mode: one record
  `(choices, description)` for each character alphabet and password length
  it compares against, one record for the word scheme itself, sorted the way
  Python sorts a list of pairs.
*/
module Entropy {
  import opened Counting
  import opened Text
  import opened Format

  /** The characters with codes `lo` up to but excluding `hi`, in increasing order. */
  function CharRange(lo: nat, hi: nat): (s: string)
    requires lo <= hi < 0xD800
    ensures |s| == hi - lo
    ensures forall i :: 0 <= i < |s| ==> s[i] as int == lo + i
  {
    seq(hi - lo, i requires 0 <= i < hi - lo => (lo + i) as char)
  }

  /** Python's `string.ascii_lowercase`, "abcdefghijklmnopqrstuvwxyz". */
  const AsciiLowercase: string := CharRange('a' as nat, 'z' as nat + 1)
  /** Python's `string.ascii_uppercase`, "ABCDEFGHIJKLMNOPQRSTUVWXYZ". */
  const AsciiUppercase: string := CharRange('A' as nat, 'Z' as nat + 1)
  /** Python's `string.ascii_letters`. */
  const AsciiLetters: string := AsciiLowercase + AsciiUppercase
  /** Python's `string.digits`, "0123456789". */
  const Digits: string := CharRange('0' as nat, '9' as nat + 1)
  /**
    Python's `string.punctuation`, the 32 characters
    !"#$%&'()*+,-./ then :;<=>?@ then [\]^_` then {|}~ (four runs of codes).
  */
  const Punctuation: string := CharRange(33, 48) + CharRange(58, 65) + CharRange(91, 97) + CharRange(123, 127)
  /** Python's `string.whitespace`: space, tab, line feed, carriage return, vertical tab, form feed. */
  const Whitespace: string := " \t\n\r\U{B}\U{C}"
  /** Python's `string.printable`. */
  const Printable: string := Digits + AsciiLetters + Punctuation + Whitespace

  /**
    Python's `"".join(s.split())`: `split()` cuts `s` at runs of whitespace and
    drops them, so gluing the pieces back leaves `s` without its whitespace.
  */
  function DropWhitespace(s: string): (r: string)
    ensures forall c :: c in r <==> c in s && !IsSpace(c)
  {
    if s == [] then []
    else if IsSpace(s[0]) then DropWhitespace(s[1..])
    else [s[0]] + DropWhitespace(s[1..])
  }

  /** The alphabets of the comparison, with their labels, in the order the program lists them. */
  const Alphabets: seq<(string, string)> := [
    ("ASCII lowercase letters", AsciiLowercase),
    ("ASCII letters", AsciiLetters),
    ("ASCII letters or digits", AsciiLetters + Digits),
    ("ASCII printable non whitespace", DropWhitespace(Printable))
  ]

  /** The password lengths of the comparison. */
  const Lengths: seq<nat> := [8, 10, 16, 20]

  /** One row of the comparison: the number of equally likely passwords and its name. */
  datatype Record = Record(choices: nat, desc: string)

  /**
    The description of a row, `f"{n:2d}*[{size:d} {name}]"`: the right-aligned
    count, `*[`, the size, a space, the name and `]`.
  */
  function ReferenceDesc(n: int, size: nat, name: string): (d: string)
    ensures |d| == |Format2d(n)| + |IntToString(size)| + |name| + 4
    ensures d[..|Format2d(n)| + 2] == Format2d(n) + "*["
    ensures d[|Format2d(n)| + 2..|Format2d(n)| + 2 + |IntToString(size)|] == IntToString(size)
    ensures d[|d| - |name| - 2..] == " " + name + "]"
  {
    var a, b := Format2d(n) + "*[", IntToString(size);
    var d := a + b + " " + name + "]";
    assert d == a + (b + (" " + name + "]"));
    d
  }

  /** A description whose name ends with `j` ends with `j + "]"`. */
  lemma ReferenceDescEnds(n: int, size: nat, pre: string, j: string)
    ensures var d := ReferenceDesc(n, size, pre + j);
      |d| == |Format2d(n)| + |IntToString(size)| + |pre| + |j| + 4 &&
      d[|d| - |j| - 1..] == j + "]"
  {
    NameEnds(ReferenceDesc(n, size, pre + j), pre, j);
  }

  lemma NameEnds(d: string, pre: string, j: string)
    requires |pre + j| + 2 <= |d| && d[|d| - |pre + j| - 2..] == " " + (pre + j) + "]"
    ensures d[|d| - |j| - 1..] == j + "]"
  {
    var tail := d[|d| - |pre + j| - 2..];
    assert tail == (" " + pre) + (j + "]");
    assert d[|d| - |j| - 1..] == tail[|tail| - |j| - 1..];
  }

  /** The record for passwords of `n` characters drawn from the alphabet `text`: `len(text) ** n` choices. */
  function ReferenceRecord(name: string, text: string, n: nat): Record {
    Record(Pow(|text|, n), ReferenceDesc(n, |text|, name))
  }

  /**
    The sixteen records of the verbose mode, in the order of
    `itertools.product(desc_texts, counts)`: the alphabet changes slowest.
  */
  function ReferenceTable(): (t: seq<Record>)
    ensures |t| == 16
  {
    seq(16, i requires 0 <= i < 16 => ReferenceRecord(Alphabets[i / 4].0, Alphabets[i / 4].1, Lengths[i % 4]))
  }

  lemma ReferenceTableAt(a: nat, j: nat)
    requires a < 4 && j < 4
    ensures (a * 4 + j) / 4 == a && (a * 4 + j) % 4 == j
    ensures ReferenceTable()[a * 4 + j] == ReferenceRecord(Alphabets[a].0, Alphabets[a].1, Lengths[j])
  {
  }

  /** The verbose-mode loop that appends one record per alphabet and length. */
  method ReferenceRecords() returns (es: seq<Record>)
    ensures es == ReferenceTable()
  {
    ghost var table := ReferenceTable();
    assert |Alphabets| == 4 && |Lengths| == 4;
    es := [];
    for a := 0 to |Alphabets|
      invariant es == table[..a * 4]
    {
      var (name, text) := Alphabets[a];
      for j := 0 to |Lengths|
        invariant es == table[..a * 4 + j]
      {
        var n := Lengths[j];
        ReferenceTableAt(a, j);
        PrefixStep(table, a * 4 + j);
        es := es + [ReferenceRecord(name, text, n)];
      }
    }
    assert table[..16] == table;
  }

  /** The characters of the code intervals `bs[0]`, `bs[1]`, ... one after another. */
  function Blocks(bs: seq<(nat, nat)>): (s: string)
    requires forall k :: 0 <= k < |bs| ==> bs[k].0 <= bs[k].1 < 0xD800
  {
    if bs == [] then [] else CharRange(bs[0].0, bs[0].1) + Blocks(bs[1..])
  }

  /** No two of the code intervals overlap. */
  predicate BlocksApart(bs: seq<(nat, nat)>) {
    forall i, j :: 0 <= i < j < |bs| ==> bs[i].1 <= bs[j].0 || bs[j].1 <= bs[i].0
  }

  /** Every character of `Blocks(bs)` comes from one of the intervals. */
  lemma {:induction false} BlocksCodes(bs: seq<(nat, nat)>, i: nat)
    requires forall k :: 0 <= k < |bs| ==> bs[k].0 <= bs[k].1 < 0xD800
    requires i < |Blocks(bs)|
    ensures exists k :: 0 <= k < |bs| && bs[k].0 <= Blocks(bs)[i] as int < bs[k].1
  {
    var head := CharRange(bs[0].0, bs[0].1);
    if i >= |head| {
      BlocksCodes(bs[1..], i - |head|);
      var k :| 0 <= k < |bs[1..]| && bs[1..][k].0 <= Blocks(bs[1..])[i - |head|] as int < bs[1..][k].1;
      assert bs[k + 1].0 <= Blocks(bs)[i] as int < bs[k + 1].1;
    }
  }

  /** Characters cut from intervals that do not overlap are all different. */
  lemma {:induction false} BlocksDistinct(bs: seq<(nat, nat)>)
    requires forall k :: 0 <= k < |bs| ==> bs[k].0 <= bs[k].1 < 0xD800
    requires BlocksApart(bs)
    ensures Distinct(Blocks(bs))
  {
    if bs != [] {
      var head, tail := CharRange(bs[0].0, bs[0].1), Blocks(bs[1..]);
      BlocksDistinct(bs[1..]);
      forall i, j | 0 <= i < |head| && 0 <= j < |tail| ensures head[i] != tail[j] {
        BlocksCodes(bs[1..], j);
        var k :| 0 <= k < |bs[1..]| && bs[1..][k].0 <= tail[j] as int < bs[1..][k].1;
        assert bs[0].1 <= bs[k + 1].0 || bs[k + 1].1 <= bs[0].0;
      }
      DistinctAppend(head, tail);
    }
  }

  lemma {:induction false} DropWhitespaceAppend(a: string, b: string)
    ensures DropWhitespace(a + b) == DropWhitespace(a) + DropWhitespace(b)
  {
    if a == [] {
      assert a + b == b;
    } else {
      assert (a + b)[0] == a[0] && (a + b)[1..] == a[1..] + b;
      DropWhitespaceAppend(a[1..], b);
    }
  }

  /** On one character, `"".join(s.split())` drops it when it is whitespace and keeps it otherwise. */
  lemma DropWhitespaceChar(c: char)
    ensures DropWhitespace([c]) == if IsSpace(c) then [] else [c]
  {
    assert [c][1..] == [];
  }

  lemma {:induction false} DropWhitespaceKeeps(s: string)
    requires forall i :: 0 <= i < |s| ==> !IsSpace(s[i])
    ensures DropWhitespace(s) == s
  {
    if s != [] {
      DropWhitespaceKeeps(s[1..]);
    }
  }

  lemma {:induction false} BlocksAppend(x: seq<(nat, nat)>, y: seq<(nat, nat)>)
    requires forall k :: 0 <= k < |x| ==> x[k].0 <= x[k].1 < 0xD800
    requires forall k :: 0 <= k < |y| ==> y[k].0 <= y[k].1 < 0xD800
    ensures Blocks(x + y) == Blocks(x) + Blocks(y)
  {
    if x == [] {
      assert x + y == y;
    } else {
      assert (x + y)[0] == x[0] && (x + y)[1..] == x[1..] + y;
      BlocksAppend(x[1..], y);
    }
  }

  lemma WhitespaceDropped()
    ensures DropWhitespace(Whitespace) == []
  {
    var ws := Whitespace;
    assert ws[1..][1..][1..][1..][1..][1..] == [];
    assert IsSpace(ws[0]) && IsSpace(ws[1]) && IsSpace(ws[2]) && IsSpace(ws[3]) && IsSpace(ws[4]) && IsSpace(ws[5]);
  }

  lemma VisibleKept()
    ensures DropWhitespace(Digits + AsciiLetters + Punctuation) == Digits + AsciiLetters + Punctuation
  {
    var visible := Digits + AsciiLetters + Punctuation;
    assert forall i :: 0 <= i < |visible| ==> visible[i] as int >= 33;
    DropWhitespaceKeeps(visible);
  }

  /** `"".join(string.printable.split())` is the digits, the letters and the punctuation. */
  lemma PrintableWithoutWhitespace()
    ensures Alphabets[3].1 == Digits + AsciiLetters + Punctuation
  {
    DropWhitespaceAppend(Digits + AsciiLetters + Punctuation, Whitespace);
    VisibleKept();
    WhitespaceDropped();
  }

  lemma BlocksSingle(b: (nat, nat))
    requires b.0 <= b.1 < 0xD800
    ensures Blocks([b]) == CharRange(b.0, b.1)
  {
    assert Blocks([b][1..]) == [];
  }

  const LowerBlocks: seq<(nat, nat)> := [(97, 123)]
  const UpperBlocks: seq<(nat, nat)> := [(65, 91)]
  const DigitBlocks: seq<(nat, nat)> := [(48, 58)]
  const PunctuationBlocks: seq<(nat, nat)> := [(33, 48), (58, 65), (91, 97), (123, 127)]

  lemma LettersAsBlocks()
    ensures AsciiLowercase == Blocks(LowerBlocks)
    ensures AsciiLetters == Blocks(LowerBlocks + UpperBlocks)
    ensures AsciiLetters + Digits == Blocks(LowerBlocks + UpperBlocks + DigitBlocks)
  {
    BlocksSingle((97, 123));
    BlocksSingle((65, 91));
    BlocksSingle((48, 58));
    BlocksAppend(LowerBlocks, UpperBlocks);
    BlocksAppend(LowerBlocks + UpperBlocks, DigitBlocks);
  }

  lemma PunctuationAsBlocks()
    ensures Punctuation == Blocks(PunctuationBlocks)
  {
    var P := PunctuationBlocks;
    var P1, P2, P3, P4 := [P[0]], [P[1]], [P[2]], [P[3]];
    BlocksSingle(P[0]);
    BlocksSingle(P[1]);
    BlocksSingle(P[2]);
    BlocksSingle(P[3]);
    BlocksAppend(P1, P2);
    BlocksAppend(P1 + P2, P3);
    BlocksAppend(P1 + P2 + P3, P4);
    assert P == P1 + P2 + P3 + P4;
  }

  lemma PrintableAsBlocks()
    ensures Alphabets[3].1 == Blocks(DigitBlocks + LowerBlocks + UpperBlocks + PunctuationBlocks)
  {
    LettersAsBlocks();
    PunctuationAsBlocks();
    BlocksSingle((48, 58));
    BlocksAppend(DigitBlocks, LowerBlocks + UpperBlocks);
    BlocksAppend(DigitBlocks + LowerBlocks + UpperBlocks, PunctuationBlocks);
    assert DigitBlocks + (LowerBlocks + UpperBlocks) == DigitBlocks + LowerBlocks + UpperBlocks;
    PrintableWithoutWhitespace();
  }

  const VisibleBlocks: seq<(nat, nat)> := [(48, 58), (97, 123), (65, 91), (33, 48), (58, 65), (91, 97), (123, 127)]

  lemma LowercaseAlphabet()
    ensures |Alphabets[0].1| == 26 && Distinct(Alphabets[0].1)
  {
    LettersAsBlocks();
    BlocksDistinct(LowerBlocks);
  }

  lemma LettersAlphabet()
    ensures |Alphabets[1].1| == 52 && Distinct(Alphabets[1].1)
  {
    LettersAsBlocks();
    BlocksDistinct(LowerBlocks + UpperBlocks);
  }

  lemma AlphanumericAlphabet()
    ensures |Alphabets[2].1| == 62 && Distinct(Alphabets[2].1)
  {
    LettersAsBlocks();
    BlocksDistinct(LowerBlocks + UpperBlocks + DigitBlocks);
  }

  lemma PrintableAlphabet()
    ensures |Alphabets[3].1| == 94 && Distinct(Alphabets[3].1)
  {
    PrintableWithoutWhitespace();
    PrintableAsBlocks();
    VisibleBlocksJoined();
    VisibleBlocksApart();
    BlocksDistinct(VisibleBlocks);
  }

  lemma VisibleBlocksJoined()
    ensures DigitBlocks + LowerBlocks + UpperBlocks + PunctuationBlocks == VisibleBlocks
  {
  }

  lemma VisibleBlocksApart()
    ensures forall k :: 0 <= k < |VisibleBlocks| ==> VisibleBlocks[k].0 <= VisibleBlocks[k].1 < 0xD800
    ensures BlocksApart(VisibleBlocks)
  {
  }

  /** Every alphabet of the comparison: its size, and no character listed twice. */
  lemma AlphabetSizes()
    ensures |Alphabets[0].1| == 26 && |Alphabets[1].1| == 52
    ensures |Alphabets[2].1| == 62 && |Alphabets[3].1| == 94
    ensures forall a :: 0 <= a < |Alphabets| ==> Distinct(Alphabets[a].1)
  {
    LowercaseAlphabet();
    LettersAlphabet();
    AlphanumericAlphabet();
    PrintableAlphabet();
  }

  /** The alphabet sizes of the comparison: `len(text)` for each alphabet. */
  const Sizes: seq<nat> := [26, 52, 62, 94]

  lemma AlphabetLengths()
    ensures forall a :: 0 <= a < 4 ==> |Alphabets[a].1| == Sizes[a]
  {
    PrintableWithoutWhitespace();
  }

  /**
    Row `a * 4 + j` of the comparison counts the passwords of `Lengths[j]`
    characters over an alphabet of `Sizes[a]` characters.
  */
  lemma ReferenceTableChoices(a: nat, j: nat)
    requires a < 4 && j < 4
    ensures ReferenceTable()[a * 4 + j].choices == Pow(Sizes[a], Lengths[j])
  {
    ReferenceTableAt(a, j);
    AlphabetLengths();
  }

  /**
    Each reference count is the number of distinct passwords of that length
    over the alphabet's characters, so its logarithm is the entropy of a
    uniformly drawn password.
  */
  lemma ReferenceTableCountsPasswords(a: nat, j: nat)
    requires a < 4 && j < 4
    ensures ReferenceTable()[a * 4 + j].choices == |Words(Elements(Alphabets[a].1), Lengths[j])|
  {
    ReferenceTableAt(a, j);
    AlphabetSizes();
    DistinctCard(Alphabets[a].1);
    WordsCard(Elements(Alphabets[a].1), Lengths[j]);
  }

  /** The first row: eight lowercase letters, `26 ** 8 == 208827064576` choices. */
  lemma FirstReferenceRecord()
    ensures ReferenceTable()[0] == Record(208827064576, " 8*[26 ASCII lowercase letters]")
  {
    ReferenceTableAt(0, 0);
    LowercaseAlphabet();
    PowOfLowercaseEight();
    DecimalsOfFirstRecord();
  }

  lemma PowOfLowercaseEight()
    ensures Pow(26, 8) == 208827064576
  {
  }

  lemma DecimalsOfFirstRecord()
    ensures ReferenceDesc(8, 26, "ASCII lowercase letters") == " 8*[26 ASCII lowercase letters]"
  {
    var name := "ASCII lowercase letters";
    TwentySix();
    EightPadded();
    assert ReferenceDesc(8, 26, name) == " 8" + "*[" + "26" + " " + name + "]";
    FirstDescText();
  }

  lemma FirstDescText()
    ensures " 8" + "*[" + "26" + " " + "ASCII lowercase letters" + "]" == " 8*[26 ASCII lowercase letters]"
  {
    var head, tail := " 8*[26 ", "ASCII lowercase letters]";
    assert " 8" + "*[" + "26" + " " == head;
    assert "ASCII lowercase letters" + "]" == tail;
    assert head + tail == " 8*[26 ASCII lowercase letters]";
  }

  lemma TwentySix()
    ensures IntToString(26) == "26"
  {
    assert NatToString(2) == "2";
  }

  lemma EightPadded()
    ensures Format2d(8) == " 8"
  {
    assert IntToString(8) == "8";
  }

  /** Python's order on `(choices, desc)` pairs: by count, then by description. */
  predicate RecordLe(x: Record, y: Record) {
    x.choices < y.choices || (x.choices == y.choices && StrLe(x.desc, y.desc))
  }

  lemma RecordLeTotal(x: Record, y: Record)
    ensures RecordLe(x, y) || RecordLe(y, x)
  {
    StrLeTotal(x.desc, y.desc);
  }

  lemma RecordLeAntisymmetric(x: Record, y: Record)
    requires RecordLe(x, y) && RecordLe(y, x)
    ensures x == y
  {
    StrLeAntisymmetric(x.desc, y.desc);
  }

  lemma RecordLeTransitive(x: Record, y: Record, z: Record)
    requires RecordLe(x, y) && RecordLe(y, z)
    ensures RecordLe(x, z)
  {
    if x.choices == y.choices == z.choices {
      StrLeTransitive(x.desc, y.desc, z.desc);
    }
  }

  predicate SortedRecords(s: seq<Record>) {
    forall i, j :: 0 <= i < j < |s| ==> RecordLe(s[i], s[j])
  }

  function Insert(r: Record, s: seq<Record>): (t: seq<Record>)
    ensures |t| == |s| + 1
  {
    if s == [] then [r]
    else if RecordLe(r, s[0]) then [r] + s
    else [s[0]] + Insert(r, s[1..])
  }

  /**
    `entropies.sort()`, the result of Python's list sort on the pairs, as an
    insertion sort; `SortSortsAndPermutes` and `SortedUnique` state that it is
    the one sorted arrangement of the records.
  */
  function Sort(s: seq<Record>): (t: seq<Record>)
    ensures |t| == |s|
  {
    if s == [] then [] else Insert(s[0], Sort(s[1..]))
  }

  lemma {:induction false} InsertPermutes(r: Record, s: seq<Record>)
    ensures multiset(Insert(r, s)) == multiset(s) + multiset{r}
  {
    if s != [] && !RecordLe(r, s[0]) {
      InsertPermutes(r, s[1..]);
      assert multiset(Insert(r, s)) == multiset{s[0]} + multiset(Insert(r, s[1..]));
      assert s == [s[0]] + s[1..];
    }
  }

  /** A lower bound of `r` and of every record of `s` bounds every record of `Insert(r, s)`. */
  lemma {:induction false} InsertAbove(r: Record, s: seq<Record>, b: Record)
    requires RecordLe(b, r)
    requires forall k :: 0 <= k < |s| ==> RecordLe(b, s[k])
    ensures forall k :: 0 <= k < |Insert(r, s)| ==> RecordLe(b, Insert(r, s)[k])
  {
    if s != [] && !RecordLe(r, s[0]) {
      InsertAbove(r, s[1..], b);
    }
  }

  lemma {:induction false} InsertSorted(r: Record, s: seq<Record>)
    requires SortedRecords(s)
    ensures SortedRecords(Insert(r, s))
  {
    if s == [] {
    } else if RecordLe(r, s[0]) {
      forall j | 0 < j < |s| ensures RecordLe(r, s[j]) {
        RecordLeTransitive(r, s[0], s[j]);
      }
    } else {
      RecordLeTotal(r, s[0]);
      var t := Insert(r, s[1..]);
      InsertSorted(r, s[1..]);
      InsertAbove(r, s[1..], s[0]);
      var u := [s[0]] + t;
      forall i, j | 0 <= i < j < |u| ensures RecordLe(u[i], u[j]) {
        if i > 0 { assert u[i] == t[i - 1] && u[j] == t[j - 1]; }
        else { assert u[j] == t[j - 1]; }
      }
    }
  }

  /** Sorting yields the records in ascending order and loses or adds none. */
  lemma {:induction false} SortSortsAndPermutes(s: seq<Record>)
    ensures SortedRecords(Sort(s))
    ensures multiset(Sort(s)) == multiset(s)
  {
    if s != [] {
      SortSortsAndPermutes(s[1..]);
      InsertSorted(s[0], Sort(s[1..]));
      InsertPermutes(s[0], Sort(s[1..]));
      assert s == [s[0]] + s[1..];
    }
  }

  /** The first record of a sorted list is below every other one, so two sorted lists of the same records start alike. */
  lemma SortedHeadsEqual(a: seq<Record>, b: seq<Record>)
    requires SortedRecords(a) && SortedRecords(b)
    requires multiset(a) == multiset(b) && a != []
    ensures b != [] && a[0] == b[0]
  {
    assert a[0] in multiset(b);
    assert b != [] && b[0] in multiset(a);
    var i :| 0 <= i < |b| && b[i] == a[0];
    var j :| 0 <= j < |a| && a[j] == b[0];
    StrLeReflexive(a[0].desc);
    StrLeReflexive(b[0].desc);
    assert RecordLe(b[0], a[0]) by { if i > 0 { assert RecordLe(b[0], b[i]); } }
    assert RecordLe(a[0], b[0]) by { if j > 0 { assert RecordLe(a[0], a[j]); } }
    RecordLeAntisymmetric(a[0], b[0]);
  }

  lemma MultisetTail(a: seq<Record>)
    requires a != []
    ensures multiset(a[1..]) == multiset(a) - multiset{a[0]}
  {
    assert a == [a[0]] + a[1..];
  }

  /**
    Two sorted arrangements of the same records are the same list, so the
    printed table does not depend on how the sort is carried out.
  */
  lemma {:induction false} SortedUnique(a: seq<Record>, b: seq<Record>)
    requires SortedRecords(a) && SortedRecords(b)
    requires multiset(a) == multiset(b)
    ensures a == b
  {
    if a != [] {
      SortedHeadsEqual(a, b);
      MultisetTail(a);
      MultisetTail(b);
      assert SortedRecords(a[1..]) && SortedRecords(b[1..]) by {
        forall i, j | 0 <= i < j < |a| - 1 ensures RecordLe(a[1..][i], a[1..][j]) {
          assert a[1..][i] == a[i + 1] && a[1..][j] == a[j + 1];
        }
        forall i, j | 0 <= i < j < |b| - 1 ensures RecordLe(b[1..][i], b[1..][j]) {
          assert b[1..][i] == b[i + 1] && b[1..][j] == b[j + 1];
        }
      }
      SortedUnique(a[1..], b[1..]);
      assert a == [a[0]] + a[1..] && b == [b[0]] + b[1..];
    } else {
      assert |multiset(b)| == 0;
    }
  }

  /** The bit value printed for a count: `math.log(n, 2) if n else 0`. */
  datatype Bits = ZeroBits | Log2Of(n: nat)

  function DisplayedBits(n: nat): (b: Bits)
    ensures b == ZeroBits <==> n == 0
  {
    if n == 0 then ZeroBits else Log2Of(n)
  }
}
