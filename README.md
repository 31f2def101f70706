# pass-words.py in Dafny

A model of the password engine of `pass-words.py`, a script that generates
"correct horse battery staple" passwords from Unix word lists. Its `main()`:

- checks the option values;
- builds a pool of candidate words from the word lists (each line stripped and
  lower-cased, kept when its length is within the bounds);
- counts how many ordered selections of `word_count` distinct words the pool
  allows (`count_choices`, a falling factorial);
- optionally compares that count with sixteen character-password schemes;
- prints the comparison sorted by strength;
- draws the words with `random.sample` and prints them and the joined password.

The model is split into modules that follow those steps:

| module | what it holds |
|---|---|
| `Text` (`text.dfy`) | ASCII `str.strip`, `str.lower`, `split`, `join` and Python's string order |
| `Format` (`format.dfy`) | the `{n:d}` and `{n:2d}` renderings, with their inverse |
| `Counting` (`counting.dfy`) | the sets of ordered samples without replacement and of fixed-length words, and their sizes |
| `Choices` (`choices.dfy`) | `count_choices`, its falling-factorial laws, and the fact that it counts the samples |
| `Entropy` (`entropy.dfy`) | the character alphabets, the sixteen reference records, the record order and the sort, the zero-count case of the bit value |
| `Pool` (`pool.dfy`) | the word-pool builder as a nested loop, with its specification and laws |
| `Sampler` (`sampler.dfy`) | `random.sample` as a choice among admissible outcomes, and the joined password |
| `PassWords`, `PassWordsProperties` (`passwords.dfy`) | the run as a method proved equal to a function `Outcome`, and what a run promises |

The run works on plain values:

- The command line arrives already parsed, as `Options`.
- The file system is a map from path to the lines of the file. A path is a
  file exactly when it is a key of the map.
- The default word lists arrive as the sequence `defaults`.
- Standard output is a sequence of `Line` values. An entropy line carries the
  choice count its bit value is computed from, as a `Bits` value.
- `Run` returns the drawn words alongside the output. `Outcome` fixes
  everything else as a function of the inputs and those words.

Two behaviours of the code are modelled as written, although a tidier design
would differ:

- `-n` is checked against `-m` and then thrown away: line 151 resets the
  minimum to 4, so the filter and the pool's description always use 4.
- When the pool is too small for the word count, the comparison table is
  printed before `random.sample` raises.

## Model

| member | source | states |
|---|---|---|
| Text.Strip | pass-words.py:174 | `line.strip()` neither starts nor ends with whitespace, and is a slice of the line with only whitespace outside it |
| Text.StripKeeps | pass-words.py:174 | a line without surrounding whitespace is left unchanged by strip |
| Text.Lower | pass-words.py:174 | `lower()` keeps the length and the whitespace, leaves no capital letter, and changes only capitals, each to its small letter |
| Text.Normalize | pass-words.py:174 | a normalised line has no surrounding whitespace and no capital letter |
| Text.NormalizeIdempotent | pass-words.py:174 | normalising a normalised line changes nothing |
| Text.Join | pass-words.py:187 | `sep.join(words)` of no words is empty, and otherwise starts with the first word and ends with the last; Text.SplitJoin, Text.JoinSplit and Sampler.PasswordLength state the rest |
| Text.SplitJoin | pass-words.py:202 | with a one-character separator that no word contains, splitting the joined words gives the words back |
| Text.JoinSplit | pass-words.py:202 | joining the pieces of a split with the separator restores the string |
| Text.StrLeReflexive | pass-words.py:192 | Python's string order is reflexive |
| Text.StrLeTotal | pass-words.py:192 | any two strings are comparable |
| Text.StrLeAntisymmetric | pass-words.py:192 | strings ordered both ways are equal |
| Text.StrLeTransitive | pass-words.py:192 | the string order is transitive |
| Format.NatToString | pass-words.py:165 | `{n:d}` of a natural is a non-empty string of digits with no leading zero |
| Format.ParseNatToString | pass-words.py:165 | reading the digits back gives the number |
| Format.IntToString | pass-words.py:187 | `{n:d}` starts with a minus sign exactly when the number is negative |
| Format.ParseIntToString | pass-words.py:187 | the signed rendering reads back as the number |
| Format.PadLeft | pass-words.py:165 | right alignment: the field width is reached with leading spaces and ends with the text |
| Format.Format2d | pass-words.py:165 | `{n:2d}` is the decimal rendering right-aligned with spaces in a field of two characters, wider only when the rendering is |
| Counting.ArrangementsMembership | pass-words.py:198 | a sequence is an ordered sample of `k` elements of `S` exactly when it has length `k`, repeats nothing and stays in `S` |
| Counting.WordsMembership | pass-words.py:164 | a sequence is a password of `n` characters over `A` exactly when it has length `n` and uses only characters of `A` |
| Counting.WordsCard | pass-words.py:164 | there are `|A| ** n` passwords of `n` characters over `A` |
| Counting.DistinctCard | pass-words.py:163 | a string that repeats no character has `len(text)` different characters |
| Choices.CountChoices | pass-words.py:178-182 | `count_choices(n, k)` is non-negative for `n >= 0`, zero when `0 <= n < k`, positive when `1 <= k <= n` |
| Choices.CountChoicesStep | pass-words.py:178-182 | one more word multiplies the count by the number of words still left |
| Choices.CountChoicesFactorial | pass-words.py:178-182 | `count_choices(n, k) * (n - k)! == n!` |
| Choices.CountChoicesAll | pass-words.py:178-182 | `count_choices(n, n) == n!` |
| Choices.ArrangementsCard | pass-words.py:178-182 | `count_choices(len(S), k)` is the number of ordered samples of `k` distinct elements of `S` |
| Choices.CountChoicesLoop | pass-words.py:178-182 | a loop multiplying the descending factors computes `count_choices` |
| Entropy.CharRange | pass-words.py:156-159 | a run of consecutive character codes, in increasing order |
| Entropy.DropWhitespace | pass-words.py:159 | `"".join(s.split())` holds exactly the characters of `s` that are not whitespace; with Entropy.DropWhitespaceChar and Entropy.DropWhitespaceAppend it is the in-order filter of the non-whitespace characters |
| Entropy.DropWhitespaceChar | pass-words.py:159 | one character is dropped when it is whitespace and kept otherwise |
| Entropy.DropWhitespaceAppend | pass-words.py:159 | dropping the whitespace of two strings one after the other gives the two results one after the other, so order and repetitions are kept |
| Entropy.PrintableWithoutWhitespace | pass-words.py:159 | the fourth alphabet is the digits, the letters and the punctuation |
| Entropy.ReferenceDesc | pass-words.py:165 | a row's description is the right-aligned length, `*[`, the alphabet's size, a space, the alphabet's name and `]` |
| Entropy.ReferenceTable | pass-words.py:162-166 | verbose mode makes sixteen reference records |
| Entropy.ReferenceTableAt | pass-words.py:162 | record `a * 4 + j` pairs alphabet `a` with length `j`, the order of `itertools.product` |
| Entropy.ReferenceRecords | pass-words.py:153-166 | the nested append loop yields exactly the reference table |
| Entropy.AlphabetSizes | pass-words.py:155-160 | the alphabets have 26, 52, 62 and 94 characters, none listed twice |
| Entropy.AlphabetLengths | pass-words.py:163 | `len(text)` of each alphabet is the matching entry of 26, 52, 62, 94 |
| Entropy.ReferenceTableChoices | pass-words.py:164 | each reference count is the alphabet size raised to the length |
| Entropy.ReferenceTableCountsPasswords | pass-words.py:164 | each reference count is the number of distinct passwords of that length over that alphabet |
| Entropy.FirstReferenceRecord | pass-words.py:164-166 | the first record is `(208827064576, " 8*[26 ASCII lowercase letters]")` |
| Entropy.RecordLeTotal | pass-words.py:192 | any two `(choices, desc)` pairs are comparable |
| Entropy.RecordLeAntisymmetric | pass-words.py:192 | pairs ordered both ways are equal |
| Entropy.RecordLeTransitive | pass-words.py:192 | the pair order is transitive |
| Entropy.InsertPermutes | pass-words.py:192 | inserting a record adds exactly that record |
| Entropy.InsertSorted | pass-words.py:192 | inserting into a sorted list keeps it sorted |
| Entropy.Sort | pass-words.py:192 | `entropies.sort()`, defined as an insertion sort, keeps the number of records; Entropy.SortSortsAndPermutes and Entropy.SortedUnique show it is the one sorted arrangement of the records |
| Entropy.SortSortsAndPermutes | pass-words.py:192 | `entropies.sort()` gives the records in ascending order, none lost or added |
| Entropy.SortedUnique | pass-words.py:192 | two sorted arrangements of the same records are equal, so the sorted order is unique |
| Entropy.DisplayedBits | pass-words.py:194 | the bit value is the zero case exactly when the count is zero |
| Pool.BuildPool | pass-words.py:171-176 | the nested loop over files and lines builds exactly the pool specification |
| Pool.AddFileWords | pass-words.py:173-176 | the inner loop adds exactly one file's kept words |
| Pool.KeptMembership | pass-words.py:175-176 | a normalised line is kept exactly when it is within the bounds |
| Pool.FileWordsMembership | pass-words.py:173-176 | a word comes from a file exactly when some line of it normalises to the word and the word is within bounds |
| Pool.UnionMembership | pass-words.py:171-172 | a word is in the gathered set exactly when one file contributed it |
| Pool.PoolMembership | pass-words.py:171-176 | a word is in the pool exactly when some file contributes it |
| Pool.PoolWords | pass-words.py:171-176 | a word is in the pool exactly when it is `line.strip().lower()` of some line of some file and within bounds, and such a word is lower case, unpadded and normal |
| Pool.PoolIgnoresOrder | pass-words.py:171-176 | the pool depends only on which files are read, not on their order or repetition |
| Pool.PoolAppend | pass-words.py:171-176 | the pool of several files is the union of their pools |
| Sampler.SamplesAreArrangements | pass-words.py:185-198 | an admissible `random.sample` outcome is exactly an ordered sample of `k` pool words, and there are `count_choices(len(words), k)` of them |
| Sampler.Sample | pass-words.py:198 | the draw fails exactly when `k` is negative or exceeds the pool; otherwise it returns `k` distinct pool words |
| Sampler.Password | pass-words.py:202 | the last line is the drawn words joined by the separator, a single word printed as it is; Sampler.PasswordSplits and Sampler.PasswordLength state its content |
| Sampler.PasswordSplits | pass-words.py:202 | the password splits back into the drawn words when the one-character separator occurs in none of them |
| Sampler.PasswordLength | pass-words.py:202 | the password is as long as the words plus one separator between each pair of neighbours |
| PassWords.ExitCode | pass-words.py:63-69 | the exit status is 0 after a normal end and 1 after any failure |
| PassWords.WordBounds | pass-words.py:149-151 | `max < min` is rejected; otherwise the bounds are `(4, max)`, whatever `-n` was |
| PassWords.FirstNotFile | pass-words.py:137-140 | the first `-p` path that is not a file, or none |
| PassWords.CheckFiles | pass-words.py:137-140 | the path-by-path check finds the first path that is not a file |
| PassWords.WordsPaths | pass-words.py:168-169 | the word lists read are the `-p` paths when any was given, otherwise the default lists |
| PassWords.OpenAll | pass-words.py:172-173 | opening fails on the first missing file; otherwise all files' lines are read |
| PassWords.PoolDesc | pass-words.py:186-188 | the pool's description starts with the right-aligned word count and `*[`, then the pool's size, and ends with the word lists joined by `:` and `]` |
| PassWords.PoolRecord | pass-words.py:184-189 | the pool's record has zero choices exactly when more words are wanted than the pool holds |
| PassWords.References | pass-words.py:153-166 | `entropies` holds the sixteen reference records in verbose mode and none otherwise before the pool's record |
| PassWords.EntropyLines | pass-words.py:193-195 | one line per record, in order, with its bit value and description |
| PassWords.TableLines | pass-words.py:190-195 | the table has one line per record plus the header, which is its first line and appears exactly when there is more than one record |
| PassWords.WordLines | pass-words.py:199-200 | one line per drawn word, in order |
| PassWords.PrintTable | pass-words.py:190-195 | the printing loop writes the header when there is more than one record, then the sorted records |
| PassWords.PrintWords | pass-words.py:199-200 | the printing loop writes the drawn words in order |
| PassWords.Draw | pass-words.py:184-202 | once the pool is built the table is printed first; the run then succeeds exactly when the pool holds at least `word_count` words, and otherwise fails as `random.sample` raises |
| PassWords.Outcome | pass-words.py:137-202 | `main()` as a function: output appears only once the table is reached, a successful run wanted between 1 and `len(words)` words, and a failed sample wanted more words than the pool holds |
| PassWords.Finish | pass-words.py:184-202 | the end of a run matches its specification, and a successful draw is an admissible sample |
| PassWords.Run | pass-words.py:137-202 | a run prints and ends as `Outcome` says, and on success the drawn words are an admissible sample of the pool |
| PassWordsProperties.FirstNotFileKeys | pass-words.py:137-140 | the file check depends only on which paths exist |
| PassWordsProperties.BoundsRejected | pass-words.py:149-150 | `max < min` ends the run with a usage error, no output and exit code 1, whatever the files hold |
| PassWordsProperties.MinimumIgnored | pass-words.py:151 | once accepted, the `-n` value does not change the run |
| PassWordsProperties.DrawnWords | pass-words.py:171-198 | every drawn word is a normalised line of a word list read, of length 4 to `max` |
| PassWordsProperties.PoolDescNamesPaths | pass-words.py:186-188 | the description names the word lists read, in order: the text before its closing `]` splits on `:` into the paths when none contains `:` |
| PassWordsProperties.PoolRecordCounts | pass-words.py:185-198 | the pool's count is the number of ordered samples the draw can produce |
| PassWordsProperties.TablePrintsSorted | pass-words.py:192-195 | the table prints the one sorted arrangement of the records |
| PassWordsProperties.TableStart | pass-words.py:190-191 | the table starts with the header exactly when there is more than one record |
| PassWordsProperties.TableShows | pass-words.py:189-195 | every record, the pool's included, gets its line |
| PassWordsProperties.HeaderIffVerbose | pass-words.py:154-191 | output starts with the header exactly in verbose mode |
| PassWordsProperties.SampleTooLargeShowsZero | pass-words.py:185-198 | when the pool is too small the table is still printed and shows a zero bit value |
| PassWordsProperties.PasswordIsLastLine | pass-words.py:199-202 | a successful run ends with the drawn words in order, then their join with the separator |
| PassWordsProperties.EarlyFailuresPrintNothing | pass-words.py:149-150 | every failure before the table prints nothing and exits with 1 |

## Left out

- Option parsing with `getopt` and `int()` (lines 103-148): options arrive parsed. Unknown options, non-numeric values and `-h` are not modelled.
- The usage text and error messages on standard error (lines 63-92): only the failure kind and the exit code are kept.
- Discovery of the default word lists from `PATH` (lines 48-60): they are an input, `defaults`. Their order is that of iterating a Python set, which the model does not fix.
- File I/O: a file is its sequence of lines. The gap between the `isfile` check and `open`, permission errors and encodings are not modelled.
- Opening order: the model opens every word list before filtering any of them. The code opens and filters each list in turn. Either way a missing file stops the run with no output.
- Entropy.DisplayedBits: does not compute `math.log(n, 2)`, because it is floating point. It keeps only the case split between a zero count and a positive one. The `5.1f` rendering is not modelled either.
- Sampler.Sample: does not model `SystemRandom` or the probability of each outcome. It promises only that the draw is an admissible sample, and its loop picks an arbitrary word each time.
- Choices.CountChoices: does not model Python's recursion limit. A word count near 1000 raises `RecursionError` in the code.
- Text.Strip, Text.Lower: ASCII only. Python's Unicode whitespace and case mapping are not modelled.
- The sort is `Entropy.Sort`, a function on values. It is not an in-place list sort.
