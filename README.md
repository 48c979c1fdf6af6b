# poseval evaluation core in Dafny

This project models `processData` from `poseval1.py`, the core of a tool that
evaluates a part-of-speech tagger. The tool compares a gold-standard tagging
with a system tagging of the same text. Each non-blank line of either file
holds a word form and its tag. The tool checks that the two files line up and
counts the tokens it evaluates and those tagged correctly. It records a
category code for every wrongly tagged token and breaks those codes down by
part of speech. A training file may be given. Its words then become a lexicon
of known words, and those words are left out, so that the tool measures
accuracy on unknown words only.

Everything is in `poseval.dfy`, module `PosEval`:

- `Line` is a line already split on whitespace. A blank or whitespace-only
  line is `[]`.
- `Lexicon` is the specification of the known-word list: in reading order,
  without duplicates. `BuildLexicon` is the loop that builds it.
- `Step`, `Walk` and `Evaluate` specify the line walk and the whole run.
  `ProcessData` is the imperative loop proved equal to `Evaluate`. It stops at
  the first error, as the source does through `sys.exit`.
- `Outcome` lists how a run ends:
  - `LengthMismatch` is exit status 6.
  - `AlignmentError(line)` is exit status 7, with a 1-based line number.
  - `IndexError(line)` is the uncaught Python exception raised when a line has
    too few tokens.
  - `ZeroDivision` is the uncaught exception raised when no token was counted.
  - `Done(report)` is a successful run.
- A `Tally` holds the total, the number correct and the recorded category
  codes. The walk keeps it up to date and a successful run returns it. The
  accuracy is the pair (correct, total), not a float. `Tally.Stats()` is the
  printed error breakdown: one count per named category plus the residual.
- `CountedLines`, `Agreements` and `MismatchCodes` are reference definitions.
  They count lines directly, independently of the walk. `WalkTally` and
  `SuccessfulReport` connect them to the walk.

Python 2 `str.lower()` on byte strings changes only `A`–`Z`. `Lower` models
exactly that.

The model follows the code in three places where it is easy to misread:

- A mismatch is filed under the category of the GOLD tag (line 91). Gold
  `runs V` against system `runs B` is therefore a verb error, not an adverb
  error. `VerbTaggedAsAdverb` states this.
- A blank system line facing a non-blank gold line is not an alignment error.
  `system[0]` raises `IndexError` at line 76. The same exception comes from a
  line with no tag at line 85.
- A `Line` may hold empty tokens, which whitespace splitting never produces.
  For such input the model also gives `IndexError` when the gold tag is empty
  and differs from the system tag, as `gold[1][0]` at line 91 would. The
  source cannot reach that case.
- When no token is counted, the accuracy at line 103 divides by zero and the
  run ends with an exception. That is the `ZeroDivision` outcome.

## Model

| member | source | states |
|---|---|---|
| PosEval.Lower | poseval1.py:53 | the result has the input's length, holds no upper-case ASCII letter, keeps every other character, and maps each of `A`-`Z` to the same letter in lower case |
| PosEval.AddForm | poseval1.py:50-55 | one training line extends the known-word list: the old list is a prefix, at most one form is added, membership gains exactly the line's lowercased first token (none for a blank line), and no duplicate is introduced |
| PosEval.Lexicon | poseval1.py:48-55 | the known-word list has at most one entry per training line, never holds a form twice, and a form is in it iff it is the lowercased first token of some non-blank training line |
| PosEval.FirstFormsSnoc | poseval1.py:50-53 | reading one more training line adds exactly its lowercased first token to the set of first forms, or nothing if the line is blank |
| PosEval.BuildLexicon | poseval1.py:48-55 | the loop returns the lexicon specification; the list has no duplicates; it holds exactly the lowercased first tokens of the non-blank training lines |
| PosEval.Step | poseval1.py:70-91 | one line: a blank gold line leaves the tally unchanged; it stops only with an alignment or index error naming line i+1; the alignment error happens exactly when both lines are non-blank with different forms; otherwise errors only grow at the end, total grows by at most one, and each counted token adds to exactly one of correct and errors |
| PosEval.Walk | poseval1.py:69-91 | the walk over the first n lines stops only with an alignment or index error naming a line between 1 and n |
| PosEval.Evaluate | poseval1.py:57-103 | the result is the length-mismatch error (exit 6) iff the line counts differ; a success has equal lengths and a positive total |
| PosEval.ProcessData | poseval1.py:44-103 | the single-pass loop, with early exits, yields exactly the outcome `Evaluate` specifies for the gold, system and training lines |
| PosEval.HaltPersists | poseval1.py:76-78 | once the walk has stopped with an error, later lines cannot change the result |
| PosEval.HaltLine | poseval1.py:69-91 | the walk stops only with an alignment or index error, naming a 1-based line it reached; every line before that one passed |
| PosEval.AlignmentErrorAt | poseval1.py:76-78 | if the walk reaches non-blank gold line i without error and the word forms differ there, the run fails with an alignment error naming line i+1 |
| PosEval.AlignmentErrorMeans | poseval1.py:76-78 | conversely, an alignment error at line k means the lengths agree, the walk reached line k without error, and both lines are non-blank with different forms |
| PosEval.IndexErrorMeans | poseval1.py:74-91 | an index error at line k means the lengths agree, the walk reached line k without error, the gold line is non-blank, and the system line is blank, or the word is counted and a line lacks its tag (or the tags differ and the gold tag is empty) |
| PosEval.MisalignedFails | poseval1.py:69-78 | a misaligned non-blank gold line anywhere means no counts are produced: the run ends with an alignment or index error at that line or before |
| PosEval.BlankLineIgnored | poseval1.py:70-71 | replacing the system line facing a blank gold line by anything leaves the result unchanged |
| PosEval.KnownWordIgnored | poseval1.py:80-81 | when the lowercased gold form is the lowercased first token of a training line, the tags and further tokens of both lines can be changed without changing the result |
| PosEval.WalkTally | poseval1.py:69-91 | while the walk succeeds, every non-blank gold line is aligned; the tally is the number of counted lines, the number whose tags agree, and the codes of those that disagree; total = correct + number of errors |
| PosEval.Code | poseval1.py:88-91 | the recorded code is a non-empty prefix of the gold tag: "SW" exactly when the tag starts with SW, otherwise its first character alone (so an SW tag is never recorded as "S") |
| PosEval.Count | poseval1.py:106-118 | `list.count`: the number of occurrences of the code, equal to its multiplicity in the error list |
| PosEval.Breakdown | poseval1.py:105-122 | one count per named category (A, B, C, D, E, F, I, N, P, R, S, SW, V, in that order), each the multiplicity of that code among the errors; the residual equals the number of errors whose code is none of the 13 categories, so it is never negative |
| PosEval.CountsPartition | poseval1.py:119-122 | for distinct categories, the named counts plus the errors outside the categories add up to the number of errors |
| PosEval.SuccessfulReport | poseval1.py:83-122 | on success: total is the number of counted lines and positive; correct is the number of counted lines whose tags agree; correct + errors = total, so correct <= total; the residual is the count of unnamed codes |
| PosEval.ZeroDivisionIff | poseval1.py:101-103 | with equal lengths, the accuracy divides by zero iff the walk succeeds and no line is counted |
| PosEval.WellFormedWalks | poseval1.py:69-91 | when every line pair has the same form and a tag on both sides, the walk never stops with an error |
| PosEval.UnfilteredCounts | poseval1.py:69-103 | with no training file, well-formed aligned files of equal non-zero length succeed; every line is counted, and the correct count is the number of lines whose tags agree |
| PosEval.VerbTaggedAsAdverb | poseval1.py:83-118 | gold `dog N`, `runs V` against system `dog N`, `runs B`: total 2, correct 1, one error recorded as "V", residual 0 |
| PosEval.KnownWordExample | poseval1.py:48-86 | with "dog" in the training file, gold `dog N`, `cat S` against `dog V`, `cat S` gives total 1, correct 1, and no errors |

## Left out

- `main`, option parsing, file opening and exit statuses 0 to 5 (poseval1.py:156-205). The model starts from lines already in memory.
- `showHelp`, `showUsage`, `showSuggestion` and `showFileError` (poseval1.py:142-154). They only print text.
- All printed text is left out. This covers the diff table, including the `showDiff` flag and its rows for wrong tokens, the summary lines and the breakdown labels (poseval1.py:61-63, 93-103, 124-138). The model returns the numbers those lines show.
- Lines 58 and 77 print the `sys.stderr` object itself, a Python 2 slip, before they exit. This output is not modelled.
- The total and correct counts printed before the accuracy division fails are not part of the `ZeroDivision` outcome.
- The floating-point accuracy `correctNo * 100.0 / totalNo` and its rounding to two decimals (poseval1.py:103). The report keeps the exact pair (correct, total).
- Splitting lines on whitespace (`str.split`) is not modelled: lines arrive as token sequences. Locale-dependent lowercasing beyond ASCII `A`–`Z` is not modelled either.
