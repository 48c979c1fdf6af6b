/** A model of `processData`, the evaluation core of the part-of-speech tagging
    evaluator `poseval`.

    The evaluator walks a gold-standard tagging and a system tagging of the same
    text line by line.  Each non-blank line holds a word form and its tag.  It
    checks that the two files are aligned, optionally ignores the words of a
    training lexicon ("accuracy on unknown words only"), counts the counted and
    the correctly tagged tokens, and tallies every mis-tagged token under a
    part-of-speech category code.

    Lines arrive already split on whitespace: a `Line` is the sequence of its
    tokens, and a blank or whitespace-only line is the empty sequence.
*/
module PosEval {

  /** One line of a tagged file after splitting on whitespace; blank is `[]`. */
  type Line = seq<string>

  // ---------------------------------------------------------------------------
  // Lowercasing (byte strings: only the ASCII letters A-Z change)
  // ---------------------------------------------------------------------------

  function LowerChar(c: char): char {
    if 'A' <= c <= 'Z' then (c as int + 32) as char else c
  }

  /** Lowercasing of a byte string: every upper-case ASCII letter becomes the
      corresponding lower-case letter, every other character is kept. */
  function Lower(s: string): (r: string)
    ensures |r| == |s|
    ensures forall k :: 0 <= k < |r| ==> !('A' <= r[k] <= 'Z')
    ensures forall k :: 0 <= k < |s| && !('A' <= s[k] <= 'Z') ==> r[k] == s[k]
    ensures forall k :: 0 <= k < |s| && 'A' <= s[k] <= 'Z' ==> r[k] as int - 'a' as int == s[k] as int - 'A' as int
  {
    seq(|s|, i requires 0 <= i < |s| => LowerChar(s[i]))
  }

  predicate NoDuplicates(xs: seq<string>) {
    forall i, j :: 0 <= i < j < |xs| ==> xs[i] != xs[j]
  }

  // ---------------------------------------------------------------------------
  // The known-word lexicon
  // ---------------------------------------------------------------------------

  /** The known-word list after one more training line has been read: the
      lowercased first token is appended unless the line is blank or the form
      is already listed. */
  function AddForm(known: seq<string>, line: Line): (r: seq<string>)
    ensures known <= r && |r| <= |known| + 1
    ensures forall w :: w in r <==> w in known || (line != [] && w == Lower(line[0]))
    ensures NoDuplicates(known) ==> NoDuplicates(r)
  {
    if line == [] || Lower(line[0]) in known then known else known + [Lower(line[0])]
  }

  /** The lowercased first tokens of the non-blank training lines. */
  function FirstForms(train: seq<Line>): set<string> {
    set i | 0 <= i < |train| && train[i] != [] :: Lower(train[i][0])
  }

  /** The known-word list built from the training lines, in reading order: it
      lists every lowercased first token of a non-blank training line, nothing
      else, and each of them once. */
  function Lexicon(train: seq<Line>): (r: seq<string>)
    ensures |r| <= |train|
    ensures NoDuplicates(r)
    ensures forall w :: w in r <==> w in FirstForms(train)
  {
    if train == [] then []
    else
      FirstFormsSnoc(train);
      AddForm(Lexicon(train[..|train| - 1]), train[|train| - 1])
  }

  /** Reading one more training line adds at most its lowercased first token
      to the set of first forms. */
  lemma FirstFormsSnoc(train: seq<Line>)
    requires train != []
    ensures var last := train[|train| - 1];
      FirstForms(train) == FirstForms(train[..|train| - 1]) + (if last == [] then {} else {Lower(last[0])})
  {
  }

  /** Reads the training lines one by one, growing the known-word list. */
  method BuildLexicon(train: seq<Line>) returns (known: seq<string>)
    ensures known == Lexicon(train)
    ensures NoDuplicates(known)
    ensures forall w :: w in known <==> w in FirstForms(train)
  {
    known := [];
    for i := 0 to |train|
      invariant known == Lexicon(train[..i])
    {
      var line := train[i];
      assert train[..i + 1][..i] == train[..i];
      if line != [] {
        var form := Lower(line[0]);
        if form !in known {
          known := known + [form];
        }
      }
    }
    assert train[..|train|] == train;
  }

  // ---------------------------------------------------------------------------
  // Error categories
  // ---------------------------------------------------------------------------

  /** The named categories of the error breakdown: adjectives, adverbs,
      conjunctions, determiners, prepositions, punctuation, interjections,
      numerals, pronouns, articles, nouns, foreign nouns and verbs. */
  const Categories: seq<string> := ["A", "B", "C", "D", "E", "F", "I", "N", "P", "R", "S", "SW", "V"]

  /** The category code recorded for a mis-tagged token with gold tag `tag`. */
  function Code(tag: string): (c: string)
    requires tag != []
    ensures 0 < |c| <= |tag| && c == tag[..|c|]
    ensures c == "SW" <==> |tag| >= 2 && tag[..2] == "SW"
    ensures |c| == 1 || c == "SW"
  {
    if |tag| >= 2 && tag[..2] == "SW" then "SW" else tag[..1]
  }

  /** How often `c` occurs in `xs`. */
  function Count(xs: seq<string>, c: string): (n: nat)
    ensures n == multiset(xs)[c]
  {
    if xs == [] then 0
    else
      assert xs == [xs[0]] + xs[1..];
      (if xs[0] == c then 1 else 0) + Count(xs[1..], c)
  }

  /** The count of each category of `cats` in `xs`, in the order of `cats`. */
  function CountsFor(cats: seq<string>, xs: seq<string>): (r: seq<nat>)
    ensures |r| == |cats|
    ensures forall k :: 0 <= k < |cats| ==> r[k] == Count(xs, cats[k])
  {
    if cats == [] then [] else [Count(xs, cats[0])] + CountsFor(cats[1..], xs)
  }

  function Sum(ns: seq<nat>): nat {
    if ns == [] then 0 else ns[0] + Sum(ns[1..])
  }

  /** How many elements of `xs` fall under none of the categories `cats`. */
  function Unnamed(xs: seq<string>, cats: seq<string>): (n: nat)
    ensures n <= |xs|
  {
    if xs == [] then 0 else (if xs[0] in cats then 0 else 1) + Unnamed(xs[1..], cats)
  }

  datatype ErrorStats = ErrorStats(perCategory: seq<nat>, residual: int)


  lemma {:induction false} UnnamedWithout(xs: seq<string>)
    ensures Unnamed(xs, []) == |xs|
  {
    if xs != [] {
      UnnamedWithout(xs[1..]);
    }
  }

  lemma {:induction false} UnnamedSplit(xs: seq<string>, cats: seq<string>)
    requires cats != [] && cats[0] !in cats[1..]
    ensures Unnamed(xs, cats[1..]) == Count(xs, cats[0]) + Unnamed(xs, cats)
  {
    if xs != [] {
      UnnamedSplit(xs[1..], cats);
    }
  }

  /** With distinct categories, every element of `xs` is counted under at most
      one of them, so the named counts and the unnamed elements add up to `|xs|`. */
  lemma {:induction false} CountsPartition(cats: seq<string>, xs: seq<string>)
    requires NoDuplicates(cats)
    ensures Sum(CountsFor(cats, xs)) + Unnamed(xs, cats) == |xs|
  {
    if cats == [] {
      UnnamedWithout(xs);
    } else {
      CountsPartition(cats[1..], xs);
      UnnamedSplit(xs, cats);
    }
  }

  lemma CategoriesDistinct()
    ensures NoDuplicates(Categories)
  {
  }

  /** The error breakdown: the number of occurrences of every named category
      among the recorded codes (in the order of `Categories`), and the
      residual, the number of errors minus the sum of the named counts.  As the
      named categories are distinct, the residual is the number of errors
      whose code is none of them, and is never negative. */
  function Breakdown(errors: seq<string>): (b: ErrorStats)
    ensures |b.perCategory| == |Categories|
    ensures forall k :: 0 <= k < |Categories| ==> b.perCategory[k] == multiset(errors)[Categories[k]]
    ensures b.residual == Unnamed(errors, Categories) && b.residual >= 0
  {
    var counts := seq(|Categories|, k requires 0 <= k < |Categories| => Count(errors, Categories[k]));
    assert counts == CountsFor(Categories, errors);
    CategoriesDistinct();
    CountsPartition(Categories, errors);
    ErrorStats(counts, |errors| - Sum(counts))
  }

  // ---------------------------------------------------------------------------
  // Outcomes of an evaluation
  // ---------------------------------------------------------------------------

  /** The counts of the walk: counted tokens, correctly tagged tokens, and the
      category code of every mis-tagged token in order.  For a successful run
      the accuracy is the ratio `correct / total`, kept as the pair of
      integers, and the error statistics are the breakdown of the codes. */
  datatype Tally = Tally(total: nat, correct: nat, errors: seq<string>) {
    function Stats(): ErrorStats {
      Breakdown(errors)
    }
  }

  datatype Outcome =
    | LengthMismatch              // files have different lengths, exit status 6
    | AlignmentError(line: nat)   // word forms differ at this 1-based line, exit status 7
    | IndexError(line: nat)       // uncaught IndexError on a line with too few tokens
    | ZeroDivision                // no token counted: accuracy divides by zero
    | Done(tally: Tally)

  /** State of the line walk: still counting, or stopped by an error. */
  datatype Walked = Counting(tally: Tally) | Halted(outcome: Outcome)

  /** One iteration of the line walk, on gold line `g` and system line `s` at
      0-based index `i`. */
  function Step(g: Line, s: Line, i: nat, known: seq<string>, t: Tally): (r: Walked)
    ensures g == [] ==> r == Counting(t)
    ensures r.Halted? ==> g != [] && (r.outcome == AlignmentError(i + 1) || r.outcome == IndexError(i + 1))
    ensures r.Halted? && r.outcome.AlignmentError? <==> g != [] && s != [] && g[0] != s[0]
    ensures r.Counting? ==>
      && t.errors <= r.tally.errors
      && t.correct <= r.tally.correct
      && t.total <= r.tally.total <= t.total + 1
      && r.tally.total + t.correct + |t.errors| == t.total + r.tally.correct + |r.tally.errors|
  {
    if g == [] then Counting(t)
    else if s == [] then Halted(IndexError(i + 1))
    else if g[0] != s[0] then Halted(AlignmentError(i + 1))
    else if Lower(g[0]) in known then Counting(t)
    else if |g| < 2 || |s| < 2 then Halted(IndexError(i + 1))
    else if g[1] == s[1] then Counting(Tally(t.total + 1, t.correct + 1, t.errors))
    else if g[1] == [] then Halted(IndexError(i + 1))
    else Counting(Tally(t.total + 1, t.correct, t.errors + [Code(g[1])]))
  }

  /** The line walk over the first `n` line pairs. */
  function Walk(gold: seq<Line>, system: seq<Line>, known: seq<string>, n: nat): (r: Walked)
    requires n <= |gold| && n <= |system|
    ensures r.Halted? ==> (r.outcome.AlignmentError? || r.outcome.IndexError?) && 1 <= r.outcome.line <= n
  {
    if n == 0 then Counting(Tally(0, 0, []))
    else
      var w := Walk(gold, system, known, n - 1);
      if w.Halted? then w else Step(gold[n - 1], system[n - 1], n - 1, known, w.tally)
  }

  /** The whole evaluation of gold lines against system lines, with the
      training lines (empty when no training file is given) as lexicon.  The
      length check comes first: the result is the length-mismatch error
      exactly when the files have different numbers of lines, and a success
      has counted at least one token. */
  function Evaluate(gold: seq<Line>, system: seq<Line>, train: seq<Line>): (r: Outcome)
    ensures r.Done? ==> |gold| == |system| && r.tally.total > 0
    ensures r == LengthMismatch <==> |gold| != |system|
  {
    if |gold| != |system| then LengthMismatch
    else
      var w := Walk(gold, system, Lexicon(train), |gold|);
      if w.Halted? then w.outcome
      else if w.tally.total == 0 then ZeroDivision
      else Done(w.tally)
  }

  /** The evaluation loop, reading the lines once and stopping at the first
      error. */
  method ProcessData(gold: seq<Line>, system: seq<Line>, train: seq<Line>) returns (o: Outcome)
    ensures o == Evaluate(gold, system, train)
  {
    var known := BuildLexicon(train);
    if |gold| != |system| {
      return LengthMismatch;
    }
    var totalNo, correctNo, errorList := 0, 0, [];
    for i := 0 to |gold|
      invariant Walk(gold, system, known, i) == Counting(Tally(totalNo, correctNo, errorList))
    {
      var g, s := gold[i], system[i];
      ghost var next := Step(g, s, i, known, Tally(totalNo, correctNo, errorList));
      assert Walk(gold, system, known, i + 1) == next;
      if g != [] {
        if s == [] {
          HaltPersists(gold, system, known, i + 1, |gold|);
          return IndexError(i + 1);
        }
        if g[0] != s[0] {
          HaltPersists(gold, system, known, i + 1, |gold|);
          return AlignmentError(i + 1);
        }
        if Lower(g[0]) !in known {
          totalNo := totalNo + 1;
          if |g| < 2 || |s| < 2 {
            HaltPersists(gold, system, known, i + 1, |gold|);
            return IndexError(i + 1);
          }
          if g[1] == s[1] {
            correctNo := correctNo + 1;
          } else if g[1] == [] {
            HaltPersists(gold, system, known, i + 1, |gold|);
            return IndexError(i + 1);
          } else {
            errorList := errorList + [Code(g[1])];
          }
        }
      }
    }
    if totalNo == 0 {
      return ZeroDivision;
    }
    o := Done(Tally(totalNo, correctNo, errorList));
  }

  // ---------------------------------------------------------------------------
  // Facts about the line walk
  // ---------------------------------------------------------------------------

  /** Once the walk has stopped, later lines change nothing. */
  lemma {:induction false} HaltPersists(gold: seq<Line>, system: seq<Line>, known: seq<string>, n: nat, m: nat)
    requires n <= m <= |gold| && m <= |system|
    requires Walk(gold, system, known, n).Halted?
    ensures Walk(gold, system, known, m) == Walk(gold, system, known, n)
  {
    if n < m {
      HaltPersists(gold, system, known, n, m - 1);
    }
  }

  /** The walk stops only with an alignment error or an index error, naming a
      line it has reached, and the walk over the lines before it was still
      counting. */
  lemma {:induction false} HaltLine(gold: seq<Line>, system: seq<Line>, known: seq<string>, n: nat)
    requires n <= |gold| && n <= |system|
    requires Walk(gold, system, known, n).Halted?
    ensures var o := Walk(gold, system, known, n).outcome;
      && (o.AlignmentError? || o.IndexError?)
      && 1 <= o.line <= n
      && Walk(gold, system, known, o.line - 1).Counting?
      && Walk(gold, system, known, o.line) == Walk(gold, system, known, n)
  {
    if Walk(gold, system, known, n - 1).Halted? {
      HaltLine(gold, system, known, n - 1);
    }
  }

  predicate Counted(g: Line, known: seq<string>) {
    g != [] && Lower(g[0]) !in known
  }

  predicate TagsAgree(g: Line, s: Line) {
    |g| >= 2 && |s| >= 2 && g[1] == s[1]
  }

  /** Number of counted lines among the first `n`: non-blank, form not known. */
  function CountedLines(gold: seq<Line>, known: seq<string>, n: nat): nat
    requires n <= |gold|
  {
    if n == 0 then 0
    else CountedLines(gold, known, n - 1) + (if Counted(gold[n - 1], known) then 1 else 0)
  }

  /** Number of counted lines among the first `n` whose tags agree. */
  function Agreements(gold: seq<Line>, system: seq<Line>, known: seq<string>, n: nat): nat
    requires n <= |gold| && n <= |system|
  {
    if n == 0 then 0
    else
      var agree := if Counted(gold[n - 1], known) && TagsAgree(gold[n - 1], system[n - 1]) then 1 else 0;
      Agreements(gold, system, known, n - 1) + agree
  }

  /** The category codes of the counted lines among the first `n` whose tags
      disagree, in line order. */
  function MismatchCodes(gold: seq<Line>, system: seq<Line>, known: seq<string>, n: nat): seq<string>
    requires n <= |gold| && n <= |system|
  {
    if n == 0 then []
    else
      var g := gold[n - 1];
      var code := if Counted(g, known) && !TagsAgree(g, system[n - 1]) && |g| >= 2 && g[1] != []
        then [Code(g[1])] else [];
      MismatchCodes(gold, system, known, n - 1) + code
  }

  /** While the walk is counting, every non-blank gold line so far has a
      system line with the same word form, every counted line has a tag on
      both sides, and the tally is exactly: the counted lines, those whose
      tags agree, and the codes of those whose tags disagree.  Each counted
      token therefore adds to exactly one of `correct` and `errors`. */
  lemma {:induction false} WalkTally(gold: seq<Line>, system: seq<Line>, known: seq<string>, n: nat)
    requires n <= |gold| && n <= |system|
    requires Walk(gold, system, known, n).Counting?
    ensures forall i :: 0 <= i < n && gold[i] != [] ==> system[i] != [] && system[i][0] == gold[i][0]
    ensures forall i :: 0 <= i < n && Counted(gold[i], known) ==> |gold[i]| >= 2 && |system[i]| >= 2
    ensures Walk(gold, system, known, n).tally
      == Tally(CountedLines(gold, known, n), Agreements(gold, system, known, n), MismatchCodes(gold, system, known, n))
    ensures CountedLines(gold, known, n) == Agreements(gold, system, known, n) + |MismatchCodes(gold, system, known, n)|
  {
    if n > 0 {
      WalkTally(gold, system, known, n - 1);
    }
  }

  // ---------------------------------------------------------------------------
  // Facts about the whole evaluation
  // ---------------------------------------------------------------------------

  /** If the walk reaches non-blank gold line `i` (0-based) still counting and
      the word forms there differ, the evaluation fails with an alignment
      error naming line `i + 1`. */
  lemma AlignmentErrorAt(gold: seq<Line>, system: seq<Line>, train: seq<Line>, i: nat)
    requires i < |gold| == |system|
    requires Walk(gold, system, Lexicon(train), i).Counting?
    requires gold[i] != [] && system[i] != [] && gold[i][0] != system[i][0]
    ensures Evaluate(gold, system, train) == AlignmentError(i + 1)
  {
    WalkAlignmentAt(gold, system, Lexicon(train), i);
  }

  lemma WalkAlignmentAt(gold: seq<Line>, system: seq<Line>, known: seq<string>, i: nat)
    requires i < |gold| == |system|
    requires Walk(gold, system, known, i).Counting?
    requires gold[i] != [] && system[i] != [] && gold[i][0] != system[i][0]
    ensures Walk(gold, system, known, |gold|) == Halted(AlignmentError(i + 1))
  {
    assert Walk(gold, system, known, i + 1) == Halted(AlignmentError(i + 1));
    HaltPersists(gold, system, known, i + 1, |gold|);
  }

  /** Conversely, an alignment error names a 1-based line whose word forms
      differ and which the walk reached without an earlier error. */
  lemma AlignmentErrorMeans(gold: seq<Line>, system: seq<Line>, train: seq<Line>, k: nat)
    requires Evaluate(gold, system, train) == AlignmentError(k)
    ensures 1 <= k <= |gold| == |system|
    ensures Walk(gold, system, Lexicon(train), k - 1).Counting?
    ensures gold[k - 1] != [] && system[k - 1] != [] && gold[k - 1][0] != system[k - 1][0]
  {
    var known := Lexicon(train);
    assert |gold| == |system|;
    var w := Walk(gold, system, known, |gold|);
    assert w.Halted?;
    assert w.outcome == AlignmentError(k);
    WalkAlignmentMeans(gold, system, known, k);
  }

  lemma WalkAlignmentMeans(gold: seq<Line>, system: seq<Line>, known: seq<string>, k: nat)
    requires |gold| <= |system|
    requires Walk(gold, system, known, |gold|) == Halted(AlignmentError(k))
    ensures 1 <= k <= |gold|
    ensures Walk(gold, system, known, k - 1).Counting?
    ensures gold[k - 1] != [] && system[k - 1] != [] && gold[k - 1][0] != system[k - 1][0]
  {
    HaltLine(gold, system, known, |gold|);
    assert Walk(gold, system, known, k) == Halted(AlignmentError(k));
  }

  /** An index error names a 1-based line which the walk reached without an
      earlier error, whose gold line is non-blank, and where a token the
      source reads is missing: the system line is blank, or the word is
      counted and a line lacks its tag, or the tags differ and the gold tag is
      empty. */
  lemma IndexErrorMeans(gold: seq<Line>, system: seq<Line>, train: seq<Line>, k: nat)
    requires Evaluate(gold, system, train) == IndexError(k)
    ensures 1 <= k <= |gold| == |system|
    ensures Walk(gold, system, Lexicon(train), k - 1).Counting?
    ensures var g, s := gold[k - 1], system[k - 1];
      && g != []
      && (s == []
          || (s[0] == g[0] && Lower(g[0]) !in Lexicon(train)
              && (|g| < 2 || |s| < 2 || (g[1] != s[1] && g[1] == []))))
  {
    var known := Lexicon(train);
    assert |gold| == |system|;
    assert Walk(gold, system, known, |gold|) == Halted(IndexError(k));
    HaltLine(gold, system, known, |gold|);
    assert Walk(gold, system, known, k) == Halted(IndexError(k));
    var t := Walk(gold, system, known, k - 1).tally;
    assert Step(gold[k - 1], system[k - 1], k - 1, known, t) == Halted(IndexError(k));
  }

  /** A misaligned line anywhere means no counts are produced: the evaluation
      stops with an alignment or index error at that line or an earlier one. */
  lemma MisalignedFails(gold: seq<Line>, system: seq<Line>, train: seq<Line>, i: nat)
    requires i < |gold| == |system|
    requires gold[i] != [] && (system[i] == [] || gold[i][0] != system[i][0])
    ensures var o := Evaluate(gold, system, train);
      (o.AlignmentError? || o.IndexError?) && 1 <= o.line <= i + 1
  {
    var known := Lexicon(train);
    if Walk(gold, system, known, i).Halted? {
      HaltLine(gold, system, known, i);
      HaltPersists(gold, system, known, i, |gold|);
    } else {
      HaltPersists(gold, system, known, i + 1, |gold|);
    }
  }

  /** Two line pairs at index `i` are interchangeable for the walk. */
  ghost predicate SameStep(g1: Line, s1: Line, g2: Line, s2: Line, i: nat, known: seq<string>) {
    forall t :: Step(g1, s1, i, known, t) == Step(g2, s2, i, known, t)
  }

  lemma {:induction false} WalkCongruence(gold1: seq<Line>, system1: seq<Line>, gold2: seq<Line>, system2: seq<Line>,
                                          known: seq<string>, n: nat)
    requires n <= |gold1| && n <= |system1| && n <= |gold2| && n <= |system2|
    requires forall i :: 0 <= i < n ==> SameStep(gold1[i], system1[i], gold2[i], system2[i], i, known)
    ensures Walk(gold1, system1, known, n) == Walk(gold2, system2, known, n)
  {
    if n > 0 {
      WalkCongruence(gold1, system1, gold2, system2, known, n - 1);
      assert SameStep(gold1[n - 1], system1[n - 1], gold2[n - 1], system2[n - 1], n - 1, known);
    }
  }

  /** A blank gold line contributes nothing, whatever the system line holds. */
  lemma BlankLineIgnored(gold: seq<Line>, system: seq<Line>, train: seq<Line>, i: nat, s: Line)
    requires i < |gold| && i < |system|
    requires gold[i] == []
    ensures Evaluate(gold, system[i := s], train) == Evaluate(gold, system, train)
  {
    if |gold| == |system| {
      var system' := system[i := s];
      forall j | 0 <= j < |gold| ensures SameStep(gold[j], system'[j], gold[j], system[j], j, Lexicon(train)) {
      }
      WalkCongruence(gold, system', gold, system, Lexicon(train), |gold|);
    }
  }

  /** A token whose lowercased gold form is a known word is left out
      altogether: its tags, and anything after the word form on either line,
      may be changed without changing the result. */
  lemma KnownWordIgnored(gold: seq<Line>, system: seq<Line>, train: seq<Line>, i: nat, g: Line, s: Line)
    requires i < |gold| && i < |system|
    requires gold[i] != [] && Lower(gold[i][0]) in FirstForms(train)
    requires g != [] && g[0] == gold[i][0]
    requires s == [] <==> system[i] == []
    requires s != [] ==> s[0] == system[i][0]
    ensures Evaluate(gold[i := g], system[i := s], train) == Evaluate(gold, system, train)
  {
    if |gold| == |system| {
      var known := Lexicon(train);
      var gold', system' := gold[i := g], system[i := s];
      forall j | 0 <= j < |gold| ensures SameStep(gold'[j], system'[j], gold[j], system[j], j, known) {
      }
      WalkCongruence(gold', system', gold, system, known, |gold|);
    }
  }

  /** A successful run reports the counted tokens, those tagged correctly, and
      the breakdown of the codes of those tagged wrongly; correct and wrong
      tokens add up to the total, so the accuracy is at most one, and the
      residual counts the errors outside the named categories. */
  lemma SuccessfulReport(gold: seq<Line>, system: seq<Line>, train: seq<Line>)
    requires Evaluate(gold, system, train).Done?
    ensures |gold| == |system|
    ensures var r := Evaluate(gold, system, train).tally;
      var known := Lexicon(train);
      var errors := MismatchCodes(gold, system, known, |gold|);
      && r.total == CountedLines(gold, known, |gold|) > 0
      && r.correct == Agreements(gold, system, known, |gold|)
      && r.total == r.correct + |errors|
      && r.correct <= r.total
      && r.errors == errors
      && r.Stats().residual == Unnamed(errors, Categories) >= 0
  {
    var known := Lexicon(train);
    assert |gold| == |system|;
    WalkTally(gold, system, known, |gold|);
  }

  /** The accuracy is undefined exactly when the walk succeeds without
      counting a single token. */
  lemma ZeroDivisionIff(gold: seq<Line>, system: seq<Line>, train: seq<Line>)
    requires |gold| == |system|
    ensures Evaluate(gold, system, train) == ZeroDivision
      <==> Walk(gold, system, Lexicon(train), |gold|).Counting? && CountedLines(gold, Lexicon(train), |gold|) == 0
  {
    var known := Lexicon(train);
    if Walk(gold, system, known, |gold|).Counting? {
      WalkTally(gold, system, known, |gold|);
    } else {
      HaltLine(gold, system, known, |gold|);
    }
  }

  lemma {:induction false} AllLinesCounted(gold: seq<Line>, known: seq<string>, n: nat)
    requires n <= |gold|
    requires forall i :: 0 <= i < n ==> Counted(gold[i], known)
    ensures CountedLines(gold, known, n) == n
  {
    if n > 0 {
      AllLinesCounted(gold, known, n - 1);
    }
  }

  /** A line pair as a whitespace split of well-formed files gives it: the
      same word form on both sides, each followed by a tag. */
  predicate WellFormedPair(g: Line, s: Line) {
    |g| >= 2 && |s| >= 2 && g[0] == s[0] && g[1] != []
  }

  /** Over well-formed line pairs the walk never stops. */
  lemma {:induction false} WellFormedWalks(gold: seq<Line>, system: seq<Line>, known: seq<string>, n: nat)
    requires n <= |gold| && n <= |system|
    requires forall i :: 0 <= i < n ==> WellFormedPair(gold[i], system[i])
    ensures Walk(gold, system, known, n).Counting?
  {
    if n > 0 {
      WellFormedWalks(gold, system, known, n - 1);
    }
  }

  /** Without a training file, well-formed aligned files of equal, non-zero
      length evaluate successfully: every line is counted and the correct
      tokens are those whose tags agree. */
  lemma UnfilteredCounts(gold: seq<Line>, system: seq<Line>)
    requires 0 < |gold| == |system|
    requires forall i :: 0 <= i < |gold| ==> WellFormedPair(gold[i], system[i])
    ensures Evaluate(gold, system, []).Done?
    ensures Evaluate(gold, system, []).tally.total == |gold|
    ensures Evaluate(gold, system, []).tally.correct == Agreements(gold, system, [], |gold|)
  {
    assert Lexicon([]) == [];
    WellFormedWalks(gold, system, [], |gold|);
    WalkTally(gold, system, [], |gold|);
    AllLinesCounted(gold, [], |gold|);
  }

  // ---------------------------------------------------------------------------
  // Small worked examples
  // ---------------------------------------------------------------------------

  /** One of two tokens mis-tagged: a verb tagged as an adverb is recorded
      under the gold category, verbs. */
  lemma VerbTaggedAsAdverb()
    ensures var r := Evaluate([["dog", "N"], ["runs", "V"]], [["dog", "N"], ["runs", "B"]], []);
      r == Done(Tally(2, 1, ["V"])) && r.tally.Stats().residual == 0
  {
    var gold: seq<Line> := [["dog", "N"], ["runs", "V"]];
    var system: seq<Line> := [["dog", "N"], ["runs", "B"]];
    assert Lexicon([]) == [];
    assert Walk(gold, system, [], 1) == Counting(Tally(1, 1, []));
    assert Code("V") == "V";
    assert Walk(gold, system, [], 2) == Counting(Tally(2, 1, ["V"]));
    assert Unnamed(["V"], Categories) == 0 by {
      assert "V" in Categories;
    }
  }

  /** A known word is not counted even though its tags differ. */
  lemma KnownWordExample()
    ensures Evaluate([["dog", "N"], ["cat", "S"]], [["dog", "V"], ["cat", "S"]], [["dog", "N"]])
      == Done(Tally(1, 1, []))
  {
    var gold: seq<Line> := [["dog", "N"], ["cat", "S"]];
    var system: seq<Line> := [["dog", "V"], ["cat", "S"]];
    var train: seq<Line> := [["dog", "N"]];
    assert Lower("dog") == "dog";
    assert Lower("cat") == "cat";
    assert Lexicon(train) == ["dog"] by {
      assert train[..0] == [];
    }
    assert Walk(gold, system, ["dog"], 1) == Counting(Tally(0, 0, []));
    assert Walk(gold, system, ["dog"], 2) == Counting(Tally(1, 1, []));
  }
}
