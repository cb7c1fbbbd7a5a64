# A Naive-Bayes review classifier, modelled in Dafny

`classify.py` trains a two-class, Naive-Bayes-style text classifier on labelled
documents (hotel reviews) and labels a test set. It works in three stages and
has a driver that runs them:

- **Word frequencies (`word_freq`).** Each document is split on single spaces
  and reduced to its set of distinct tokens. For every token, the counter of the
  document's class is incremented in a dictionary of per-class counts.
- **Posterior probabilities (`posterior_probabilities`).** The counts become:
  - `P(word | class)`, the count over the class's number of documents;
  - a trailing global `P(word)`, the summed count over all documents;
  - the class priors.
- **Prediction (`predict`).** Every class score starts at 1. Each distinct known
  word adds `log(P(word|c) * P(c) / P(word))` to the score of every class `c`
  where `P(word|c)` is strictly above a threshold `sigma`. The first class with
  the maximum score wins.
- **The driver (`classifier`).** It trains on the training set and labels each
  test document, with `sigma = 1/1200`.

The modules follow these stages:

- `Tokenize` (tokenize.dfy): `str.split(" ")` and the token set.
- `Corpus` (corpus.dfy): the dataset, `list.count`, `list.index`, and class
  counts and their sums.
- `FrequencyCounter` (frequency.dfy): `word_freq`. It is an imperative method
  over a map, proved equal to the specification function `FreqTable`.
- `PosteriorEstimator` (posterior.dfy): `posterior_probabilities`, as pure
  functions over exact `real` ratios.
- `Predictor` (predictor.dfy): `predict`. The score list is an `array<real>`
  updated in place. It is proved equal to `Scores`, an order-independent sum of
  per-word terms, followed by `FirstArgMax`.
- `Classify` (classifier.dfy): `classifier`, the loop that appends one label per
  test document.

The natural logarithm has no Dafny counterpart, so it is a parameter
`log: real --> real` that is defined at least on every positive number
(`LogDefined`). No proof depends on its values. What is proved is that every
logarithm taken has a positive argument.

The class ordering that `list(set(labels))` produces is not deterministic. The
model takes `classes` as a given sequence of distinct names. `classifier` looks
up the index that `predict` returns, which follows the training order, in the
test set's class list (classify.py:117). The model does the same and only
requires that list to be long enough. A meaningful label therefore assumes that
the training and test sets list their classes in the same order.

Two consequences of `split(" ")` are easy to miss:

- **An empty document is not wordless.** `"".split(" ")` is `[""]`. A leading
  or trailing space, or a run of two spaces, also yields the empty word `""`
  (`Tokenize.EmptyToken`). An empty training document therefore makes `""` a
  known word (`FrequencyCounter.EmptyDocumentCounted`). An empty test document
  then scores that word like any other.
- **Unseen test text keeps the baseline.** If none of the test document's
  tokens occurs in training, every score stays at 1 and class 0 is predicted
  (`Predictor.NoKnownWords`, `Classify.ClassifierLabels`).

## Model

| member | source | states |
|---|---|---|
| Tokenize.Split | classify.py:30 | `text.split(" ")` yields at least one piece, and no piece contains the separator |
| Tokenize.Tokens | classify.py:93 | a document's token set is never empty |
| Tokenize.JoinSplit | classify.py:30 | splitting loses nothing: joining the pieces with the separator gives the text back |
| Tokenize.SplitJoin | classify.py:30 | splitting a join of separator-free pieces, empty pieces included, returns exactly those pieces |
| Tokenize.EmptyTextToken | classify.py:93 | the empty text has exactly one token, the empty word |
| Tokenize.JoinAppend | classify.py:30 | joining two non-empty lists of pieces puts exactly one separator between their joins |
| Tokenize.LeadingSeparator | classify.py:30 | a text starting with the separator has an empty piece |
| Tokenize.TrailingSeparator | classify.py:30 | a text ending with the separator has an empty piece |
| Tokenize.AdjacentSeparators | classify.py:30 | two adjacent separators anywhere in a text enclose an empty piece |
| Tokenize.EmptyToken | classify.py:93 | the empty word is a token of every text that is empty, starts or ends with a space, or contains two adjacent spaces |
| Corpus.Count | classify.py:60 | `list.count` is at most the list's length |
| Corpus.CountZero | classify.py:60 | a name's count is zero exactly when it is absent from the list |
| Corpus.CountOfDistinct | classify.py:35 | a name in a list of distinct names is counted once |
| Corpus.IndexOf | classify.py:35 | `classes.index(label)` is a position holding the label, and no earlier position holds it |
| Corpus.SumOfClassCounts | classify.py:59-60 | when every label is one of the distinct classes, the per-class sample counts add up to the total number of samples |
| Corpus.EntryAtMostSum | classify.py:64 | no count exceeds `sum(freq[word])` |
| Corpus.SumOfQuotients | classify.py:66 | dividing every sample count by the total divides their sum by the total |
| FrequencyCounter.FreqTable | classify.py:15-37 | every row has one counter per class; a non-empty table implies at least one document |
| FrequencyCounter.WordFreq | classify.py:15-37 | the dictionary built by the nested counting loops equals `FreqTable`, the per-class counts of the documents containing each word |
| FrequencyCounter.CountDocument | classify.py:29-35 | after one document's words are processed, the table holds the earlier documents' counts plus one at the document's class for each of its distinct words |
| FrequencyCounter.Increment | classify.py:34-35 | a new word gets a row of zeros, then its counter at the class position is incremented and no other entry changes |
| FrequencyCounter.CountWord | classify.py:33-35 | one increment extends the counted state by exactly that word |
| FrequencyCounter.CountedRow | classify.py:35 | incrementing position `classes.index(label)` adds one to that class's count and to no other, as the classes are distinct |
| FrequencyCounter.NextDocument | classify.py:28-35 | finishing a document leaves exactly the counts of all documents seen so far |
| FrequencyCounter.VocabularyMembership | classify.py:33-34 | a word is in the vocabulary exactly when some document's token set contains it |
| FrequencyCounter.LabelsWithEmpty | classify.py:34 | a word has no labelled occurrence exactly when it is outside the vocabulary |
| FrequencyCounter.CountIsDocuments | classify.py:17-19 | the count of a class is the number of that class's documents containing the word |
| FrequencyCounter.CountAtMostClassSize | classify.py:30-35 | a word's count for a class never exceeds the number of documents of that class |
| FrequencyCounter.LabelsAreDocuments | classify.py:30-35 | the occurrences of a word number the documents containing it |
| FrequencyCounter.DocsContainingBound | classify.py:64 | no more documents contain a word than there are documents |
| FrequencyCounter.FreqTableKeys | classify.py:28-34 | a word is a key of the table exactly when it is a token of some training document |
| FrequencyCounter.FreqTableCounts | classify.py:30-35 | `freq[w][i]` is the number of documents labelled `classes[i]` that contain `w`, counted once per document, and is at most the number of such documents |
| FrequencyCounter.FreqTableRowSum | classify.py:30-35 | `sum(freq[w])` is the number of documents containing `w`, and is at least 1 for every key |
| FrequencyCounter.EmptyDocumentCounted | classify.py:30 | an empty training document makes the empty word a key |
| PosteriorEstimator.PosteriorProbabilities | classify.py:39-68 | `word_probs` has exactly the keys of `freq_dict`, each row has length n+1, and there is one prior per class |
| PosteriorEstimator.PriorsAreProbabilities | classify.py:66 | positive per-class counts no larger than the total give priors in (0, 1] |
| PosteriorEstimator.PriorsSumToOne | classify.py:66 | per-class counts that add up to the total give priors summing to 1 |
| PosteriorEstimator.ClassPriorsDistribution | classify.py:59-66 | for a well-formed training set with every class sampled, `class_probs[i]` is `count(classes[i]) / total`, lies in (0, 1], and the priors sum to 1 |
| PosteriorEstimator.WordClassProbability | classify.py:63-64 | for the counted table, entry `i` of a word's row (length n+1) is the fraction of class `i`'s documents containing the word, and lies in [0, 1] |
| PosteriorEstimator.WordGlobalProbability | classify.py:63-64 | for the counted table, the last entry of a word's row is the fraction of all documents containing the word, and lies in (0, 1] |
| Predictor.FirstArgMax | classify.py:102 | `distribution.index(max(distribution))` is in range, holds the maximum, and every earlier entry is strictly smaller |
| Predictor.FirstArgMaxUnique | classify.py:102 | a position holding the maximum with only smaller entries before it is the first argmax |
| Predictor.IndexOfMax | classify.py:102 | the two-pass scan over the array returns the first position of its maximum |
| Predictor.EvidenceRemove | classify.py:96-100 | the words' total contribution to a class does not depend on the iteration order of the token set: any one word can be taken first |
| Predictor.AddWordEvidence | classify.py:98-100 | the per-class loop adds exactly the word's term to each class score: the log term where the entry is strictly above `sigma`, nothing otherwise |
| Predictor.Predict | classify.py:71-102 | the result is a class index in range, and is the first argmax of the scores `1 + sum of the terms of the document's distinct words` |
| Predictor.IgnoredWord | classify.py:97-99 | a word missing from the table, or whose probability for the class is at most `sigma` (strict test), leaves that class's score unchanged |
| Predictor.OnlyKnownWordsCount | classify.py:96-97 | a class score depends only on the document's words that are keys of the table |
| Predictor.UnknownWordsIgnored | classify.py:96-97 | removing the unknown words from a document leaves all its scores unchanged |
| Predictor.NoKnownWords | classify.py:94-102 | a document with no known word keeps every score at 1, and class 0 is predicted |
| Classify.WordRowLogArgument | classify.py:64-66 | in a row built from counts, an entry above a non-negative threshold makes the global entry positive and the log argument positive |
| Classify.PosteriorTablesScorable | classify.py:99-100 | with tables from `posterior_probabilities` and any `sigma >= 0`, every logarithm `predict` takes has a positive argument, so prediction never fails |
| Classify.Prediction | classify.py:117 | the class position predicted for a document with the trained tables is a valid training class index |
| Classify.Classifier | classify.py:111-118 | one label per test document, in order: label `j` is the test class at the position `predict` returns for document `j` with sigma 1/1200; when the test classes are listed in the training order, every label given is a training label |
| Classify.ClassifierLabels | classify.py:117 | the predicted training class occurs among the training labels; a document sharing no token with any training document is given class 0 |

## Left out

- `load_file` (classify.py:4-13): file reading and line parsing are input and
  output. The model starts from a `Dataset` of objects, labels and classes.
- The `__main__` block (classify.py:120-135): command-line handling, the guard
  requiring exactly two classes and the same class set in both files, and the
  accuracy printout. The model allows any number of classes.
- Float arithmetic: the ratios are exact `real` values, so rounding is not
  modelled.
- `math.log`: it is a parameter defined on the positive reals. Its values, and
  so which class wins on concrete inputs, are not modelled.
- The order of `list(set(...))`, for both the class list and a document's words.
  The classes are a given sequence of distinct names. Word order is irrelevant,
  because counting is order-free and the score sum is order-independent
  (`Predictor.EvidenceRemove`). The floating-point sum in the source may differ
  slightly between orders.
- Classify.Classifier: requires only that the test class list is at least as
  long as the training one. Labels are promised to be training labels only when
  both lists are in the same order; nothing is promised about a different order.
- Exceptions the source would raise on bad input become preconditions:
  - `classes.index` failing: every label must be in `classes`.
  - Division by zero: every class needs a training document.
  - `max` of an empty list: at least one class.
  - `log` outside its domain, for tables other than those of
    `posterior_probabilities`: `Scorable`.
- Predictor.Predict: for tables in general, the ZeroDivisionError on a zero
  global entry and the math domain error on a non-positive log argument are
  excluded by the precondition `Scorable`, not modelled as errors. For trained
  tables `Classify.PosteriorTablesScorable` proves they cannot occur.
