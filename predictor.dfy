/** The predictor (`predict`, classify.py:71-102): every class starts at a score
    of 1; each distinct known word adds, for each class whose conditional
    probability exceeds `sigma`, the log of `P(word|class) * P(class) / P(word)`;
    the first class of maximum score wins. The logarithm is a parameter of the
    model: nothing here depends on its values, only on where it is defined. */
module Predictor {
  import opened Tokenize

  /** The logarithm is defined at least on every positive number. */
  ghost predicate LogDefined(log: real --> real) {
    forall x: real :: x > 0.0 ==> log.requires(x)
  }

  /** `row[-1]`. */
  function Last(row: seq<real>): real
    requires |row| > 0
  {
    row[|row| - 1]
  }

  /** The argument of the logarithm for class `c`: `row[c] * P(c) / row[-1]`. */
  function LogArgument(row: seq<real>, classProbs: seq<real>, c: nat): real
    requires c < |classProbs| <= |row| && Last(row) != 0.0
  {
    row[c] * classProbs[c] / Last(row)
  }

  /** What `predict` demands of its tables for the words of one text: a known
      word's row has an entry for every class, and wherever the log is taken
      (the entry exceeds `sigma`) its argument is defined and positive. */
  ghost predicate Scorable(words: set<string>, wordProbs: map<string, seq<real>>, classProbs: seq<real>, sigma: real) {
    forall w :: w in words && w in wordProbs ==>
      && |wordProbs[w]| >= |classProbs|
      && forall c :: 0 <= c < |classProbs| && wordProbs[w][c] > sigma ==>
           && Last(wordProbs[w]) != 0.0
           && LogArgument(wordProbs[w], classProbs, c) > 0.0
  }

  /** What word `w` adds to the score of class `c`: nothing for an unknown word
      or one whose conditional probability is at most `sigma`. */
  ghost function Term(w: string, c: nat, wordProbs: map<string, seq<real>>, classProbs: seq<real>,
                      sigma: real, log: real --> real): real
    requires LogDefined(log) && c < |classProbs| && Scorable({w}, wordProbs, classProbs, sigma)
  {
    if w in wordProbs && wordProbs[w][c] > sigma
    then log(LogArgument(wordProbs[w], classProbs, c))
    else 0.0
  }

  /** The total that the words of `words` add to the score of class `c`, in no
      particular order (exact addition is order-independent). */
  ghost function Evidence(words: set<string>, c: nat, wordProbs: map<string, seq<real>>, classProbs: seq<real>,
                          sigma: real, log: real --> real): real
    requires LogDefined(log) && c < |classProbs| && Scorable(words, wordProbs, classProbs, sigma)
    decreases words
  {
    if words == {} then 0.0
    else
      var w :| w in words;
      Term(w, c, wordProbs, classProbs, sigma, log) + Evidence(words - {w}, c, wordProbs, classProbs, sigma, log)
  }

  /** The final `distribution` of `predict` for a text whose distinct words are `words`. */
  ghost function Scores(words: set<string>, wordProbs: map<string, seq<real>>, classProbs: seq<real>,
                        sigma: real, log: real --> real): (s: seq<real>)
    requires LogDefined(log) && Scorable(words, wordProbs, classProbs, sigma)
    ensures |s| == |classProbs|
  {
    seq(|classProbs|, c requires 0 <= c < |classProbs| => 1.0 + Evidence(words, c, wordProbs, classProbs, sigma, log))
  }

  /** `s.index(max(s))`: the first position of the largest entry. */
  function FirstArgMax(s: seq<real>): (k: nat)
    requires |s| > 0
    ensures k < |s|
    ensures forall j :: 0 <= j < |s| ==> s[j] <= s[k]
    ensures forall j :: 0 <= j < k ==> s[j] < s[k]
    decreases |s|
  {
    if |s| == 1 then 0
    else
      var k := FirstArgMax(s[..|s| - 1]);
      if s[|s| - 1] > s[k] then |s| - 1 else k
  }

  /** Being a first position of the maximum determines the position. */
  lemma FirstArgMaxUnique(s: seq<real>, k: nat)
    requires k < |s|
    requires forall j :: 0 <= j < |s| ==> s[j] <= s[k]
    requires forall j :: 0 <= j < k ==> s[j] < s[k]
    ensures k == FirstArgMax(s)
  {
  }

  /** `distribution.index(max(distribution))`: one pass for the maximum, a
      second for the first index holding it. */
  method IndexOfMax(a: array<real>) returns (k: nat)
    requires a.Length > 0
    ensures k == FirstArgMax(a[..])
  {
    var m := a[0];
    ghost var at := 0;
    var i := 1;
    while i < a.Length
      invariant 1 <= i <= a.Length
      invariant at < i && a[at] == m
      invariant forall j :: 0 <= j < i ==> a[j] <= m
    {
      if a[i] > m {
        m, at := a[i], i;
      }
      i := i + 1;
    }
    k := 0;
    while a[k] != m
      invariant k <= at
      invariant forall j :: 0 <= j < k ==> a[j] != m
      decreases at - k
    {
      k := k + 1;
    }
    FirstArgMaxUnique(a[..], k);
  }

  /** Any one word's contribution can be taken first. */
  lemma {:induction false} EvidenceRemove(words: set<string>, y: string, c: nat, wordProbs: map<string, seq<real>>,
                                          classProbs: seq<real>, sigma: real, log: real --> real)
    requires LogDefined(log) && c < |classProbs| && Scorable(words, wordProbs, classProbs, sigma)
    requires y in words
    ensures Evidence(words, c, wordProbs, classProbs, sigma, log)
            == Term(y, c, wordProbs, classProbs, sigma, log) + Evidence(words - {y}, c, wordProbs, classProbs, sigma, log)
    decreases words
  {
    var w :| w in words && Evidence(words, c, wordProbs, classProbs, sigma, log)
                           == Term(w, c, wordProbs, classProbs, sigma, log)
                              + Evidence(words - {w}, c, wordProbs, classProbs, sigma, log);
    if w != y {
      EvidenceRemove(words - {w}, y, c, wordProbs, classProbs, sigma, log);
      EvidenceRemove(words - {y}, w, c, wordProbs, classProbs, sigma, log);
      assert words - {w} - {y} == words - {y} - {w};
    }
  }

  /** Wherever `predict` takes a logarithm, its argument is positive. */
  lemma LogArgumentPositive(word: string, c: nat, wordProbs: map<string, seq<real>>, classProbs: seq<real>, sigma: real)
    requires word in wordProbs && Scorable({word}, wordProbs, classProbs, sigma)
    requires c < |classProbs| && wordProbs[word][c] > sigma
    ensures Last(wordProbs[word]) != 0.0 && LogArgument(wordProbs[word], classProbs, c) > 0.0
  {
    assert word in {word};
  }

  /** The inner loop of `predict` for one known word: each class whose
      conditional probability exceeds `sigma` has the word's log term added. */
  method AddWordEvidence(distribution: array<real>, word: string, wordProbs: map<string, seq<real>>,
                         classProbs: seq<real>, sigma: real, log: real --> real)
    requires distribution.Length == |classProbs|
    requires LogDefined(log) && word in wordProbs && Scorable({word}, wordProbs, classProbs, sigma)
    modifies distribution
    ensures forall c :: 0 <= c < distribution.Length ==>
              distribution[c] == old(distribution[c]) + Term(word, c, wordProbs, classProbs, sigma, log)
  {
    var n := |classProbs|;
    var row := wordProbs[word];
    var c := 0;
    while c < n
      invariant 0 <= c <= n
      invariant forall c' :: 0 <= c' < c ==>
                  distribution[c'] == old(distribution[c']) + Term(word, c', wordProbs, classProbs, sigma, log)
      invariant forall c' :: c <= c' < n ==> distribution[c'] == old(distribution[c'])
    {
      ghost var term := Term(word, c, wordProbs, classProbs, sigma, log);
      if row[c] > sigma {
        LogArgumentPositive(word, c, wordProbs, classProbs, sigma);
        distribution[c] := distribution[c] + log(LogArgument(row, classProbs, c));
      }
      assert distribution[c] == old(distribution[c]) + term;
      c := c + 1;
    }
  }

  /** `predict(text, word_probs, class_probs, sigma)`. */
  method Predict(text: string, wordProbs: map<string, seq<real>>, classProbs: seq<real>, sigma: real,
                 log: real --> real)
    returns (k: nat)
    requires |classProbs| > 0
    requires LogDefined(log)
    requires Scorable(Tokens(text), wordProbs, classProbs, sigma)
    ensures k < |classProbs|
    ensures k == FirstArgMax(Scores(Tokens(text), wordProbs, classProbs, sigma, log))
  {
    var n := |classProbs|;
    var words := Tokens(text);
    var distribution := new real[n](_ => 1.0);
    var remaining := words;
    while remaining != {}
      invariant remaining <= words
      invariant forall c :: 0 <= c < n ==>
                  distribution[c] == 1.0 + Evidence(words - remaining, c, wordProbs, classProbs, sigma, log)
      decreases remaining
    {
      var word :| word in remaining;
      ghost var done := words - remaining;
      if word in wordProbs {
        AddWordEvidence(distribution, word, wordProbs, classProbs, sigma, log);
      }
      forall c | 0 <= c < n
        ensures Evidence(done + {word}, c, wordProbs, classProbs, sigma, log)
                == Evidence(done, c, wordProbs, classProbs, sigma, log) + Term(word, c, wordProbs, classProbs, sigma, log)
      {
        EvidenceRemove(done + {word}, word, c, wordProbs, classProbs, sigma, log);
        assert done + {word} - {word} == done;
      }
      remaining := remaining - {word};
      assert words - remaining == done + {word};
    }
    assert words - remaining == words;
    assert distribution[..] == Scores(words, wordProbs, classProbs, sigma, log);
    k := IndexOfMax(distribution);
  }

  /** A word that is not in the table, or whose conditional probability for `c`
      is at most `sigma`, leaves the score of `c` unchanged. */
  lemma IgnoredWord(words: set<string>, w: string, c: nat, wordProbs: map<string, seq<real>>,
                    classProbs: seq<real>, sigma: real, log: real --> real)
    requires LogDefined(log) && c < |classProbs| && Scorable(words, wordProbs, classProbs, sigma)
    requires w in words && (w !in wordProbs || wordProbs[w][c] <= sigma)
    ensures Evidence(words, c, wordProbs, classProbs, sigma, log)
            == Evidence(words - {w}, c, wordProbs, classProbs, sigma, log)
  {
    EvidenceRemove(words, w, c, wordProbs, classProbs, sigma, log);
  }

  /** Only the words of the text that are in the table contribute. */
  lemma {:induction false} OnlyKnownWordsCount(words: set<string>, c: nat, wordProbs: map<string, seq<real>>,
                                               classProbs: seq<real>, sigma: real, log: real --> real)
    requires LogDefined(log) && c < |classProbs| && Scorable(words, wordProbs, classProbs, sigma)
    ensures Evidence(words, c, wordProbs, classProbs, sigma, log)
            == Evidence(words * wordProbs.Keys, c, wordProbs, classProbs, sigma, log)
    decreases words
  {
    if words != {} {
      var y :| y in words;
      EvidenceRemove(words, y, c, wordProbs, classProbs, sigma, log);
      OnlyKnownWordsCount(words - {y}, c, wordProbs, classProbs, sigma, log);
      if y in wordProbs {
        assert (words - {y}) * wordProbs.Keys == words * wordProbs.Keys - {y};
        EvidenceRemove(words * wordProbs.Keys, y, c, wordProbs, classProbs, sigma, log);
      } else {
        assert (words - {y}) * wordProbs.Keys == words * wordProbs.Keys;
      }
    }
  }

  /** The scores, and so the prediction, depend only on the known words of the text. */
  lemma UnknownWordsIgnored(words: set<string>, wordProbs: map<string, seq<real>>,
                            classProbs: seq<real>, sigma: real, log: real --> real)
    requires LogDefined(log) && Scorable(words, wordProbs, classProbs, sigma)
    ensures Scores(words, wordProbs, classProbs, sigma, log)
            == Scores(words * wordProbs.Keys, wordProbs, classProbs, sigma, log)
  {
    forall c | 0 <= c < |classProbs|
      ensures Evidence(words, c, wordProbs, classProbs, sigma, log)
              == Evidence(words * wordProbs.Keys, c, wordProbs, classProbs, sigma, log)
    {
      OnlyKnownWordsCount(words, c, wordProbs, classProbs, sigma, log);
    }
  }

  /** A text none of whose words is in the table leaves every score at 1, and
      the first class is predicted. */
  lemma NoKnownWords(words: set<string>, wordProbs: map<string, seq<real>>,
                     classProbs: seq<real>, sigma: real, log: real --> real)
    requires LogDefined(log) && |classProbs| > 0
    requires forall w :: w in words ==> w !in wordProbs
    ensures Scores(words, wordProbs, classProbs, sigma, log) == seq(|classProbs|, _ => 1.0)
    ensures FirstArgMax(Scores(words, wordProbs, classProbs, sigma, log)) == 0
  {
    UnknownWordsIgnored(words, wordProbs, classProbs, sigma, log);
    assert words * wordProbs.Keys == {};
    var s := Scores(words, wordProbs, classProbs, sigma, log);
    assert s[0] == 1.0;
  }
}
