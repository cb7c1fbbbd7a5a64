/** The driver (`classifier`, classify.py:111-118): count the training corpus,
    turn the counts into probabilities, and give every test document the class
    name at the predicted position. */
module Classify {
  import opened Tokenize
  import opened Corpus
  import opened FrequencyCounter
  import opened PosteriorEstimator
  import opened Predictor

  /** The threshold `1/1200` passed to `predict`. */
  const Sigma: real := 1.0 / 1200.0

  /** A product of two positive numbers divided by a positive number is positive. */
  lemma PositiveQuotient(a: real, b: real, l: real)
    requires a > 0.0 && b > 0.0 && l > 0.0
    ensures a * b / l > 0.0
  {
    assert a * b > 0.0;
  }

  /** In a row built from counts, an entry above a non-negative threshold comes
      from a positive count, so the global entry is positive; with a positive
      prior the log argument is positive. */
  lemma WordRowLogArgument(counts: seq<nat>, samples: seq<nat>, total: nat, c: nat, sigma: real)
    requires |counts| >= |samples| && total > 0
    requires forall i :: 0 <= i < |samples| ==> 0 < samples[i]
    requires c < |samples| && 0.0 <= sigma && WordRow(counts, samples, total)[c] > sigma
    ensures var row := WordRow(counts, samples, total);
            Last(row) != 0.0 && LogArgument(row, ClassPriors(samples, total), c) > 0.0
  {
    var row := WordRow(counts, samples, total);
    assert row[c] == counts[c] as real / samples[c] as real;
    EntryAtMostSum(counts, c);
    assert Last(row) == SumN(counts) as real / total as real;
    PositiveQuotient(row[c], ClassPriors(samples, total)[c], Last(row));
  }

  /** Tables built by `posterior_probabilities` from any count table never make
      `predict` fail for a non-negative threshold. */
  lemma PosteriorTablesScorable(freq: map<string, seq<nat>>, d: Dataset, words: set<string>, sigma: real)
    requires forall w :: w in freq ==> |freq[w]| >= |d.classes|
    requires EveryClassSampled(d)
    requires freq.Keys != {} ==> |d.labels| > 0
    requires 0.0 <= sigma
    ensures var t := PosteriorProbabilities(freq, d);
            Scorable(words, t.wordProbs, t.classProbs, sigma)
  {
    var t := PosteriorProbabilities(freq, d);
    forall w, c | w in words && w in t.wordProbs && 0 <= c < |t.classProbs| && t.wordProbs[w][c] > sigma
      ensures Last(t.wordProbs[w]) != 0.0 && LogArgument(t.wordProbs[w], t.classProbs, c) > 0.0
    {
      WordRowLogArgument(freq[w], ClassSamples(d), |d.labels|, c, sigma);
    }
  }

  /** The tables `classifier` trains on `train`. */
  function Train(train: Dataset): Tables
    requires WellFormed(train) && EveryClassSampled(train)
  {
    PosteriorProbabilities(FreqTable(train), train)
  }

  /** The class position `predict` returns for `text` with the trained tables. */
  ghost function Prediction(train: Dataset, text: string, log: real --> real): (k: nat)
    requires WellFormed(train) && EveryClassSampled(train) && |train.classes| > 0
    requires LogDefined(log)
    ensures k < |train.classes|
  {
    var t := Train(train);
    PosteriorTablesScorable(FreqTable(train), train, Tokens(text), Sigma);
    FirstArgMax(Scores(Tokens(text), t.wordProbs, t.classProbs, Sigma, log))
  }

  /** `classifier(train_data, test_data)`. The position returned by `predict`
      follows the training class order and is looked up in the test class list,
      which must therefore be at least as long; when both lists are in the same
      order, every label given is a training label. */
  method Classifier(train: Dataset, test: Dataset, log: real --> real) returns (pred: seq<string>)
    requires WellFormed(train) && EveryClassSampled(train) && |train.classes| > 0
    requires |train.classes| <= |test.classes|
    requires LogDefined(log)
    ensures |pred| == |test.objects|
    ensures forall j :: 0 <= j < |pred| ==> pred[j] == test.classes[Prediction(train, test.objects[j], log)]
    ensures test.classes == train.classes ==> forall j :: 0 <= j < |pred| ==> pred[j] in train.labels
  {
    var freq := WordFreq(train);
    var tables := PosteriorProbabilities(freq, train);
    assert tables == Train(train);
    pred := [];
    var i := 0;
    while i < |test.objects|
      invariant 0 <= i <= |test.objects|
      invariant |pred| == i
      invariant forall j :: 0 <= j < i ==> pred[j] == test.classes[Prediction(train, test.objects[j], log)]
    {
      PosteriorTablesScorable(freq, train, Tokens(test.objects[i]), Sigma);
      var k := Predict(test.objects[i], tables.wordProbs, tables.classProbs, Sigma, log);
      pred := pred + [test.classes[k]];
      i := i + 1;
    }
    forall j | 0 <= j < |pred| ensures train.classes[Prediction(train, test.objects[j], log)] in train.labels {
      ClassifierLabels(train, test.objects[j], log);
    }
  }

  /** The training class at the predicted position is one that labels some
      training document, and a text sharing no token with any training
      document is given the first class. */
  lemma ClassifierLabels(train: Dataset, text: string, log: real --> real)
    requires WellFormed(train) && EveryClassSampled(train) && |train.classes| > 0
    requires LogDefined(log)
    ensures train.classes[Prediction(train, text, log)] in train.labels
    ensures (forall j :: 0 <= j < |train.objects| ==> Tokens(text) !! Tokens(train.objects[j]))
            ==> Prediction(train, text, log) == 0
  {
    var k := Prediction(train, text, log);
    CountZero(train.labels, train.classes[k]);
    var t := Train(train);
    if forall j :: 0 <= j < |train.objects| ==> Tokens(text) !! Tokens(train.objects[j]) {
      forall w | w in Tokens(text) ensures w !in t.wordProbs {
        FreqTableKeys(train, w);
      }
      NoKnownWords(Tokens(text), t.wordProbs, t.classProbs, Sigma, log);
    }
  }
}
