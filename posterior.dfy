/** The posterior estimator (`posterior_probabilities`, classify.py:39-68): exact
    ratios of counts, `P(word | class)`, the global `P(word)` and the class priors. */
module PosteriorEstimator {
  import opened Tokenize
  import opened Corpus
  import opened FrequencyCounter

  /** `word_probs` and `class_probs`. */
  datatype Tables = Tables(wordProbs: map<string, seq<real>>, classProbs: seq<real>)

  /** `class_samples`: the number of training documents of each class. */
  function ClassSamples(d: Dataset): seq<nat> {
    ClassCounts(d.labels, d.classes)
  }

  /** `word_probs[word]`: each class's count over that class's sample count,
      followed by the summed count over the total number of samples. */
  function WordRow(counts: seq<nat>, samples: seq<nat>, total: nat): seq<real>
    requires |counts| >= |samples| && total > 0
    requires forall i :: 0 <= i < |samples| ==> samples[i] > 0
  {
    seq(|samples|, i requires 0 <= i < |samples| => counts[i] as real / samples[i] as real)
      + [SumN(counts) as real / total as real]
  }

  /** `class_probs`: each class's sample count over the total number of samples. */
  function ClassPriors(samples: seq<nat>, total: nat): seq<real>
    requires |samples| > 0 ==> total > 0
  {
    seq(|samples|, i requires 0 <= i < |samples| => samples[i] as real / total as real)
  }

  /** `posterior_probabilities(freq_dict, data)`. The source divides by every
      class's sample count and, for every word, by the number of samples; both
      must be non-zero. */
  function PosteriorProbabilities(freq: map<string, seq<nat>>, d: Dataset): (t: Tables)
    requires forall w :: w in freq ==> |freq[w]| >= |d.classes|
    requires EveryClassSampled(d)
    requires freq.Keys != {} ==> |d.labels| > 0
    ensures t.wordProbs.Keys == freq.Keys
    ensures forall w :: w in t.wordProbs ==> |t.wordProbs[w]| == |d.classes| + 1
    ensures |t.classProbs| == |d.classes|
  {
    var total := |d.labels|;
    var samples := ClassSamples(d);
    assert |d.classes| > 0 ==> Count(d.labels, d.classes[0]) > 0;
    Tables(map w | w in freq :: WordRow(freq[w], samples, total), ClassPriors(samples, total))
  }

  /** Dividing a count by a positive count it does not exceed gives a probability. */
  lemma RatioIsProbability(a: nat, b: nat)
    requires 0 < b && a <= b
    ensures 0.0 <= a as real / b as real <= 1.0
  {
  }

  lemma WholeOverWhole(n: nat)
    requires n > 0
    ensures n as real / n as real == 1.0
  {
  }

  /** Priors computed from positive per-class counts, none above the total, are in (0, 1]. */
  lemma PriorsAreProbabilities(samples: seq<nat>, total: nat)
    requires total > 0
    requires forall i :: 0 <= i < |samples| ==> 0 < samples[i] <= total
    ensures forall i :: 0 <= i < |samples| ==> 0.0 < ClassPriors(samples, total)[i] <= 1.0
  {
    forall i | 0 <= i < |samples| ensures 0.0 < ClassPriors(samples, total)[i] <= 1.0 {
      RatioIsProbability(samples[i], total);
    }
  }

  /** Priors computed from per-class counts that add up to the total sum to one. */
  lemma PriorsSumToOne(samples: seq<nat>, total: nat)
    requires total > 0 && SumN(samples) == total
    ensures SumR(ClassPriors(samples, total)) == 1.0
  {
    SumOfQuotients(ClassPriors(samples, total), samples, total as real);
    WholeOverWhole(total);
  }

  /** The priors are the fractions of training documents in each class: each is
      positive and at most one, and together they sum to one. */
  lemma ClassPriorsDistribution(d: Dataset)
    requires WellFormed(d) && EveryClassSampled(d) && |d.classes| > 0
    ensures var priors := PosteriorProbabilities(FreqTable(d), d).classProbs;
            && |priors| == |d.classes|
            && (forall i :: 0 <= i < |priors| ==>
                  priors[i] == Count(d.labels, d.classes[i]) as real / |d.labels| as real
                  && 0.0 < priors[i] <= 1.0)
            && SumR(priors) == 1.0
  {
    var samples := ClassSamples(d);
    assert samples[0] > 0;
    SumOfClassCounts(d.labels, d.classes);
    forall i | 0 <= i < |samples| ensures samples[i] <= |d.labels| {
      EntryAtMostSum(samples, i);
    }
    PriorsAreProbabilities(samples, |d.labels|);
    PriorsSumToOne(samples, |d.labels|);
  }

  /** For the table of `d`'s counts, entry `i` of a word's row is the fraction of
      class `i`'s documents that contain the word, a probability. */
  lemma WordClassProbability(d: Dataset, w: string, i: nat)
    requires WellFormed(d) && EveryClassSampled(d)
    requires w in FreqTable(d) && i < |d.classes|
    ensures var row := PosteriorProbabilities(FreqTable(d), d).wordProbs[w];
            && |row| == |d.classes| + 1
            && row[i] == |DocsWith(TokenSets(d.objects), d.labels, w, d.classes[i])| as real
                         / Count(d.labels, d.classes[i]) as real
            && 0.0 <= row[i] <= 1.0
  {
    var freq := FreqTable(d);
    FreqTableCounts(d, w, i);
    RatioIsProbability(freq[w][i], Count(d.labels, d.classes[i]));
  }

  /** For the table of `d`'s counts, the last entry of a word's row is the
      fraction of all documents that contain the word, positive and at most one. */
  lemma WordGlobalProbability(d: Dataset, w: string)
    requires WellFormed(d) && EveryClassSampled(d)
    requires w in FreqTable(d)
    ensures |d.labels| > 0
    ensures var row := PosteriorProbabilities(FreqTable(d), d).wordProbs[w];
            && |row| == |d.classes| + 1
            && row[|d.classes|] == |DocsContaining(TokenSets(d.objects), w)| as real / |d.labels| as real
            && 0.0 < row[|d.classes|] <= 1.0
  {
    var freq := FreqTable(d);
    var total := |d.labels|;
    var row := WordRow(freq[w], ClassSamples(d), total);
    assert PosteriorProbabilities(freq, d).wordProbs[w] == row;
    assert row[|d.classes|] == SumN(freq[w]) as real / total as real;
    FreqTableRowSum(d, w);
    DocsContainingBound(TokenSets(d.objects), w);
    RatioIsProbability(SumN(freq[w]), total);
  }
}
