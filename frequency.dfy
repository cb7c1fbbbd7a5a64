/** The frequency counter (`word_freq`, classify.py:15-37): for every word, the
    number of documents of each class whose token set contains it. */
module FrequencyCounter {
  import opened Tokenize
  import opened Corpus

  /** The distinct tokens of each document, in document order. */
  function TokenSets(objects: seq<string>): (docs: seq<set<string>>)
    ensures |docs| == |objects|
    ensures forall j :: 0 <= j < |objects| ==> docs[j] == Tokens(objects[j])
  {
    seq(|objects|, j requires 0 <= j < |objects| => Tokens(objects[j]))
  }

  /** Every word that belongs to at least one of the token sets. */
  function Vocabulary(docs: seq<set<string>>): set<string>
    decreases |docs|
  {
    if docs == [] then {} else Vocabulary(docs[..|docs| - 1]) + docs[|docs| - 1]
  }

  /** The labels, in document order, of the documents whose token set contains `w`. */
  function LabelsWith(docs: seq<set<string>>, labels: seq<string>, w: string): (ls: seq<string>)
    requires |docs| == |labels|
    ensures |ls| <= |docs|
    decreases |docs|
  {
    if docs == [] then []
    else
      var n := |docs| - 1;
      LabelsWith(docs[..n], labels[..n], w) + (if w in docs[n] then [labels[n]] else [])
  }

  /** Some document contributes a label exactly when the word is in the vocabulary. */
  lemma {:induction false} LabelsWithEmpty(docs: seq<set<string>>, labels: seq<string>, w: string)
    requires |docs| == |labels|
    ensures LabelsWith(docs, labels, w) == [] <==> w !in Vocabulary(docs)
    decreases |docs|
  {
    if docs != [] {
      var n := |docs| - 1;
      LabelsWithEmpty(docs[..n], labels[..n], w);
    }
  }

  /** The indices of the documents that carry label `c` and contain `w`. */
  function DocsWith(docs: seq<set<string>>, labels: seq<string>, w: string, c: string): set<nat>
    requires |docs| == |labels|
  {
    set j: nat | j < |docs| && labels[j] == c && w in docs[j]
  }

  /** The indices of the documents that contain `w`, whatever their label. */
  function DocsContaining(docs: seq<set<string>>, w: string): set<nat> {
    set j: nat | j < |docs| && w in docs[j]
  }

  /** The table `word_freq` returns: a row of per-class document counts for
      every word of the vocabulary, in the order of `classes`. */
  function FreqTable(d: Dataset): (freq: map<string, seq<nat>>)
    requires |d.objects| == |d.labels|
    ensures forall w :: w in freq ==> |freq[w]| == |d.classes|
    ensures freq.Keys != {} ==> |d.objects| > 0
  {
    var docs := TokenSets(d.objects);
    map w | w in Vocabulary(docs) :: ClassCounts(LabelsWith(docs, d.labels, w), d.classes)
  }

  /** `freq` holds the counts of the documents `docs` labelled `labels`. */
  ghost predicate Counted(freq: map<string, seq<nat>>, docs: seq<set<string>>, labels: seq<string>, classes: seq<string>)
    requires |docs| == |labels|
  {
    && freq.Keys == Vocabulary(docs)
    && forall w :: w in freq ==>
         && |freq[w]| == |classes|
         && forall k :: 0 <= k < |classes| ==> freq[w][k] == Count(LabelsWith(docs, labels, w), classes[k])
  }

  /** `freq` holds the counts of `docs`, plus one more document labelled `l`
      whose words in `done` have been counted so far. */
  ghost predicate CountedWithin(freq: map<string, seq<nat>>, docs: seq<set<string>>, labels: seq<string>,
                                classes: seq<string>, l: string, done: set<string>)
    requires |docs| == |labels|
  {
    && freq.Keys == Vocabulary(docs) + done
    && forall w :: w in freq ==>
         && |freq[w]| == |classes|
         && forall k :: 0 <= k < |classes| ==>
              freq[w][k] == Count(LabelsWith(docs, labels, w), classes[k])
                            + (if w in done && classes[k] == l then 1 else 0)
  }

  /** `word_freq`: a dictionary created lazily and incremented in place, one
      distinct word of one document at a time. */
  method WordFreq(d: Dataset) returns (freq: map<string, seq<nat>>)
    requires WellFormed(d)
    ensures freq == FreqTable(d)
  {
    ghost var docs := TokenSets(d.objects);
    freq := map[];
    var i := 0;
    while i < |d.objects|
      invariant 0 <= i <= |d.objects|
      invariant Counted(freq, docs[..i], d.labels[..i], d.classes)
    {
      freq := CountDocument(freq, d.objects[i], d.labels[i], d.classes, docs[..i], d.labels[..i]);
      FinishDocument(freq, d, i);
      i := i + 1;
    }
    CountedIsFreqTable(freq, d);
  }

  /** One pass of `word_freq`'s outer loop: for every distinct word of `text`,
      create its row of zeros if it is new, then increment the counter at
      `classes.index(docLabel)`. `docs` and `labels` are the documents already counted. */
  method CountDocument(freq0: map<string, seq<nat>>, text: string, docLabel: string, classes: seq<string>,
                       ghost docs: seq<set<string>>, ghost labels: seq<string>)
    returns (freq: map<string, seq<nat>>)
    requires |docs| == |labels| && Distinct(classes) && docLabel in classes
    requires Counted(freq0, docs, labels, classes)
    ensures CountedWithin(freq, docs, labels, classes, docLabel, Tokens(text))
  {
    freq := freq0;
    var n := |classes|;
    var words := Tokens(text);
    var remaining := words;
    while remaining != {}
      invariant remaining <= words
      invariant CountedWithin(freq, docs, labels, classes, docLabel, words - remaining)
      decreases remaining
    {
      var word :| word in remaining;
      ghost var done, before := words - remaining, freq;
      freq := Increment(freq, word, IndexOf(classes, docLabel), n);
      CountWord(before, freq, docs, labels, classes, docLabel, done, word);
      remaining := remaining - {word};
      assert words - remaining == done + {word};
    }
  }

  /** The body of `word_freq`'s inner loop: give `word` a row of `n` zeros if it
      has none, then add one to its counter at position `ci`. */
  method Increment(freq0: map<string, seq<nat>>, word: string, ci: nat, n: nat)
    returns (freq: map<string, seq<nat>>)
    requires word in freq0 ==> ci < |freq0[word]|
    requires ci < n
    ensures freq.Keys == freq0.Keys + {word}
    ensures forall w :: w in freq0 && w != word ==> freq[w] == freq0[w]
    ensures var row := if word in freq0 then freq0[word] else seq(n, _ => 0);
            freq[word] == row[ci := row[ci] + 1]
  {
    freq := freq0;
    if word !in freq {
      freq := freq[word := seq(n, _ => 0)];
    }
    freq := freq[word := freq[word][ci := freq[word][ci] + 1]];
  }

  /** Incrementing, for one more word of the current document, the counter of its class. */
  lemma CountWord(before: map<string, seq<nat>>, after: map<string, seq<nat>>, docs: seq<set<string>>,
                  labels: seq<string>, classes: seq<string>, l: string, done: set<string>, word: string)
    requires |docs| == |labels| && Distinct(classes) && l in classes
    requires CountedWithin(before, docs, labels, classes, l, done)
    requires word !in done
    requires after.Keys == before.Keys + {word}
    requires forall w :: w in before && w != word ==> after[w] == before[w]
    requires var row := if word in before then before[word] else seq(|classes|, _ => 0);
             var ci := IndexOf(classes, l);
             after[word] == row[ci := row[ci] + 1]
    ensures CountedWithin(after, docs, labels, classes, l, done + {word})
  {
    var row := if word in before then before[word] else seq(|classes|, _ => 0);
    if word !in before {
      LabelsWithEmpty(docs, labels, word);
    }
    CountedRow(row, LabelsWith(docs, labels, word), classes, l);
  }

  /** A row holding the counts of `counts` for each class, with one added at the
      class `l`, holds the counts of `counts` plus one document labelled `l`. */
  lemma CountedRow(row: seq<nat>, counts: seq<string>, classes: seq<string>, l: string)
    requires Distinct(classes) && l in classes
    requires |row| == |classes|
    requires forall k :: 0 <= k < |classes| ==> row[k] == Count(counts, classes[k])
    ensures var ci := IndexOf(classes, l);
            forall k :: 0 <= k < |classes| ==>
              row[ci := row[ci] + 1][k] == Count(counts, classes[k]) + (if classes[k] == l then 1 else 0)
  {
    var ci := IndexOf(classes, l);
    forall k | 0 <= k < |classes|
      ensures row[ci := row[ci] + 1][k] == Count(counts, classes[k]) + (if classes[k] == l then 1 else 0)
    {
      if k != ci {
        assert classes[k] != classes[ci];
      }
    }
  }

  /** Finishing a document leaves exactly the counts of the documents so far. */
  lemma NextDocument(freq: map<string, seq<nat>>, docs: seq<set<string>>, labels: seq<string>,
                     classes: seq<string>, words: set<string>, l: string)
    requires |docs| == |labels|
    requires CountedWithin(freq, docs, labels, classes, l, words)
    ensures Counted(freq, docs + [words], labels + [l], classes)
  {
    var docs', labels' := docs + [words], labels + [l];
    assert docs'[..|docs|] == docs && labels'[..|docs|] == labels;
    forall w, k | w in freq && 0 <= k < |classes|
      ensures freq[w][k] == Count(LabelsWith(docs', labels', w), classes[k])
    {
      var before := LabelsWith(docs, labels, w);
      assert LabelsWith(docs', labels', w) == before + (if w in words then [l] else []);
      if w in words {
        CountSnoc(before, l, classes[k]);
      } else {
        assert before + [] == before;
      }
    }
  }

  /** Finishing document `i` of `d` leaves the counts of its first `i + 1` documents. */
  lemma FinishDocument(freq: map<string, seq<nat>>, d: Dataset, i: nat)
    requires |d.objects| == |d.labels| && i < |d.objects|
    requires CountedWithin(freq, TokenSets(d.objects)[..i], d.labels[..i], d.classes, d.labels[i], Tokens(d.objects[i]))
    ensures Counted(freq, TokenSets(d.objects)[..i + 1], d.labels[..i + 1], d.classes)
  {
    var docs := TokenSets(d.objects);
    assert docs[..i + 1] == docs[..i] + [Tokens(d.objects[i])];
    assert d.labels[..i + 1] == d.labels[..i] + [d.labels[i]];
    NextDocument(freq, docs[..i], d.labels[..i], d.classes, Tokens(d.objects[i]), d.labels[i]);
  }

  lemma CountedIsFreqTable(freq: map<string, seq<nat>>, d: Dataset)
    requires |d.objects| == |d.labels|
    requires Counted(freq, TokenSets(d.objects)[..|d.objects|], d.labels[..|d.labels|], d.classes)
    ensures freq == FreqTable(d)
  {
    assert TokenSets(d.objects)[..|d.objects|] == TokenSets(d.objects);
    assert d.labels[..|d.labels|] == d.labels;
    var table := FreqTable(d);
    forall w | w in freq ensures freq[w] == table[w] {
      assert |freq[w]| == |table[w]|;
    }
  }

  /** Membership in the vocabulary is membership in some token set. */
  lemma {:induction false} VocabularyMembership(docs: seq<set<string>>, w: string)
    ensures w in Vocabulary(docs) <==> exists j :: 0 <= j < |docs| && w in docs[j]
    decreases |docs|
  {
    if docs != [] {
      var n := |docs| - 1;
      VocabularyMembership(docs[..n], w);
      if w in Vocabulary(docs[..n]) {
        var j :| 0 <= j < n && w in docs[..n][j];
        assert w in docs[j];
      }
      if exists j :: 0 <= j < |docs| && w in docs[j] {
        var j :| 0 <= j < |docs| && w in docs[j];
        if j < n {
          assert w in docs[..n][j];
        }
      }
    }
  }

  /** Every label collected is the label of some document. */
  lemma {:induction false} LabelsWithAreLabels(docs: seq<set<string>>, labels: seq<string>, w: string)
    requires |docs| == |labels|
    ensures forall x :: x in LabelsWith(docs, labels, w) ==> x in labels
    decreases |docs|
  {
    if docs != [] {
      var n := |docs| - 1;
      LabelsWithAreLabels(docs[..n], labels[..n], w);
      assert forall x :: x in labels[..n] ==> x in labels;
    }
  }

  lemma DocsWithStep(docs: seq<set<string>>, labels: seq<string>, w: string, c: string)
    requires 0 < |docs| == |labels|
    ensures var n := |docs| - 1;
            DocsWith(docs, labels, w, c)
            == DocsWith(docs[..n], labels[..n], w, c) + (if w in docs[n] && labels[n] == c then {n} else {})
            && n !in DocsWith(docs[..n], labels[..n], w, c)
  {
    var n := |docs| - 1;
    var now, was := DocsWith(docs, labels, w, c), DocsWith(docs[..n], labels[..n], w, c);
    var added := if w in docs[n] && labels[n] == c then {n} else {};
    forall j: nat | j in now ensures j in was + added {
      if j < n {
        assert docs[..n][j] == docs[j] && labels[..n][j] == labels[j];
      }
    }
  }

  lemma DocsContainingStep(docs: seq<set<string>>, w: string)
    requires 0 < |docs|
    ensures var n := |docs| - 1;
            DocsContaining(docs, w) == DocsContaining(docs[..n], w) + (if w in docs[n] then {n} else {})
            && n !in DocsContaining(docs[..n], w)
  {
    var n := |docs| - 1;
    var now, was := DocsContaining(docs, w), DocsContaining(docs[..n], w);
    var added := if w in docs[n] then {n} else {};
    forall j: nat | j in now ensures j in was + added {
      if j < n {
        assert docs[..n][j] == docs[j];
      }
    }
  }

  lemma {:induction false} DocsContainingBound(docs: seq<set<string>>, w: string)
    ensures |DocsContaining(docs, w)| <= |docs|
    decreases |docs|
  {
    if docs != [] {
      DocsContainingBound(docs[..|docs| - 1], w);
      DocsContainingStep(docs, w);
    }
  }

  /** Counting the labels of the documents that contain `w` and carry label `c`
      is counting those documents. */
  lemma {:induction false} CountIsDocuments(docs: seq<set<string>>, labels: seq<string>, w: string, c: string)
    requires |docs| == |labels|
    ensures Count(LabelsWith(docs, labels, w), c) == |DocsWith(docs, labels, w, c)|
    decreases |docs|
  {
    if docs == [] {
      assert DocsWith(docs, labels, w, c) == {};
    } else {
      var n := |docs| - 1;
      CountIsDocuments(docs[..n], labels[..n], w, c);
      DocsWithStep(docs, labels, w, c);
      var before := LabelsWith(docs[..n], labels[..n], w);
      if w in docs[n] {
        CountSnoc(before, labels[n], c);
      } else {
        assert before + [] == before;
      }
    }
  }

  /** The labels of the documents that contain `w` are one per such document. */
  lemma {:induction false} LabelsAreDocuments(docs: seq<set<string>>, labels: seq<string>, w: string)
    requires |docs| == |labels|
    ensures |LabelsWith(docs, labels, w)| == |DocsContaining(docs, w)|
    decreases |docs|
  {
    if docs == [] {
      assert DocsContaining(docs, w) == {};
    } else {
      var n := |docs| - 1;
      LabelsAreDocuments(docs[..n], labels[..n], w);
      DocsContainingStep(docs, w);
    }
  }

  /** Only documents of class `c` contribute to `c`'s count for `w`. */
  lemma {:induction false} CountAtMostClassSize(docs: seq<set<string>>, labels: seq<string>, w: string, c: string)
    requires |docs| == |labels|
    ensures Count(LabelsWith(docs, labels, w), c) <= Count(labels, c)
    decreases |docs|
  {
    if docs != [] {
      var n := |docs| - 1;
      CountAtMostClassSize(docs[..n], labels[..n], w, c);
      var before := LabelsWith(docs[..n], labels[..n], w);
      CountSnoc(labels[..n], labels[n], c);
      assert labels[..n] + [labels[n]] == labels;
      if w in docs[n] {
        CountSnoc(before, labels[n], c);
      } else {
        assert before + [] == before;
      }
    }
  }

  /** A word is a key of the table exactly when it is a token of some training document. */
  lemma FreqTableKeys(d: Dataset, w: string)
    requires |d.objects| == |d.labels|
    ensures w in FreqTable(d) <==> exists j :: 0 <= j < |d.objects| && w in Tokens(d.objects[j])
  {
    var docs := TokenSets(d.objects);
    VocabularyMembership(docs, w);
  }

  /** An empty training document is not ignored: it contributes the empty word. */
  lemma EmptyDocumentCounted(d: Dataset, j: nat)
    requires |d.objects| == |d.labels| && j < |d.objects| && d.objects[j] == ""
    ensures "" in FreqTable(d)
  {
    EmptyTextToken();
    FreqTableKeys(d, "");
  }

  /** Every row has one count per class; the count for class `i` is the number of
      documents labelled `classes[i]` that contain the word (once per document,
      however often it is repeated there) and is at most the number of documents
      labelled `classes[i]`. */
  lemma FreqTableCounts(d: Dataset, w: string, i: nat)
    requires WellFormed(d)
    requires w in FreqTable(d) && i < |d.classes|
    ensures |FreqTable(d)[w]| == |d.classes|
    ensures FreqTable(d)[w][i] == |DocsWith(TokenSets(d.objects), d.labels, w, d.classes[i])|
    ensures FreqTable(d)[w][i] <= Count(d.labels, d.classes[i])
  {
    var docs := TokenSets(d.objects);
    CountIsDocuments(docs, d.labels, w, d.classes[i]);
    CountAtMostClassSize(docs, d.labels, w, d.classes[i]);
  }

  /** A row sums to the number of documents containing the word, which is at least one. */
  lemma FreqTableRowSum(d: Dataset, w: string)
    requires WellFormed(d)
    requires w in FreqTable(d)
    ensures SumN(FreqTable(d)[w]) == |DocsContaining(TokenSets(d.objects), w)|
    ensures SumN(FreqTable(d)[w]) >= 1
  {
    var docs := TokenSets(d.objects);
    var ls := LabelsWith(docs, d.labels, w);
    LabelsWithAreLabels(docs, d.labels, w);
    forall j | 0 <= j < |ls| ensures ls[j] in d.classes {
      assert ls[j] in ls;
    }
    SumOfClassCounts(ls, d.classes);
    LabelsAreDocuments(docs, d.labels, w);
    LabelsWithEmpty(docs, d.labels, w);
  }
}
