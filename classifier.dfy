/**
 The spam filter object: two word-count tables and two message counters that
 `Train` updates in place, and the evidence sum of the score computed from them.
 */
module Classifier {
  import opened Words
  import opened Training

  class SpamFilter {
    var spamWordCounts: Table
    var hamWordCounts: Table
    var spamMessageCount: nat
    var hamMessageCount: nat

    /** The filter's fields, as a value. */
    function State(): Counts
      reads this
    {
      Counts(spamWordCounts, hamWordCounts, spamMessageCount, hamMessageCount)
    }

    /** The object invariant: no table holds a word with the count 0. */
    ghost predicate Valid()
      reads this
    {
      Consistent(State())
    }

    /** `SpamFilter::new`: empty tables and zero counters. */
    constructor ()
      ensures Valid()
      ensures State() == Untrained
    {
      spamWordCounts := map[];
      hamWordCounts := map[];
      spamMessageCount := 0;
      hamMessageCount := 0;
    }

    /**
     `SpamFilter::train`: counts every token of `message` in the table of its
     class, then counts the message itself.
     */
    method Train(message: string, isSpam: bool)
      requires Valid()
      modifies this
      ensures Valid()
      ensures State() == Trained(old(State()), message, isSpam)
    {
      ghost var before := State();
      var words := Tokens(message);
      for i := 0 to |words|
        invariant spamMessageCount == before.spamMessages && hamMessageCount == before.hamMessages
        invariant isSpam ==> spamWordCounts == AddTokens(before.spamWords, words[..i]) && hamWordCounts == before.hamWords
        invariant !isSpam ==> hamWordCounts == AddTokens(before.hamWords, words[..i]) && spamWordCounts == before.spamWords
      {
        var word := words[i];
        if isSpam {
          AddTokensPrefixStep(before.spamWords, words, i);
          spamWordCounts := spamWordCounts[word := Get(spamWordCounts, word) + 1];
        } else {
          AddTokensPrefixStep(before.hamWords, words, i);
          hamWordCounts := hamWordCounts[word := Get(hamWordCounts, word) + 1];
        }
      }
      assert words[..|words|] == words;
      if isSpam {
        spamMessageCount := spamMessageCount + 1;
      } else {
        hamMessageCount := hamMessageCount + 1;
      }
      assert State() == Trained(before, message, isSpam);
      TrainedGrows(before, message, isSpam);
    }
  }

  /** What one word adds to a class's score: its smoothed frequency, or nothing if unseen. */
  function Weight(wordCounts: Table, messageCount: nat, word: string): real
  {
    if word in wordCounts then (wordCounts[word] + 1) as real / (messageCount + 2) as real else 0.0
  }

  /** The sum of the weights of `words`, in order. */
  function Evidence(words: seq<string>, wordCounts: Table, messageCount: nat): real
    decreases |words|
  {
    if words == [] then 0.0
    else Evidence(words[..|words| - 1], wordCounts, messageCount) + Weight(wordCounts, messageCount, words[|words| - 1])
  }

  /**
   The loop of `calculate_probability`: starting from the logarithm of the
   class's prior, adds the weight of each word found in the class's table.
   */
  method CalculateProbability(words: seq<string>, wordCounts: Table, messageCount: nat, logPrior: real)
    returns (probability: real)
    ensures probability == logPrior + Evidence(words, wordCounts, messageCount)
  {
    probability := logPrior;
    for i := 0 to |words|
      invariant probability == logPrior + Evidence(words[..i], wordCounts, messageCount)
    {
      var word := words[i];
      assert words[..i + 1][..i] == words[..i];
      if word in wordCounts {
        probability := probability + (wordCounts[word] + 1) as real / (messageCount + 2) as real;
      }
    }
    assert words[..|words|] == words;
  }

  /** The evidence of two lists of words put together is the sum of their evidence. */
  lemma {:induction false} EvidenceAppend(a: seq<string>, b: seq<string>, wordCounts: Table, messageCount: nat)
    ensures Evidence(a + b, wordCounts, messageCount)
      == Evidence(a, wordCounts, messageCount) + Evidence(b, wordCounts, messageCount)
    decreases |b|
  {
    if b == [] {
      assert a + b == a;
    } else {
      var init := b[..|b| - 1];
      assert (a + b)[..|a + b| - 1] == a + init;
      assert (a + b)[|a + b| - 1] == b[|b| - 1];
      EvidenceAppend(a, init, wordCounts, messageCount);
    }
  }

  /** A word absent from the table contributes nothing, wherever it stands. */
  lemma EvidenceUnseen(a: seq<string>, word: string, b: seq<string>, wordCounts: Table, messageCount: nat)
    requires word !in wordCounts
    ensures Evidence(a + [word] + b, wordCounts, messageCount) == Evidence(a + b, wordCounts, messageCount)
  {
    EvidenceAppend(a + [word], b, wordCounts, messageCount);
    EvidenceAppend(a, b, wordCounts, messageCount);
    assert (a + [word])[..|a|] == a;
  }

  /** A class that has seen no word gets no evidence from any message. */
  lemma {:induction false} EvidenceOfEmptyTable(words: seq<string>, messageCount: nat)
    ensures Evidence(words, map[], messageCount) == 0.0
    decreases |words|
  {
    if words != [] {
      EvidenceOfEmptyTable(words[..|words| - 1], messageCount);
    }
  }

  /** A word present in the table raises the evidence, by a positive amount. */
  lemma EvidenceSeen(words: seq<string>, word: string, wordCounts: Table, messageCount: nat)
    requires word in wordCounts
    ensures Evidence(words + [word], wordCounts, messageCount) > Evidence(words, wordCounts, messageCount)
  {
    assert (words + [word])[..|words|] == words;
  }
}
