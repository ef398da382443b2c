/**
 The statistics a spam filter accumulates while it is trained, as values: a
 word-count table per class, a message counter per class, and what one training
 call and a whole series of them make of these.
 */
module Training {
  import opened Words

  /** A word-frequency table; a word that is not a key counts as 0. */
  type Table = map<string, nat>

  function Get(t: Table, w: string): nat
  {
    if w in t then t[w] else 0
  }

  /** Every key was entered by an occurrence, so none has the count 0. */
  predicate AllPositive(t: Table)
  {
    0 !in t.Values
  }

  /** `u` keeps every key of `t`, with a count at least as large. */
  predicate Extends(t: Table, u: Table)
  {
    t.Keys <= u.Keys && forall w :: w in t ==> t[w] <= u[w]
  }

  /**
   The table after `*table.entry(word).or_insert(0) += 1` for each of `words` in
   turn: the words gain keys, and nothing else does.
   */
  function AddTokens(t: Table, words: seq<string>): Table
    decreases |words|
  {
    if words == [] then t
    else
      var prev := AddTokens(t, words[..|words| - 1]);
      var w := words[|words| - 1];
      prev[w := Get(prev, w) + 1]
  }

  /** The keys after counting are the old keys and the counted words, nothing else. */
  lemma {:induction false} AddTokensKeys(t: Table, words: seq<string>)
    ensures AddTokens(t, words).Keys == t.Keys + set w | w in words
    decreases |words|
  {
    if words != [] {
      var init := words[..|words| - 1];
      assert words == init + [words[|words| - 1]];
      AddTokensKeys(t, init);
    }
  }

  /** One more word of a list counted: the step of the counting loop. */
  lemma AddTokensPrefixStep(t: Table, words: seq<string>, i: nat)
    requires i < |words|
    ensures AddTokens(t, words[..i + 1])
      == AddTokens(t, words[..i])[words[i] := Get(AddTokens(t, words[..i]), words[i]) + 1]
  {
    assert words[..i + 1][..i] == words[..i];
  }

  /** Each word's count grows by its number of occurrences in `words`. */
  lemma {:induction false} AddTokensCount(t: Table, words: seq<string>, w: string)
    ensures Get(AddTokens(t, words), w) == Get(t, w) + multiset(words)[w]
    decreases |words|
  {
    if words != [] {
      var init := words[..|words| - 1];
      assert words == init + [words[|words| - 1]];
      AddTokensCount(t, init, w);
    }
  }

  /** Counting tokens never removes a key or lowers a count, and creates no zero entry. */
  lemma AddTokensExtends(t: Table, words: seq<string>)
    ensures Extends(t, AddTokens(t, words))
    ensures AllPositive(t) ==> AllPositive(AddTokens(t, words))
  {
    var r := AddTokens(t, words);
    AddTokensKeys(t, words);
    forall w | w in t ensures t[w] <= r[w] {
      AddTokensCount(t, words, w);
    }
    if AllPositive(t) {
      forall w | w in r ensures r[w] != 0 {
        AddTokensCount(t, words, w);
        if w in t {
          assert t[w] in t.Values;
        } else {
          assert w in multiset(words);
        }
      }
    }
  }

  /** Counting two lists of words one after the other counts their concatenation. */
  lemma {:induction false} AddTokensAppend(t: Table, a: seq<string>, b: seq<string>)
    ensures AddTokens(t, a + b) == AddTokens(AddTokens(t, a), b)
    decreases |b|
  {
    if b == [] {
      assert a + b == a;
    } else {
      var init, w := b[..|b| - 1], b[|b| - 1];
      assert (a + b)[..|a + b| - 1] == a + init;
      assert (a + b)[|a + b| - 1] == w;
      AddTokensAppend(t, a, init);
      var prev := AddTokens(t, a + init);
      assert AddTokens(t, a + b) == prev[w := Get(prev, w) + 1];
      assert AddTokens(AddTokens(t, a), b) == prev[w := Get(prev, w) + 1];
    }
  }

  /** The order of the words is irrelevant: only how often each occurs matters. */
  lemma AddTokensPermutation(t: Table, a: seq<string>, b: seq<string>)
    requires multiset(a) == multiset(b)
    ensures AddTokens(t, a) == AddTokens(t, b)
  {
    var ra, rb := AddTokens(t, a), AddTokens(t, b);
    AddTokensKeys(t, a);
    AddTokensKeys(t, b);
    assert (set w | w in a) == (set w | w in b) by {
      forall w ensures w in a <==> w in b {
        assert w in a <==> w in multiset(a);
        assert w in b <==> w in multiset(b);
      }
    }
    forall w | w in ra ensures ra[w] == rb[w] {
      AddTokensCount(t, a, w);
      AddTokensCount(t, b, w);
    }
  }

  /** A training example: a message and its class. */
  datatype Example = Example(message: string, isSpam: bool)

  /** The state of a spam filter, as a value. */
  datatype Counts = Counts(spamWords: Table, hamWords: Table, spamMessages: nat, hamMessages: nat)

  /** The state of a new filter: empty tables and zero counters. */
  const Untrained: Counts := Counts(map[], map[], 0, 0)

  /** No key of either table has the count 0. */
  predicate Consistent(c: Counts)
  {
    AllPositive(c.spamWords) && AllPositive(c.hamWords)
  }

  /** Neither table loses a key or a count, and neither counter goes down. */
  predicate Grows(c: Counts, d: Counts)
  {
    Extends(c.spamWords, d.spamWords) && Extends(c.hamWords, d.hamWords)
    && c.spamMessages <= d.spamMessages && c.hamMessages <= d.hamMessages
  }

  /** The state after one call of `train(message, isSpam)`. */
  function Trained(c: Counts, message: string, isSpam: bool): Counts
  {
    var words := Tokens(message);
    if isSpam then
      c.(spamWords := AddTokens(c.spamWords, words), spamMessages := c.spamMessages + 1)
    else
      c.(hamWords := AddTokens(c.hamWords, words), hamMessages := c.hamMessages + 1)
  }

  /**
   One training call: the chosen class's table gains exactly the occurrences of
   each word among the message's tokens, its counter gains exactly 1, and the
   other class's table and counter are left as they were.
   */
  lemma TrainedCounts(c: Counts, message: string, isSpam: bool, w: string)
    ensures var d := Trained(c, message, isSpam);
      && Get(d.spamWords, w) == Get(c.spamWords, w) + (if isSpam then multiset(Tokens(message))[w] else 0)
      && Get(d.hamWords, w) == Get(c.hamWords, w) + (if isSpam then 0 else multiset(Tokens(message))[w])
      && d.spamMessages == c.spamMessages + (if isSpam then 1 else 0)
      && d.hamMessages == c.hamMessages + (if isSpam then 0 else 1)
      && (isSpam ==> d.hamWords == c.hamWords)
      && (!isSpam ==> d.spamWords == c.spamWords)
  {
    AddTokensCount(if isSpam then c.spamWords else c.hamWords, Tokens(message), w);
  }

  /** An empty or all-whitespace message changes no table, only its class's counter. */
  lemma TrainedBlank(c: Counts, message: string, isSpam: bool)
    requires IsBlank(message)
    ensures Trained(c, message, isSpam)
      == if isSpam then c.(spamMessages := c.spamMessages + 1) else c.(hamMessages := c.hamMessages + 1)
  {
    TokensOfBlank(message);
  }

  /** Training only ever adds: it keeps every key, count and counter, and no zero entry appears. */
  lemma TrainedGrows(c: Counts, message: string, isSpam: bool)
    ensures Grows(c, Trained(c, message, isSpam))
    ensures Consistent(c) ==> Consistent(Trained(c, message, isSpam))
  {
    AddTokensExtends(c.spamWords, Tokens(message));
    AddTokensExtends(c.hamWords, Tokens(message));
  }

  /** Two training calls give the same state in either order. */
  lemma TrainedCommute(c: Counts, m1: string, s1: bool, m2: string, s2: bool)
    ensures Trained(Trained(c, m1, s1), m2, s2) == Trained(Trained(c, m2, s2), m1, s1)
  {
    var t1, t2 := Tokens(m1), Tokens(m2);
    if s1 == s2 {
      var t := if s1 then c.spamWords else c.hamWords;
      AddTokensAppend(t, t1, t2);
      AddTokensAppend(t, t2, t1);
      AddTokensPermutation(t, t1 + t2, t2 + t1);
    }
  }

  /** The state after `train` has been called on each example in turn. */
  function TrainAll(c: Counts, examples: seq<Example>): Counts
    decreases |examples|
  {
    if examples == [] then c
    else
      var e := examples[|examples| - 1];
      Trained(TrainAll(c, examples[..|examples| - 1]), e.message, e.isSpam)
  }

  /** The tokens of the examples of one class, in training order. */
  function ClassTokens(examples: seq<Example>, isSpam: bool): seq<string>
    decreases |examples|
  {
    if examples == [] then []
    else
      var e := examples[|examples| - 1];
      ClassTokens(examples[..|examples| - 1], isSpam) + (if e.isSpam == isSpam then Tokens(e.message) else [])
  }

  /** How many of the examples are of the given class. */
  function ClassCount(examples: seq<Example>, isSpam: bool): nat
    decreases |examples|
  {
    if examples == [] then 0
    else
      var e := examples[|examples| - 1];
      ClassCount(examples[..|examples| - 1], isSpam) + (if e.isSpam == isSpam then 1 else 0)
  }

  /** Every example is of exactly one class. */
  lemma {:induction false} ClassCountTotal(examples: seq<Example>)
    ensures ClassCount(examples, true) + ClassCount(examples, false) == |examples|
    decreases |examples|
  {
    if examples != [] {
      ClassCountTotal(examples[..|examples| - 1]);
    }
  }

  /**
   A series of training calls, in any interleaving of the classes, amounts to
   counting all the tokens of each class's messages at once, and to adding the
   number of each class's messages to its counter.
   */
  lemma {:induction false} TrainAllSums(c: Counts, examples: seq<Example>)
    ensures TrainAll(c, examples).spamWords == AddTokens(c.spamWords, ClassTokens(examples, true))
    ensures TrainAll(c, examples).hamWords == AddTokens(c.hamWords, ClassTokens(examples, false))
    ensures TrainAll(c, examples).spamMessages == c.spamMessages + ClassCount(examples, true)
    ensures TrainAll(c, examples).hamMessages == c.hamMessages + ClassCount(examples, false)
    decreases |examples|
  {
    if examples != [] {
      var init := examples[..|examples| - 1];
      var e := examples[|examples| - 1];
      TrainAllSums(c, init);
      AddTokensAppend(c.spamWords, ClassTokens(init, true), if e.isSpam then Tokens(e.message) else []);
      AddTokensAppend(c.hamWords, ClassTokens(init, false), if e.isSpam then [] else Tokens(e.message));
    }
  }

  /**
   From a new filter: each count is the number of occurrences of the word in
   all messages trained for that class, each counter the number of calls for
   that class, the counters add up to the number of calls, and no key has the
   count 0.
   */
  lemma TrainAllFromUntrained(examples: seq<Example>, w: string)
    ensures var d := TrainAll(Untrained, examples);
      && Get(d.spamWords, w) == multiset(ClassTokens(examples, true))[w]
      && Get(d.hamWords, w) == multiset(ClassTokens(examples, false))[w]
      && d.spamMessages == ClassCount(examples, true)
      && d.hamMessages == ClassCount(examples, false)
      && d.spamMessages + d.hamMessages == |examples|
      && Consistent(d)
  {
    TrainAllSums(Untrained, examples);
    AddTokensCount(map[], ClassTokens(examples, true), w);
    AddTokensCount(map[], ClassTokens(examples, false), w);
    AddTokensExtends(map[], ClassTokens(examples, true));
    AddTokensExtends(map[], ClassTokens(examples, false));
    ClassCountTotal(examples);
  }

  /** A series of training calls only ever adds. */
  lemma {:induction false} TrainAllGrows(c: Counts, examples: seq<Example>)
    ensures Grows(c, TrainAll(c, examples))
    ensures Consistent(c) ==> Consistent(TrainAll(c, examples))
  {
    TrainAllSums(c, examples);
    AddTokensExtends(c.spamWords, ClassTokens(examples, true));
    AddTokensExtends(c.hamWords, ClassTokens(examples, false));
  }

  /** Training "a b" as spam on a new filter counts each word once. */
  lemma TrainedExample()
    ensures Trained(Untrained, "a b", true) == Counts(map["a" := 1, "b" := 1], map[], 1, 0)
  {
    assert "a b" == "a" + [' '] + "b";
    TokensSplit("a", ' ', "b");
    TokensOfWord("a");
    TokensOfWord("b");
    assert Tokens("a b") == ["a", "b"];
    assert ["a", "b"][..1] == ["a"] && ["a"][..0] == [];
    assert AddTokens(map[], ["a"]) == map["a" := 1];
  }
}
