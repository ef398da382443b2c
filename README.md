# bayes_spam_ml — a Dafny model of the spam filter's training state

`bayes_spam_ml` is a small command-line spam classifier. A `SpamFilter` keeps
one word-count table and one message counter for each class, spam and ham.
`train(message, is_spam)` splits the message on whitespace. It adds 1 to the
count of every token in the table of the message's class, then adds 1 to that
class's message counter. The CLI trains the filter from a file, one line per
message. A line ending in `1` is spam. The message is the line with its
trailing `"01"` markers removed and its surrounding whitespace trimmed.

This project models that training state and the two string rules it depends
on. The modules are:

- `Words` (`words.dfy`): the whitespace predicate (Unicode White_Space, as
  Rust's `char::is_whitespace` tests it), `split_whitespace` as `Tokens`, and
  `trim` as `Trim`.
- `Training` (`training.dfy`): the filter's state as a value (`Counts`). It
  defines one training call (`Trained`) and a series of calls (`TrainAll`), with
  the lemmas about them: exact counts, only-growing tables and counters, no
  zero entries, and independence from the order of calls and of tokens.
- `Classifier` (`classifier.dfy`): the `SpamFilter` class, whose `Train`
  method updates the four fields in place in a loop over the tokens. It also
  holds the word loop of `calculate_probability` and its evidence sum.
- `Corpus` (`corpus.dfy`): the label rule for a training line (`ParseLine`)
  and the loop that trains a filter on a corpus line by line (`TrainCorpus`).

The label rule follows the code, which departs from the comment at
src/main.rs:98. That comment says the last character of a line is its label,
`0` for ham and `1` for spam. The code tests only whether the line ends with
`1`, and it strips only the two-character marker `"01"`, repeatedly. So a lone
label `0` or `1` stays in the message: `"buy now 11"` is spam with message
`"buy now 11"`, and `"hello 0"` is ham with message `"hello 0"`. The lemmas
`ParseLoneSpamLabel` and `ParseHamLabel` state this.

## Model

| member | source | states |
|---|---|---|
| `Words.IsWhitespace` | src/main.rs:22 | `char::is_whitespace`: the 25 code points with the Unicode White_Space property, the separators of `split_whitespace` and the characters `trim` removes |
| `Words.WordLength` | src/main.rs:22 | the leading run of non-whitespace is maximal: every character before it is not whitespace, the one after it is |
| `Words.Tokens` | src/main.rs:22 | `split_whitespace`: the maximal runs of non-whitespace, in order; pinned down by `TokensSplit`, `TokensOfWord` and `TokensOfBlank`, and compared with `NonWhitespace` by `TokensConcat` |
| `Words.TokensAreWords` | src/main.rs:22 | every token of `split_whitespace` is non-empty and contains no whitespace |
| `Words.TokensConcat` | src/main.rs:22 | the tokens, in order and put end to end, are exactly the non-whitespace characters of the message: nothing is normalised, dropped or reordered |
| `Words.TokensOfWordThen` | src/main.rs:22 | a word followed by whitespace, or by nothing, is the first token, and the tokens after it are those of the rest |
| `Words.TokensSplit` | src/main.rs:22 | a whitespace character separates: tokens of `a + [c] + b` are the tokens of `a` followed by those of `b` |
| `Words.TokensOfWord` | src/main.rs:22 | a word without whitespace is one token, unchanged (so "watches" and "watches!" are different tokens) |
| `Words.TokensOfBlank` | src/main.rs:22-24 | a message has no tokens if and only if it is empty or all whitespace |
| `Words.BlankPrefixTokens` | src/main.rs:22 | leading whitespace does not change the tokens |
| `Words.BlankSuffixTokens` | src/main.rs:22 | trailing whitespace does not change the tokens |
| `Words.TrimStart` | src/main.rs:100 | the result is a suffix of the input that does not start with whitespace |
| `Words.TrimStartDropsBlank` | src/main.rs:100 | the part `TrimStart` drops is all whitespace, so the suffix it keeps is the longest one allowed |
| `Words.TrimEnd` | src/main.rs:100 | the result is a prefix of the input that does not end with whitespace |
| `Words.TrimEndDropsBlank` | src/main.rs:100 | the part `TrimEnd` drops is all whitespace, so the prefix it keeps is the longest one allowed |
| `Words.Trim` | src/main.rs:100 | the result neither starts nor ends with whitespace |
| `Words.TrimSlice` | src/main.rs:100 | the trimmed string is one contiguous piece of the input, with only whitespace removed before and after it |
| `Words.TrimKeepsLast` | src/main.rs:100 | a string ending in a non-whitespace character keeps that character last after trimming |
| `Words.TokensOfTrim` | src/main.rs:100-102 | trimming a message never changes its tokens |
| `Training.AddTokens` | src/main.rs:24-31 | the counting loop: each token in turn gets `entry(word).or_insert(0)` and `+= 1`; its effect is stated by `AddTokensCount`, `AddTokensKeys` and `AddTokensExtends` |
| `Training.AddTokensCount` | src/main.rs:24-31 | after the counting loop, each word's count is its old count (0 if absent) plus its number of occurrences among the tokens |
| `Training.AddTokensKeys` | src/main.rs:25-29 | `entry(..).or_insert(0)` adds exactly the counted words as keys; no key is removed |
| `Training.AddTokensExtends` | src/main.rs:26-30 | counting never lowers a count or removes a key, and never leaves a key at 0 |
| `Training.AddTokensAppend` | src/main.rs:24-31 | counting two token lists in turn equals counting their concatenation |
| `Training.AddTokensPermutation` | src/main.rs:24-31 | the resulting table depends only on how often each token occurs, not on token order |
| `Training.Trained` | src/main.rs:21-38 | one `train` call as a value: the tokens counted in the table of the message's class, then that class's counter plus 1; its effect is stated by `TrainedCounts`, `TrainedBlank` and `TrainedGrows` |
| `Training.TrainedCounts` | src/main.rs:21-38 | one call adds each token's occurrences to the chosen table and exactly 1 to the chosen counter; the other table and counter are untouched |
| `Training.TrainedBlank` | src/main.rs:22-37 | an empty or whitespace-only message leaves both tables unchanged and only increments the chosen counter |
| `Training.TrainedGrows` | src/main.rs:26-37 | one call never lowers a count or counter, never removes a key, and keeps every count at least 1 |
| `Training.TrainedCommute` | src/main.rs:21-38 | two training calls give the same state in either order |
| `Training.TrainAll` | src/main.rs:97-103 | a series of `train` calls, one per example, in order; its effect is stated by `TrainAllSums` and `TrainAllFromUntrained` |
| `Training.ClassCountTotal` | src/main.rs:33-37 | every training call is counted in exactly one class |
| `Training.TrainAllSums` | src/main.rs:21-38 | any series of calls adds to each table the tokens of all that class's messages, and to each counter the number of that class's calls |
| `Training.TrainAllFromUntrained` | src/main.rs:12-37 | from a new filter, each count is the number of occurrences of the word across that class's messages, each counter the number of that class's calls, and the counters sum to the number of calls |
| `Training.TrainAllGrows` | src/main.rs:26-37 | any series of calls never lowers a count or counter and keeps every count at least 1 |
| `Training.TrainedExample` | src/main.rs:21-38 | training "a b" as spam on a new filter gives the spam table {a: 1, b: 1}, spam counter 1, and leaves the ham state empty |
| `Classifier.SpamFilter.constructor` | src/main.rs:12-19 | a new filter has empty tables and zero counters |
| `Classifier.SpamFilter.Train` | src/main.rs:21-38 | the new fields are `Trained` of the old ones (the loop counts each token in the chosen table, then the chosen counter gains 1), and the object invariant (no word stored with count 0) is kept; `TrainedGrows` then says nothing decreases |
| `Classifier.Weight` | src/main.rs:61-62 | what one word adds to a class's score: `(count + 1) / (message_count + 2)` when the word is in the table, nothing otherwise |
| `Classifier.Evidence` | src/main.rs:60-64 | the sum of the weights of the words, in order; stated by `EvidenceAppend`, `EvidenceUnseen`, `EvidenceOfEmptyTable` and `EvidenceSeen` |
| `Classifier.CalculateProbability` | src/main.rs:58-66 | the result is the log prior plus the evidence sum of the words over the class's table |
| `Classifier.EvidenceAppend` | src/main.rs:60-64 | the evidence of two word lists put together is the sum of their evidence |
| `Classifier.EvidenceUnseen` | src/main.rs:61-63 | a word absent from the table contributes nothing, wherever it stands |
| `Classifier.EvidenceOfEmptyTable` | src/main.rs:60-64 | with an empty table the evidence of any message is 0 |
| `Classifier.EvidenceSeen` | src/main.rs:61-63 | a word present in the table raises the evidence by a positive amount |
| `Corpus.EndsWithChar` | src/main.rs:99 | `line.ends_with("1")` for a one-character pattern: the line is non-empty and its last character is the given one |
| `Corpus.StripLabel` | src/main.rs:100 | `trim_end_matches("01")` leaves a prefix of the line that no longer ends with "01" |
| `Corpus.StripLabelRepeats` | src/main.rs:100 | the part removed is a whole number of "01" markers |
| `Corpus.ParseLine` | src/main.rs:99-100 | the line is spam if and only if it ends with '1'; the message has no surrounding whitespace |
| `Corpus.ParseLineTokens` | src/main.rs:100-102 | the message trained has the same tokens as the line with its "01" markers removed |
| `Corpus.ParseLineSubstring` | src/main.rs:99-100 | the message is a contiguous piece of the line |
| `Corpus.ParseMarkedSpam` | src/main.rs:99-100 | a line `body + " 01"` is spam with message `Trim(body)` |
| `Corpus.ParseLoneSpamLabel` | src/main.rs:99-100 | a line ending in '1' but not in "01" is spam and its message still ends with that '1' |
| `Corpus.ParseHamLabel` | src/main.rs:99-100 | a line ending in '0' is ham and its message still ends with that '0' |
| `Corpus.ParseLines` | src/main.rs:97-100 | one example per line, each the parse of its line |
| `Corpus.TrainCorpus` | src/main.rs:97-103 | after the loop the filter's state is `TrainAll` of its old state over the parsed lines, in order |

## Left out

- `SpamFilter::predict` (src/main.rs:40-48) is not modelled. It compares two `f64` scores, and on an untrained filter both scores are NaN, which makes the comparison false. Neither floating-point values nor NaN are modelled.
- `CalculateProbability`: the prior's `f64` division and its `ln` (src/main.rs:56-58) are not modelled. The method takes the logarithm of the prior as the parameter `logPrior`. Its sum is computed in exact `real` arithmetic, not with `f64` rounding.
- `usize` overflow of the counts and counters (`+= 1`, src/main.rs:30, 34, 36) is not modelled; they are unbounded `nat`s.
- `HashMap` internals (hashing, iteration order) are not modelled; the tables are Dafny `map<string, nat>`.
- The CLI in `main` (src/main.rs:70-96 and 104-124) is not modelled: `clap` argument parsing, reading the file, and the printed messages. `TrainCorpus` takes the corpus as a sequence of lines already split, so `str::lines` is not modelled either.
