# PubMedQualifierDummy in Dafny

A model of the baseline ("dummy") MeSH qualifier predictor and its scorer.
The predictor works in four steps:

1. It keeps only the fetched MEDLINE rows whose qualifier is one of the critical qualifiers.
2. It splits them into a training part and a testing part.
3. For every (journal, descriptor, qualifier) it counts how often the qualifier occurs against how often the descriptor occurs.
4. It turns each frequency into a single Bernoulli draw, which gives a 0/1 probability table.

The scorer builds two vectors per testing record:

- y_true, a one-hot vector at the record's qualifier;
- y_pred, the table's values for each critical qualifier.

It turns each pair into F1, precision and recall.

Modules:

- `Wrappers`: `Option` and `Result`.
- `Records`: the entities.
  - the fetched `Entry`;
  - the five-field `Record5` and a `Row` of either arity;
  - the testing `TestRecord`;
  - the nested dictionaries as nested `map`s;
  - the `ProbabilityTable` handed to the scorer;
  - the `Error`s the source raises.
- `Counting`: the specification of the counting pass.
  - occurrence counts over a sequence of entries, journal-agnostic and per journal;
  - the predicates `Counted2`/`Counted3` that relate the counter dictionaries to those counts;
  - the predicates `IsDescriptorTable`/`IsJournalTable` that say what a finished probability table is;
  - the lemmas about all of these.
- `Data` (`dummy/data.py`):
  - the critical-qualifier filter and the ratio split, as functions;
  - the two counting loops and the two drawing loops, as methods over `map` state, each proved against the `Counting` predicates;
  - the three dataset builders.
- `Score` (`dummy/score.py`):
  - `score`, a method over two arrays proved against `ScoreOf`;
  - `calculate_score`, a method that allocates and fills the arrays per record, proved against `ExpectedScores`.

Several behaviours of the code are modelled as written:

- **Training is always journal-aware.**
  - `make_training_dataset` calls `make_probabilities_with_journals` whatever the caller wants (`MakeTrainingDataset`).
  - A table built that way is only read by the scorer when `use_journals` is set. Otherwise every lookup misses (`Lookup`).
- **The two unpacks disagree.**
  - The fetched rows have four fields, but `make_testing_dataset` unpacks five.
  - So a split of fetched rows with a non-empty testing part fails with an unpacking error (`FetchedRowsCannotBeSplit`).
- **Precision is not bounded by 1.**
  - `score` counts every position where the two vectors agree, including agreeing zeros.
  - So precision is not bounded by 1. It is about n for a perfect prediction of length n (`PerfectPredictionPrecision`) and 10^7·(n − 1) for an all-zero one (`ScoreOfZeroPrediction`).

The draw `np.random.binomial(1, count / total)` is a parameter `draw: (nat, nat) -> nat`:

- it receives the numerator and the denominator of the frequency;
- the properties about outcomes assume only `IsBernoulliOracle`: the outcome is in {0, 1}, always 1 at frequency 1 and always 0 at frequency 0.

## Model

| member | source | states |
|---|---|---|
| Data.FilterCritical | dummy/data.py:34-37 | the kept rows all carry a critical qualifier and are no more than the fetched rows |
| Data.FilterCriticalMultiplicity | dummy/data.py:35-37 | every row with a critical qualifier is kept as often as it was fetched, every other row is dropped |
| Data.FilterCriticalAppend | dummy/data.py:35-37 | the filter keeps the order: filtering a concatenation concatenates the filtered parts |
| Data.Truncate | dummy/data.py:48 | `int()` of a real truncates toward zero, for positive and negative values |
| Data.SliceBound | dummy/data.py:48-49 | a Python slice bound within range is kept, a negative one counts from the end, one past the end becomes the length and one before the start becomes 0 |
| Data.SplitIndex | dummy/data.py:48-49 | the split point never exceeds the number of rows |
| Data.Split | dummy/data.py:48-49 | the training and testing parts concatenate to the input, and the training part has the split-point length |
| Data.SplitIndexIsFloor | dummy/data.py:48 | for a ratio in [0, 1] the split point is the floor of ratio times length |
| Data.UnpackEntries | dummy/data.py:70 | unpacking into four fields succeeds iff every row has four fields, keeps them in order, and fails with a 4-versus-5 error otherwise |
| Data.UnpackRecords | dummy/data.py:125 | unpacking into five fields succeeds iff every row has five fields, keeps them in order, and fails with a 5-versus-4 error otherwise |
| Data.FetchedRowsCannotBeSplit | dummy/data.py:47-49 | fetched (four-field) rows with a non-empty testing part pass the training unpack and make the testing unpack fail |
| Data.Tally | dummy/data.py:102-113 | one counting step: the pair's counter and the descriptor's total go up by one (created at 1 when absent), nothing else changes |
| Data.TallyKeepsCounted | dummy/data.py:101-113 | one counting step keeps the counters equal to the occurrence counts of the entries seen so far |
| Data.TallyEntry | dummy/data.py:101-113 | the journal-agnostic loop body takes counters of a prefix to counters of the prefix extended by one entry |
| Data.CountWithoutJournals | dummy/data.py:98-113 | after the first loop the counters hold exactly the occurrence counts of the entries, keyed only where positive, with no empty inner dictionary |
| Data.JournalTallyKeepsCounted | dummy/data.py:70-85 | one journal-aware step keeps every journal's counters equal to the counts of that journal's entries |
| Data.JournalTallyKeepsEveryJournal | dummy/data.py:70-85 | after one journal-aware step every journal's counters equal the counts of that journal's entries |
| Data.JournalTallyKeepsCountedAt | dummy/data.py:70-85 | the journal of the entry gets one more count while every other journal's counters are untouched |
| Data.TallyJournal | dummy/data.py:71-85 | the journal-aware loop body takes counters of a prefix to counters of the prefix extended by one entry |
| Data.CountWithJournals | dummy/data.py:67-85 | after the first loop the nested counters hold exactly the per-journal occurrence counts |
| Data.DrawQualifiers | dummy/data.py:116-119 | a descriptor's row of the table has the same qualifiers as its counters, each with the draw for count / total |
| Data.DrawWithoutJournals | dummy/data.py:114-119 | the journal-agnostic table has exactly the counted pairs, each with the draw for its frequency, and no empty row |
| Data.DrawJournal | dummy/data.py:87-94 | one outer iteration adds exactly journal j's counted triples, each with its draw, to the journals already drawn |
| Data.DrawWithJournals | dummy/data.py:86-94 | the journal-aware table has exactly the counted triples, each with the draw for its frequency, and no empty dictionary |
| Data.MakeProbabilitiesWithoutJournals | dummy/data.py:98-120 | the result is the journal-agnostic probability table of the entries |
| Data.MakeProbabilitiesWithJournals | dummy/data.py:67-95 | the result is the journal-aware probability table of the entries |
| Data.MakeTrainingDataset | dummy/data.py:63-64 | the training dataset is always the journal-aware table |
| Data.MakeTestingDataset | dummy/data.py:123-127 | one (descriptor, qualifier, journal) record per input row, in order |
| Data.MakeDatasets | dummy/data.py:47-60 | succeeds iff both unpacks succeed, reports the training error first, and on success returns the journal-aware table of the training part and the projected testing part |
| Counting.CountDQ | dummy/data.py:101-108 | a (descriptor, qualifier) count never exceeds its descriptor's count |
| Counting.CountD | dummy/data.py:110-113 | a descriptor count never exceeds the number of entries |
| Counting.OfJournal | dummy/data.py:71-72 | the entries of one journal are exactly the entries carrying that journal |
| Counting.Frequency | dummy/data.py:119 | count / total is a probability, equal to 1 iff count is total and 0 iff count is 0 |
| Counting.CountsAppend | dummy/data.py:101-113 | one more entry adds one to exactly its own pair count and its own descriptor count |
| Counting.OfJournalAppend | dummy/data.py:70-72 | one more entry extends only its own journal's entries |
| Counting.JournalCountsAppend | dummy/data.py:70-85 | one more entry adds one to exactly its own triple count and its own (journal, descriptor) count |
| Counting.CountPositiveIffOccurs | dummy/data.py:102-108 | a pair count is positive iff some entry carries that pair |
| Counting.JournalCountPositiveIffOccurs | dummy/data.py:71-79 | a triple count is positive iff some entry carries that triple |
| Counting.OnlyQualifierFillsTotal | dummy/data.py:101-113 | when every entry of a descriptor has the same qualifier, that pair's count equals the descriptor's count |
| Counting.TotalIsSumOverQualifiers | dummy/data.py:101-113 | a descriptor's count is the sum of its pair counts over all the qualifiers it occurs with |
| Counting.JournalCountsRefineDescriptorCounts | dummy/data.py:70-85 | summed over all journals, the journal-aware counts give the journal-agnostic counts |
| Counting.JournalCountBelowDescriptorCount | dummy/data.py:70-85 | a per-journal count never exceeds the journal-agnostic count |
| Counting.CountersMatchEntries | dummy/data.py:101-113 | counted dictionaries hold a key iff its count is positive, with that count, and every pair counter is at most its descriptor total |
| Counting.JournalCountersMatchEntries | dummy/data.py:70-85 | counted nested dictionaries hold every per-journal count, with a key iff the count is positive, bounded by its total |
| Counting.CounterFrequencyIsProbability | dummy/data.py:119 | the frequency handed to the journal-agnostic draw has a positive denominator and is in (0, 1] |
| Counting.JournalCounterFrequencyIsProbability | dummy/data.py:94 | the frequency handed to the journal-aware draw has a positive denominator and is in (0, 1] |
| Counting.CounterTotalIsSumOfCounters | dummy/data.py:101-113 | a descriptor's total is the sum of its qualifier counters |
| Counting.JournalCounterTotalIsSumOfCounters | dummy/data.py:70-85 | a (journal, descriptor) total is the sum of its qualifier counters |
| Counting.DescriptorTableEntriesAreBits | dummy/data.py:119 | under a Bernoulli draw every entry of the journal-agnostic table is 0 or 1 |
| Counting.JournalTableEntriesAreBits | dummy/data.py:94 | under a Bernoulli draw every entry of the journal-aware table is 0 or 1 |
| Counting.DescriptorTableSingleQualifier | dummy/data.py:114-119 | a descriptor that always comes with the same qualifier gets 1 for that qualifier |
| Counting.JournalTableSingleQualifier | dummy/data.py:86-94 | a (journal, descriptor) that always comes with the same qualifier gets 1 for that qualifier |
| Counting.JournalTableRefinesDescriptorTable | dummy/data.py:86-94 | every journal-aware key has its (descriptor, qualifier) in the journal-agnostic table, every journal-agnostic pair is keyed under some journal, and every entry's own triple is keyed |
| Score.Matches | dummy/score.py:37-39 | the number of agreeing positions is at most the vector length |
| Score.Mismatches | dummy/score.py:37-39 | the number of disagreeing positions is at most the vector length |
| Score.Ones | dummy/score.py:40-43 | the number of 1 entries is at most the vector length; it counts the actual number and the predictions |
| Score.Ratio | dummy/score.py:44-46 | a ratio times its denominator is its numerator, and it is non-negative |
| Score.MetricsOf | dummy/score.py:44-46 | precision times (predictions + 1e-7) and recall times (actual + 1e-7) are the matches; F1 times (precision + recall + 1e-7) is twice their product; all non-negative |
| Score.Score | dummy/score.py:33-47 | the counting loop over y_true returns the metrics of the two vectors' counts |
| Score.MatchesPlusMismatches | dummy/score.py:37-39 | every position either matches or does not |
| Score.AgreeingVectorsMatchEverywhere | dummy/score.py:38-39 | equal vectors match at every position |
| Score.DisagreeingVectorsNeverMatch | dummy/score.py:38-39 | vectors that differ everywhere have no match |
| Score.OneHot | dummy/score.py:12-13 | y_true has the critical length and a 1 only at the qualifier's index |
| Score.OnesOfOneHot | dummy/score.py:12-13 | a one-hot vector has exactly one 1 |
| Score.Complement | dummy/score.py:38 | the flipped vector has the same length and every entry flipped |
| Score.ComplementOfOneHotNeverMatches | dummy/score.py:38-39 | the flipped one-hot prediction matches nowhere |
| Score.ScoreOfZeroPrediction | dummy/score.py:33-47 | an all-zero prediction still has n - 1 matches: precision times 1e-7 and recall times (1 + 1e-7) are n - 1 |
| Score.PerfectPredictionPrecision | dummy/score.py:44 | a perfect prediction of length n has precision n / (1 + 1e-7), above 1 from n = 2 |
| Score.IndexOf | dummy/score.py:10 | `list.index` fails iff the value is absent, and otherwise gives its first position |
| Score.Lookup | dummy/score.py:15-23 | a value is found iff the table has the mode's keys for the record and qualifier, and it is the table's value at those keys; in the other mode nothing is found |
| Score.Prediction | dummy/score.py:14-23 | y_pred has the critical length and each position is the value written there by the loop |
| Score.PredictionOfDistinctQualifiers | dummy/score.py:14-23 | with distinct critical qualifiers, y_pred at k is the table's value at the record's (journal, descriptor) or descriptor and the k-th qualifier, 0 when a key is absent or the table is keyed for the other mode |
| Score.TruthIsOneHotAtFirstIndex | dummy/score.py:10-13 | a found qualifier gives a y_true with a single 1, at the qualifier's first position |
| Score.FillPrediction | dummy/score.py:14-23 | the inner loop turns the zero array into the prediction vector |
| Score.ScoreRecord | dummy/score.py:10-24 | one record's arrays and score are the metrics of its one-hot truth and its prediction |
| Score.ScoresFailIffQualifierMissing | dummy/score.py:9-10 | scoring raises iff some record's qualifier is not critical |
| Score.ScoresFailAtFirstMissing | dummy/score.py:9-10 | the error names the first record whose qualifier is not critical |
| Score.ScoresLength | dummy/score.py:24-27 | a successful run has one F1, one precision and one recall per record |
| Score.ScoresAt | dummy/score.py:9-27 | entry i of each list is the metric of record i's vectors |
| Score.ScoresExtend | dummy/score.py:24-27 | a successful run is the run on all but the last record with the last record's metrics appended |
| Score.ScoresStep | dummy/score.py:24-27 | one more found record appends its three metrics |
| Score.FailureIsFinal | dummy/score.py:10 | a missing qualifier ends the whole run with its error |
| Score.FailureStays | dummy/score.py:9-10 | a failure on a prefix is the failure of the whole run |
| Score.CalculateScore | dummy/score.py:6-27 | the loop over the testing records returns the per-record lists or the first error |
| Score.CalculateScoreTwice | dummy/score.py:6-27 | scoring only reads the table: two runs give the same result |

## Left out

- **Database and files:**
  - the MySQL connection and query of `fetch_data` (dummy/data.py:8-33): the fetched rows are the input of `Data.FilterCritical`, and the query's own filters (year, indexing method) are not modelled;
  - writing `data/data.json`;
  - the file writing, directory creation and `save` flag of `make_datasets`: only the returned pair is modelled.
- `load` (dummy/data.py:130-153) is file I/O and is not modelled.
  - This also leaves out that after a JSON round trip the integer journal keys come back as strings.
- `Data.MakeProbabilitiesWithJournals`, `Data.MakeProbabilitiesWithoutJournals`, `Data.DrawWithJournals` and `Data.DrawWithoutJournals`: the draw depends only on (count, total), while numpy draws independently for each pair. Random-number state is not modelled.
- `Data.DrawWithoutJournals`: a descriptor's row is built completely and then stored. The source creates the row at its first qualifier and fills it in place; the final table is the same.
- `Data.DrawWithJournals`: a journal's dictionary is built completely and stored only when non-empty. The source creates it on the first qualifier; the final table is the same.
- `Data.SplitIndex`: `ratio * len(entries)` is an exact real product, not a double. The model therefore differs where rounding crosses an integer: in doubles 0.57 * 100 is 56.99999999999999, so the source trains on 56 rows where the model takes 57. `Data.MakeDatasets` also takes the ratio as a parameter, so the default `ratio=0.85` (dummy/data.py:47) and the `save` flag are not modelled as defaults.
- `Score.Score`, `Score.CalculateScore`:
  - the vectors are integer arrays and the ratios are exact reals, not floating point;
  - the epsilon 1e-7 is the exact rational 0.0000001.
- `Score.CalculateScore`: the final print of the averages divided by the critical length (dummy/score.py:28-30) is output only. So is the `Connected.` / `Saving Data` output of `fetch_data`.
- The command-line driver (dummy/score.py:50-73) is argument parsing and I/O.
- `Score.Score` requires `yTrue.Length <= yPred.Length`. The source would raise an index error on a shorter y_pred, but a shorter y_pred never reaches `score` from `calculate_score`.
