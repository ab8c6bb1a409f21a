/**
 * The scorer of dummy/score.py: for every test record a one-hot truth vector
 * over the critical qualifiers, a prediction vector read from the probability
 * table, and three epsilon-guarded ratios computed from match counts.
 */
module Score {
  import opened Wrappers
  import opened Records
  import opened Counting

  // ---------------------------------------------------------------------------
  // What score counts

  /** Positions where the two vectors agree (both-zero positions included). */
  function Matches(t: seq<int>, p: seq<int>): (n: nat)
    requires |t| == |p|
    ensures n <= |t|
    decreases |t|
  {
    if t == [] then 0
    else Matches(t[..|t| - 1], p[..|p| - 1]) + Indicator(t[|t| - 1] == p[|p| - 1])
  }

  /** Positions where the two vectors disagree. */
  function Mismatches(t: seq<int>, p: seq<int>): (n: nat)
    requires |t| == |p|
    ensures n <= |t|
    decreases |t|
  {
    if t == [] then 0
    else Mismatches(t[..|t| - 1], p[..|p| - 1]) + Indicator(t[|t| - 1] != p[|p| - 1])
  }

  /** Positions holding 1. */
  function Ones(v: seq<int>): (n: nat)
    ensures n <= |v|
    decreases |v|
  {
    if v == [] then 0
    else Ones(v[..|v| - 1]) + Indicator(v[|v| - 1] == 1)
  }

  // ---------------------------------------------------------------------------
  // The three ratios

  /** The 1e-7 that keeps every denominator away from zero. */
  const Eps: real := 0.0000001

  datatype Metrics = Metrics(f1: real, precision: real, recall: real)

  /** n / d for a non-negative n and a positive d. */
  function Ratio(n: real, d: real): (r: real)
    requires 0.0 <= n && 0.0 < d
    ensures 0.0 <= r && r * d == n
  {
    var r := n / d;
    assert r * d == n;
    r
  }

  /**
   * precision = matches / (predictions + 1e-7), recall = matches / (actual + 1e-7),
   * f1 = 2 * precision * recall / (precision + recall + 1e-7): every
   * denominator is positive whatever the counts, so the ratios are always
   * defined, and each ratio times its denominator gives back its numerator.
   */
  function MetricsOf(matches: nat, predictions: nat, actual: nat): (m: Metrics)
    ensures m.precision * (predictions as real + Eps) == matches as real
    ensures m.recall * (actual as real + Eps) == matches as real
    ensures m.f1 * (m.precision + m.recall + Eps) == 2.0 * m.precision * m.recall
    ensures 0.0 <= m.precision && 0.0 <= m.recall && 0.0 <= m.f1
  {
    var precision := Ratio(matches as real, predictions as real + Eps);
    var recall := Ratio(matches as real, actual as real + Eps);
    assert 0.0 <= precision * recall by {
      if 0.0 < precision && 0.0 < recall {
        assert 0.0 < precision * recall;
      }
    }
    Metrics(Ratio(2.0 * precision * recall, precision + recall + Eps), precision, recall)
  }

  /** What score(y_true, y_pred) returns, over the first len(y_true) positions of y_pred. */
  function ScoreOf(t: seq<int>, p: seq<int>): Metrics
    requires |t| <= |p|
  {
    var p' := p[..|t|];
    MetricsOf(Matches(t, p'), Ones(p'), Ones(t))
  }

  /**
   * score: one pass over the positions of y_true, counting agreements,
   * predicted ones and actual ones; each counter stays at most the number of
   * positions visited.
   */
  method Score(yTrue: array<int>, yPred: array<int>) returns (m: Metrics)
    requires yTrue.Length <= yPred.Length
    ensures m == ScoreOf(yTrue[..], yPred[..])
  {
    var matches, predictions, actualNumber := 0, 0, 0;
    var i := 0;
    while i < yTrue.Length
      invariant 0 <= i <= yTrue.Length
      invariant matches == Matches(yTrue[..i], yPred[..i])
      invariant predictions == Ones(yPred[..i])
      invariant actualNumber == Ones(yTrue[..i])
      invariant matches <= i && predictions <= i && actualNumber <= i
    {
      assert yTrue[..i + 1][..i] == yTrue[..i];
      assert yPred[..i + 1][..i] == yPred[..i];
      if yTrue[i] == yPred[i] {
        matches := matches + 1;
      }
      if yTrue[i] == 1 {
        actualNumber := actualNumber + 1;
      }
      if yPred[i] == 1 {
        predictions := predictions + 1;
      }
      i := i + 1;
    }
    assert yTrue[..i] == yTrue[..];
    assert yPred[..i] == yPred[..][..yTrue.Length];
    m := MetricsOf(matches, predictions, actualNumber);
  }

  // ---------------------------------------------------------------------------
  // Properties of the counts

  /** Every position is either a match or a mismatch. */
  lemma {:induction false} MatchesPlusMismatches(t: seq<int>, p: seq<int>)
    requires |t| == |p|
    ensures Matches(t, p) + Mismatches(t, p) == |t|
    decreases |t|
  {
    if t != [] {
      MatchesPlusMismatches(t[..|t| - 1], p[..|p| - 1]);
    }
  }

  /** Matches counts the positions where the vectors agree, so equal vectors match everywhere. */
  lemma {:induction false} AgreeingVectorsMatchEverywhere(t: seq<int>, p: seq<int>)
    requires |t| == |p| && forall i :: 0 <= i < |t| ==> t[i] == p[i]
    ensures Matches(t, p) == |t|
    decreases |t|
  {
    if t != [] {
      AgreeingVectorsMatchEverywhere(t[..|t| - 1], p[..|p| - 1]);
    }
  }

  /** Vectors that disagree at every position have no match. */
  lemma {:induction false} DisagreeingVectorsNeverMatch(t: seq<int>, p: seq<int>)
    requires |t| == |p| && forall i :: 0 <= i < |t| ==> t[i] != p[i]
    ensures Matches(t, p) == 0
    decreases |t|
  {
    if t != [] {
      DisagreeingVectorsNeverMatch(t[..|t| - 1], p[..|p| - 1]);
    }
  }

  /** The vector np.zeros(n) with position k set to 1. */
  function OneHot(n: nat, k: nat): (v: seq<int>)
    ensures |v| == n
    ensures forall i :: 0 <= i < n ==> v[i] == (if i == k then 1 else 0)
  {
    seq(n, i => if i == k then 1 else 0)
  }

  /** A one-hot vector has exactly one 1 when its position lies inside it, and none otherwise. */
  lemma {:induction false} OnesOfOneHot(n: nat, k: nat)
    ensures Ones(OneHot(n, k)) == (if k < n then 1 else 0)
    decreases n
  {
    if n != 0 {
      assert OneHot(n, k)[..n - 1] == OneHot(n - 1, k);
      OnesOfOneHot(n - 1, k);
    }
  }

  /** The vector 1 - v. */
  function Complement(v: seq<int>): (c: seq<int>)
    ensures |c| == |v|
    ensures forall i :: 0 <= i < |v| ==> c[i] == 1 - v[i]
  {
    seq(|v|, i requires 0 <= i < |v| => 1 - v[i])
  }

  /** The complement of a one-hot vector matches it nowhere. */
  lemma ComplementOfOneHotNeverMatches(n: nat, k: nat)
    requires k < n
    ensures Matches(OneHot(n, k), Complement(OneHot(n, k))) == 0
  {
    DisagreeingVectorsNeverMatch(OneHot(n, k), Complement(OneHot(n, k)));
  }

  /** The all-zero prediction is scorable: no prediction, one actual, n - 1 matches. */
  lemma ScoreOfZeroPrediction(n: nat, k: nat)
    requires k < n
    ensures var m := ScoreOf(OneHot(n, k), seq(n, _ => 0));
            m.precision * Eps == (n - 1) as real && m.recall * (1.0 + Eps) == (n - 1) as real
  {
    var z := seq(n, _ => 0);
    assert z[..n] == z;
    OnesOfOneHot(n, k);
    OnesOfZeros(n);
    MatchesPlusMismatches(OneHot(n, k), z);
    MismatchesOfOneHotAndZeros(n, k);
  }

  lemma {:induction false} OnesOfZeros(n: nat)
    ensures Ones(seq(n, _ => 0)) == 0
    decreases n
  {
    if n != 0 {
      assert seq(n, _ => 0)[..n - 1] == seq(n - 1, _ => 0);
      OnesOfZeros(n - 1);
    }
  }

  lemma {:induction false} MismatchesOfOneHotAndZeros(n: nat, k: nat)
    ensures Mismatches(OneHot(n, k), seq(n, _ => 0)) == (if k < n then 1 else 0)
    decreases n
  {
    if n != 0 {
      assert OneHot(n, k)[..n - 1] == OneHot(n - 1, k);
      assert seq(n, _ => 0)[..n - 1] == seq(n - 1, _ => 0);
      MismatchesOfOneHotAndZeros(n - 1, k);
    }
  }

  /**
   * A perfect prediction of a one-hot truth vector of length n has n matches
   * and one prediction, so its precision is n / (1 + 1e-7): above 1 as soon as
   * there are two critical qualifiers.
   */
  lemma PerfectPredictionPrecision(n: nat, k: nat)
    requires k < n
    ensures ScoreOf(OneHot(n, k), OneHot(n, k)).precision * (1.0 + Eps) == n as real
    ensures 2 <= n ==> ScoreOf(OneHot(n, k), OneHot(n, k)).precision > 1.0
  {
    var t := OneHot(n, k);
    assert t[..n] == t;
    AgreeingVectorsMatchEverywhere(t, t);
    OnesOfOneHot(n, k);
  }

  // ---------------------------------------------------------------------------
  // The vectors of one test record

  /** list.index: the first position of x in s, or nothing when x is not in s. */
  function IndexOf(s: seq<Qualifier>, x: Qualifier): (r: Option<nat>)
    ensures r.None? <==> x !in s
    ensures r.Some? ==> r.value < |s| && s[r.value] == x && forall i :: 0 <= i < r.value ==> s[i] != x
    decreases |s|
  {
    if s == [] then None
    else if s[0] == x then Some(0)
    else match IndexOf(s[1..], x) {
      case None => None
      case Some(i) => Some(i + 1)
    }
  }

  /**
   * The table value for (record, qualifier) as the lookup chain of the chosen
   * mode reads it: journal -> descriptor -> qualifier with journals,
   * descriptor -> qualifier without. A table keyed for the other mode never
   * has the record's key at the top level, so nothing is found.
   */
  function Lookup(table: ProbabilityTable, useJournals: bool, r: TestRecord, q: Qualifier): (v: Option<nat>)
    ensures v.Some? <==>
              if useJournals then table.JournalTable? && Has3(table.journals, r.journal, r.descriptor, q)
              else table.DescriptorTable? && Has2(table.descriptors, r.descriptor, q)
    ensures v.Some? ==> v.value == if useJournals then Get3(table.journals, r.journal, r.descriptor, q)
                                   else Get2(table.descriptors, r.descriptor, q)
  {
    if useJournals then
      match table {
        case JournalTable(m) => if Has3(m, r.journal, r.descriptor, q) then Some(m[r.journal][r.descriptor][q]) else None
        case DescriptorTable(_) => None
      }
    else
      match table {
        case DescriptorTable(m) => if Has2(m, r.descriptor, q) then Some(m[r.descriptor][q]) else None
        case JournalTable(_) => None
      }
  }

  function ValueOr0(v: Option<nat>): int
  {
    match v
    case Some(x) => x
    case None => 0
  }


  /**
   * Position k of y_pred after the loop over critical_ui: it is written only
   * by the qualifiers whose first index is k, which happens only when k is the
   * first index of critical[k], and then with the looked-up value.
   */
  function PredictionAt(table: ProbabilityTable, useJournals: bool, r: TestRecord, critical: seq<Qualifier>, k: nat): int
    requires k < |critical|
  {
    if IndexOf(critical, critical[k]) == Some(k) then ValueOr0(Lookup(table, useJournals, r, critical[k])) else 0
  }

  /** The whole y_pred vector of a record. */
  function Prediction(table: ProbabilityTable, useJournals: bool, r: TestRecord, critical: seq<Qualifier>): (v: seq<int>)
    ensures |v| == |critical|
    ensures forall k :: 0 <= k < |critical| ==> v[k] == PredictionAt(table, useJournals, r, critical, k)
  {
    seq(|critical|, k requires 0 <= k < |critical| => PredictionAt(table, useJournals, r, critical, k))
  }

  /**
   * With distinct critical qualifiers, y_pred[k] is the table value at
   * (journal, descriptor, critical[k]) or (descriptor, critical[k]) in the
   * chosen mode, 0 when a key is absent, and 0 when the table is keyed for the
   * other mode.
   */
  lemma PredictionOfDistinctQualifiers(table: ProbabilityTable, useJournals: bool, r: TestRecord, critical: seq<Qualifier>, k: nat)
    requires NoDup(critical) && k < |critical|
    ensures Prediction(table, useJournals, r, critical)[k]
              == if useJournals && table.JournalTable? then Get3(table.journals, r.journal, r.descriptor, critical[k])
                 else if !useJournals && table.DescriptorTable? then Get2(table.descriptors, r.descriptor, critical[k])
                 else 0
  {
    var idx := IndexOf(critical, critical[k]);
    assert idx.Some? && critical[idx.value] == critical[k];
    assert idx.value == k;
  }

  /** The truth vector of a record whose qualifier is at first index k has its single 1 at k. */
  lemma TruthIsOneHotAtFirstIndex(critical: seq<Qualifier>, q: Qualifier)
    requires q in critical
    ensures IndexOf(critical, q).Some?
    ensures var t := OneHot(|critical|, IndexOf(critical, q).value);
            Ones(t) == 1 && t[IndexOf(critical, q).value] == 1 && critical[IndexOf(critical, q).value] == q
  {
    OnesOfOneHot(|critical|, IndexOf(critical, q).value);
  }

  /** The three ratios of one record, once its qualifier has been found at index k. */
  function RecordMetrics(table: ProbabilityTable, useJournals: bool, r: TestRecord, critical: seq<Qualifier>, k: nat): Metrics
  {
    ScoreOf(OneHot(|critical|, k), Prediction(table, useJournals, r, critical))
  }

  /**
   * The inner loop of calculate_score over critical_ui: for each qualifier
   * found in the table, y_pred[critical_ui.index(qualifier)] gets its value.
   */
  method FillPrediction(table: ProbabilityTable, useJournals: bool, r: TestRecord, critical: seq<Qualifier>, yPred: array<int>)
    requires yPred.Length == |critical|
    requires forall k :: 0 <= k < yPred.Length ==> yPred[k] == 0
    modifies yPred
    ensures yPred[..] == Prediction(table, useJournals, r, critical)
  {
    var k := 0;
    while k < |critical|
      invariant 0 <= k <= |critical|
      invariant forall m :: 0 <= m < yPred.Length ==>
                  yPred[m] == if m < k then PredictionAt(table, useJournals, r, critical, m) else 0
    {
      var i := critical[k];
      var v := Lookup(table, useJournals, r, i);
      if v.Some? {
        var idx := IndexOf(critical, i).value;
        assert idx <= k;
        assert PredictionAt(table, useJournals, r, critical, idx) == v.value;
        yPred[idx] := v.value;
      }
      k := k + 1;
    }
    assert yPred[..] == Prediction(table, useJournals, r, critical);
  }

  /**
   * One iteration of calculate_score for a record whose qualifier sits at
   * index k: y_pred and y_true are allocated as zeros, y_true[k] is set to 1,
   * y_pred is filled from the table, and score turns the pair into the
   * record's three ratios.
   */
  method ScoreRecord(table: ProbabilityTable, useJournals: bool, r: TestRecord, critical: seq<Qualifier>, k: nat)
    returns (m: Metrics)
    requires k < |critical|
    ensures m == RecordMetrics(table, useJournals, r, critical, k)
  {
    var yPred := new int[|critical|](_ => 0);
    var yTrue := new int[|critical|](_ => 0);
    yTrue[k] := 1;
    assert yTrue[..] == OneHot(|critical|, k);
    FillPrediction(table, useJournals, r, critical, yPred);
    m := Score(yTrue, yPred);
  }

  // ---------------------------------------------------------------------------
  // calculate_score

  /** The per-record lists f1, precision and recall, in record order. */
  datatype Scores = Scores(f1: seq<real>, precision: seq<real>, recall: seq<real>)

  /**
   * What calculate_score computes: the lists of the records before the first
   * one whose qualifier is not in critical_ui, where it stops with the error
   * of list.index.
   */
  function ExpectedScores(table: ProbabilityTable, useJournals: bool, records: seq<TestRecord>, critical: seq<Qualifier>): Result<Scores, Error>
    decreases |records|
  {
    if records == [] then Success(Scores([], [], []))
    else
      var r := records[|records| - 1];
      match ExpectedScores(table, useJournals, records[..|records| - 1], critical) {
        case Failure(e) => Failure(e)
        case Success(s) =>
          match IndexOf(critical, r.qualifier) {
            case None => Failure(NotInList(r.qualifier))
            case Some(k) =>
              var m := RecordMetrics(table, useJournals, r, critical, k);
              Success(Scores(s.f1 + [m.f1], s.precision + [m.precision], s.recall + [m.recall]))
          }
      }
  }

  /** Every record's qualifier occurs in critical_ui. */
  predicate AllFound(records: seq<TestRecord>, critical: seq<Qualifier>)
  {
    forall i :: 0 <= i < |records| ==> records[i].qualifier in critical
  }

  /** calculate_score fails exactly when some record's qualifier is missing from critical_ui. */
  lemma {:induction false} ScoresFailIffQualifierMissing(table: ProbabilityTable, useJournals: bool, records: seq<TestRecord>, critical: seq<Qualifier>)
    ensures ExpectedScores(table, useJournals, records, critical).Failure? <==> !AllFound(records, critical)
    decreases |records|
  {
    if records != [] {
      var init, r := records[..|records| - 1], records[|records| - 1];
      ScoresFailIffQualifierMissing(table, useJournals, init, critical);
      assert records == init + [r];
      assert AllFound(records, critical) <==> AllFound(init, critical) && r.qualifier in critical by {
        if AllFound(init, critical) && r.qualifier in critical {
          forall i | 0 <= i < |records| ensures records[i].qualifier in critical {
            if i < |init| { assert records[i] == init[i]; }
          }
        }
        if AllFound(records, critical) {
          forall i | 0 <= i < |init| ensures init[i].qualifier in critical {
            assert records[i] == init[i];
          }
        }
      }
    }
  }

  /** A failing run reports the missing qualifier of the first record that has one. */
  lemma {:induction false} ScoresFailAtFirstMissing(table: ProbabilityTable, useJournals: bool, records: seq<TestRecord>, critical: seq<Qualifier>)
    requires ExpectedScores(table, useJournals, records, critical).Failure?
    ensures exists i :: 0 <= i < |records| && records[i].qualifier !in critical &&
              ExpectedScores(table, useJournals, records, critical).error == NotInList(records[i].qualifier) &&
              forall i' :: 0 <= i' < i ==> records[i'].qualifier in critical
    decreases |records|
  {
    var init, r := records[..|records| - 1], records[|records| - 1];
    var prev := ExpectedScores(table, useJournals, init, critical);
    if prev.Failure? {
      ScoresFailAtFirstMissing(table, useJournals, init, critical);
      var i :| 0 <= i < |init| && init[i].qualifier !in critical && prev.error == NotInList(init[i].qualifier) &&
               forall i' :: 0 <= i' < i ==> init[i'].qualifier in critical;
      assert records[i] == init[i];
      forall i' | 0 <= i' < i ensures records[i'].qualifier in critical {
        assert records[i'] == init[i'];
      }
    } else {
      ScoresFailIffQualifierMissing(table, useJournals, init, critical);
      forall i' | 0 <= i' < |init| ensures records[i'].qualifier in critical {
        assert records[i'] == init[i'];
      }
      assert records[|records| - 1] == r;
    }
  }

  /** A successful run holds one f1, one precision and one recall per record. */
  lemma {:induction false} ScoresLength(table: ProbabilityTable, useJournals: bool, records: seq<TestRecord>, critical: seq<Qualifier>)
    requires ExpectedScores(table, useJournals, records, critical).Success?
    ensures var s := ExpectedScores(table, useJournals, records, critical).value;
            |s.f1| == |records| && |s.precision| == |records| && |s.recall| == |records|
    decreases |records|
  {
    if records != [] {
      ScoresLength(table, useJournals, records[..|records| - 1], critical);
    }
  }

  /**
   * In a successful run, entry i of each list is the ratio of record i's
   * vectors, where record i's qualifier was found in critical_ui.
   */
  lemma {:induction false} ScoresAt(table: ProbabilityTable, useJournals: bool, records: seq<TestRecord>, critical: seq<Qualifier>, i: nat)
    requires ExpectedScores(table, useJournals, records, critical).Success?
    requires i < |records|
    ensures IndexOf(critical, records[i].qualifier).Some?
    ensures var s := ExpectedScores(table, useJournals, records, critical).value;
            var m := RecordMetrics(table, useJournals, records[i], critical, IndexOf(critical, records[i].qualifier).value);
            && i < |s.f1| && i < |s.precision| && i < |s.recall|
            && s.f1[i] == m.f1 && s.precision[i] == m.precision && s.recall[i] == m.recall
    decreases |records|
  {
    var init := records[..|records| - 1];
    if i < |init| {
      ScoresAt(table, useJournals, init, critical, i);
      ScoresExtend(table, useJournals, records, critical);
      assert records[i] == init[i];
    } else {
      ScoresExtend(table, useJournals, records, critical);
      ScoresLength(table, useJournals, init, critical);
    }
  }

  /** A successful run extends the run on all but the last record by the last record's metrics. */
  lemma ScoresExtend(table: ProbabilityTable, useJournals: bool, records: seq<TestRecord>, critical: seq<Qualifier>)
    requires ExpectedScores(table, useJournals, records, critical).Success?
    requires records != []
    ensures var init, last := records[..|records| - 1], records[|records| - 1];
            && ExpectedScores(table, useJournals, init, critical).Success?
            && IndexOf(critical, last.qualifier).Some?
            && var prev := ExpectedScores(table, useJournals, init, critical).value;
               var m := RecordMetrics(table, useJournals, last, critical, IndexOf(critical, last.qualifier).value);
               ExpectedScores(table, useJournals, records, critical).value
                 == Scores(prev.f1 + [m.f1], prev.precision + [m.precision], prev.recall + [m.recall])
  {
  }

  /** One more record whose qualifier is found appends its three ratios. */
  lemma ScoresStep(table: ProbabilityTable, useJournals: bool, records: seq<TestRecord>, critical: seq<Qualifier>, n: nat, s: Scores, k: nat)
    requires n < |records|
    requires ExpectedScores(table, useJournals, records[..n], critical) == Success(s)
    requires IndexOf(critical, records[n].qualifier) == Some(k)
    ensures var m := RecordMetrics(table, useJournals, records[n], critical, k);
            ExpectedScores(table, useJournals, records[..n + 1], critical)
              == Success(Scores(s.f1 + [m.f1], s.precision + [m.precision], s.recall + [m.recall]))
  {
    assert records[..n + 1][..n] == records[..n];
  }

  /** Once a record fails, the whole run fails with that record's error. */
  lemma FailureIsFinal(table: ProbabilityTable, useJournals: bool, records: seq<TestRecord>, critical: seq<Qualifier>, n: nat)
    requires n < |records|
    requires ExpectedScores(table, useJournals, records[..n], critical).Success?
    requires IndexOf(critical, records[n].qualifier).None?
    ensures ExpectedScores(table, useJournals, records, critical) == Failure(NotInList(records[n].qualifier))
  {
    assert records[..n + 1][..n] == records[..n];
    FailureStays(table, useJournals, records, critical, n + 1, NotInList(records[n].qualifier));
  }

  /** A failure after the first n records is the failure of the whole run. */
  lemma {:induction false} FailureStays(table: ProbabilityTable, useJournals: bool, records: seq<TestRecord>, critical: seq<Qualifier>, n: nat, e: Error)
    requires n <= |records|
    requires ExpectedScores(table, useJournals, records[..n], critical) == Failure(e)
    ensures ExpectedScores(table, useJournals, records, critical) == Failure(e)
    decreases |records| - n
  {
    if n == |records| {
      assert records[..n] == records;
    } else {
      assert records[..n + 1][..n] == records[..n];
      FailureStays(table, useJournals, records, critical, n + 1, e);
    }
  }

  /**
   * calculate_score without the final print: for each record in order,
   * critical_ui.index(qualifier) (which raises when the qualifier is absent),
   * then the record's three ratios appended to their lists.
   */
  method CalculateScore(table: ProbabilityTable, useJournals: bool, records: seq<TestRecord>, critical: seq<Qualifier>)
    returns (res: Result<Scores, Error>)
    ensures res == ExpectedScores(table, useJournals, records, critical)
  {
    var f1, recall, precision := [], [], [];
    var n := 0;
    while n < |records|
      invariant 0 <= n <= |records|
      invariant ExpectedScores(table, useJournals, records[..n], critical) == Success(Scores(f1, precision, recall))
    {
      var r := records[n];
      var criticalIndex := IndexOf(critical, r.qualifier);
      if criticalIndex.None? {
        FailureIsFinal(table, useJournals, records, critical, n);
        return Failure(NotInList(r.qualifier));
      }
      var m := ScoreRecord(table, useJournals, r, critical, criticalIndex.value);
      ScoresStep(table, useJournals, records, critical, n, Scores(f1, precision, recall), criticalIndex.value);
      f1 := f1 + [m.f1];
      recall := recall + [m.recall];
      precision := precision + [m.precision];
      n := n + 1;
    }
    assert records[..n] == records;
    res := Success(Scores(f1, precision, recall));
  }

  /**
   * calculate_score reads the table only, so scoring is deterministic: both
   * runs equal ExpectedScores, which is a function of the inputs. This is a
   * corollary of CalculateScore's contract, not a separate proof.
   */
  method CalculateScoreTwice(table: ProbabilityTable, useJournals: bool, records: seq<TestRecord>, critical: seq<Qualifier>)
    returns (first: Result<Scores, Error>, second: Result<Scores, Error>)
    ensures first == second
  {
    first := CalculateScore(table, useJournals, records, critical);
    second := CalculateScore(table, useJournals, records, critical);
  }
}
