/**
 * What the probability estimator counts, stated over the training entries:
 * occurrence counts per (descriptor, qualifier) and per descriptor, their
 * journal-aware refinements, the relation the counters must have to the
 * entries, and the shape of the probability table the estimator builds.
 */
module Counting {
  import opened Records

  function Indicator(b: bool): nat
  {
    if b then 1 else 0
  }

  /** Number of entries with descriptor d and qualifier q. */
  function CountDQ(es: seq<Entry>, d: Descriptor, q: Qualifier): (n: nat)
    ensures n <= CountD(es, d)
    decreases |es|
  {
    if es == [] then 0
    else
      var e := es[|es| - 1];
      CountDQ(es[..|es| - 1], d, q) + Indicator(e.descriptor == d && e.qualifier == q)
  }

  /** Number of entries with descriptor d, whatever their qualifier. */
  function CountD(es: seq<Entry>, d: Descriptor): (n: nat)
    ensures n <= |es|
    decreases |es|
  {
    if es == [] then 0
    else CountD(es[..|es| - 1], d) + Indicator(es[|es| - 1].descriptor == d)
  }

  /** The entries of journal j, in their original order. */
  function OfJournal(es: seq<Entry>, j: Journal): (r: seq<Entry>)
    ensures |r| <= |es|
    ensures forall e :: e in r <==> e in es && e.journal == j
    decreases |es|
  {
    if es == [] then []
    else
      var e := es[|es| - 1];
      OfJournal(es[..|es| - 1], j) + (if e.journal == j then [e] else [])
  }

  /** Number of entries with journal j, descriptor d and qualifier q. */
  function CountJDQ(es: seq<Entry>, j: Journal, d: Descriptor, q: Qualifier): nat
  {
    CountDQ(OfJournal(es, j), d, q)
  }

  /** Number of entries with journal j and descriptor d. */
  function CountJD(es: seq<Entry>, j: Journal, d: Descriptor): nat
  {
    CountD(OfJournal(es, j), d)
  }

  predicate NoDup<T(==)>(s: seq<T>)
  {
    forall i, k :: 0 <= i < k < |s| ==> s[i] != s[k]
  }

  /**
   * The empirical frequency count/total that is handed to the Bernoulli draw;
   * it is a probability, and it is 1 exactly when every occurrence of the
   * group carries the qualifier.
   */
  function Frequency(count: nat, total: nat): (f: real)
    requires count <= total && 0 < total
    ensures 0.0 <= f <= 1.0
    ensures f == 1.0 <==> count == total
    ensures f == 0.0 <==> count == 0
  {
    var f := count as real / total as real;
    assert f * total as real == count as real;
    assert f <= 1.0 by {
      assert count as real <= total as real;
      assert count as real / total as real <= total as real / total as real;
    }
    f
  }

  /**
   * The draw `np.random.binomial(1, count / total)` as an injected oracle,
   * passed the frequency exactly as its numerator and denominator.
   */
  type Oracle = (nat, nat) -> nat

  /**
   * A Bernoulli oracle: a 0/1 outcome for every frequency in [0, 1], certainly
   * 1 for frequency 1 and certainly 0 for frequency 0.
   */
  ghost predicate IsBernoulliOracle(draw: Oracle)
  {
    && (forall count: nat, total: nat :: count <= total && 0 < total ==> draw(count, total) <= 1)
    && (forall total: nat :: 0 < total ==> draw(total, total) == 1)
    && (forall total: nat :: 0 < total ==> draw(0, total) == 0)
  }

  /**
   * The journal-agnostic counters after the counting pass over es:
   * critical_count[d][q] and descriptors_count[d] are the occurrence counts,
   * a key is present exactly where its count is positive, and no inner
   * dictionary is empty.
   */
  ghost predicate Counted2(cc: DescriptorMap, dc: Totals, es: seq<Entry>)
  {
    && (forall d, q :: Get2(cc, d, q) == CountDQ(es, d, q))
    && (forall d :: Get1(dc, d) == CountD(es, d))
    && (forall d, q :: Has2(cc, d, q) ==> cc[d][q] > 0)
    && (forall d :: d in dc ==> dc[d] > 0)
    && NoEmpty2(cc)
  }

  /**
   * The journal-aware counters after the counting pass over es: for every
   * journal, its inner dictionaries are the journal-agnostic counters of that
   * journal's entries, and a journal is keyed only with a non-empty inner
   * dictionary.
   */
  ghost predicate Counted3(cc: JournalMap, dc: JournalTotals, es: seq<Entry>)
  {
    && (forall j :: Counted2(Inner(cc, j), InnerTotals(dc, j), OfJournal(es, j)))
    && (forall j :: j in cc ==> cc[j] != map[])
    && (forall j :: j in dc ==> dc[j] != map[])
  }

  /**
   * A journal-agnostic probability table for es: keyed by exactly the
   * (descriptor, qualifier) pairs that occur, each entry the draw for its
   * frequency, no empty inner dictionary.
   */
  ghost predicate IsDescriptorTable(p: DescriptorMap, es: seq<Entry>, draw: Oracle)
  {
    && (forall d, q :: Has2(p, d, q) <==> CountDQ(es, d, q) > 0)
    && (forall d, q :: Has2(p, d, q) && CountDQ(es, d, q) > 0 ==>
          p[d][q] == draw(CountDQ(es, d, q), CountD(es, d)))
    && NoEmpty2(p)
  }

  /** A journal-aware probability table for es. */
  ghost predicate IsJournalTable(p: JournalMap, es: seq<Entry>, draw: Oracle)
  {
    && (forall j, d, q :: Has3(p, j, d, q) <==> CountJDQ(es, j, d, q) > 0)
    && (forall j, d, q :: Has3(p, j, d, q) && CountJDQ(es, j, d, q) > 0 ==>
          p[j][d][q] == draw(CountJDQ(es, j, d, q), CountJD(es, j, d)))
    && NoEmpty3(p)
  }

  // ---------------------------------------------------------------------------
  // How the counts grow with one more entry

  lemma CountsAppend(a: seq<Entry>, e: Entry)
    ensures forall d, q :: CountDQ(a + [e], d, q) == CountDQ(a, d, q) + Indicator(e.descriptor == d && e.qualifier == q)
    ensures forall d :: CountD(a + [e], d) == CountD(a, d) + Indicator(e.descriptor == d)
  {
    assert (a + [e])[..|a|] == a;
  }

  lemma CountsAppendAt(a: seq<Entry>, e: Entry, d: Descriptor, q: Qualifier)
    ensures CountDQ(a + [e], d, q) == CountDQ(a, d, q) + Indicator(e.descriptor == d && e.qualifier == q)
    ensures CountD(a + [e], d) == CountD(a, d) + Indicator(e.descriptor == d)
  {
    assert (a + [e])[..|a|] == a;
  }

  /** Appending an entry extends the sub-sequence of its own journal only. */
  lemma OfJournalAppend(a: seq<Entry>, e: Entry, j: Journal)
    ensures e.journal == j ==> OfJournal(a + [e], j) == OfJournal(a, j) + [e]
    ensures e.journal != j ==> OfJournal(a + [e], j) == OfJournal(a, j)
  {
    assert (a + [e])[..|a|] == a;
    assert OfJournal(a, j) + [] == OfJournal(a, j);
  }

  lemma JournalCountsAppendAt(a: seq<Entry>, e: Entry, j: Journal, d: Descriptor, q: Qualifier)
    ensures CountJDQ(a + [e], j, d, q)
            == CountJDQ(a, j, d, q) + Indicator(e.journal == j && e.descriptor == d && e.qualifier == q)
    ensures CountJD(a + [e], j, d) == CountJD(a, j, d) + Indicator(e.journal == j && e.descriptor == d)
  {
    assert (a + [e])[..|a|] == a;
    var before := OfJournal(a, j);
    if e.journal == j {
      assert OfJournal(a + [e], j) == before + [e];
      assert (before + [e])[..|before|] == before;
    } else {
      assert OfJournal(a + [e], j) == before;
    }
  }

  lemma JournalCountsAppend(a: seq<Entry>, e: Entry)
    ensures forall j, d, q :: CountJDQ(a + [e], j, d, q)
                              == CountJDQ(a, j, d, q) + Indicator(e.journal == j && e.descriptor == d && e.qualifier == q)
    ensures forall j, d :: CountJD(a + [e], j, d) == CountJD(a, j, d) + Indicator(e.journal == j && e.descriptor == d)
  {
    forall j, d, q
      ensures CountJDQ(a + [e], j, d, q)
              == CountJDQ(a, j, d, q) + Indicator(e.journal == j && e.descriptor == d && e.qualifier == q)
    {
      JournalCountsAppendAt(a, e, j, d, q);
    }
    forall j, d
      ensures CountJD(a + [e], j, d) == CountJD(a, j, d) + Indicator(e.journal == j && e.descriptor == d)
    {
      JournalCountsAppendAt(a, e, j, d, "");
    }
  }

  // ---------------------------------------------------------------------------
  // Key sets: a count is positive exactly when its pair occurs

  lemma {:induction false} CountPositiveIffOccurs(es: seq<Entry>, d: Descriptor, q: Qualifier)
    ensures CountDQ(es, d, q) > 0 <==> exists e :: e in es && e.descriptor == d && e.qualifier == q
    decreases |es|
  {
    if es != [] {
      var a, e := es[..|es| - 1], es[|es| - 1];
      assert es == a + [e];
      CountPositiveIffOccurs(a, d, q);
      CountsAppendAt(a, e, d, q);
    }
  }

  lemma JournalCountPositiveIffOccurs(es: seq<Entry>, j: Journal, d: Descriptor, q: Qualifier)
    ensures CountJDQ(es, j, d, q) > 0 <==> exists e :: e in es && e.journal == j && e.descriptor == d && e.qualifier == q
  {
    CountPositiveIffOccurs(OfJournal(es, j), d, q);
  }

  /** A group that only ever occurs with qualifier q has frequency 1 for q. */
  lemma {:induction false} OnlyQualifierFillsTotal(es: seq<Entry>, d: Descriptor, q: Qualifier)
    requires forall e :: e in es && e.descriptor == d ==> e.qualifier == q
    ensures CountDQ(es, d, q) == CountD(es, d)
    decreases |es|
  {
    if es != [] {
      var a, e := es[..|es| - 1], es[|es| - 1];
      assert es == a + [e];
      OnlyQualifierFillsTotal(a, d, q);
      CountsAppendAt(a, e, d, q);
    }
  }

  // ---------------------------------------------------------------------------
  // Group totals are sums of the per-qualifier counts

  /** The sum of CountDQ(es, d, q) over the qualifiers q listed in qs. */
  function SumOverQualifiers(es: seq<Entry>, d: Descriptor, qs: seq<Qualifier>): nat
    decreases |qs|
  {
    if qs == [] then 0
    else SumOverQualifiers(es, d, qs[..|qs| - 1]) + CountDQ(es, d, qs[|qs| - 1])
  }

  lemma {:induction false} SumOverQualifiersOfNothing(d: Descriptor, qs: seq<Qualifier>)
    ensures SumOverQualifiers([], d, qs) == 0
    decreases |qs|
  {
    if qs != [] {
      SumOverQualifiersOfNothing(d, qs[..|qs| - 1]);
    }
  }

  lemma {:induction false} SumOverQualifiersAppend(a: seq<Entry>, e: Entry, d: Descriptor, qs: seq<Qualifier>)
    requires NoDup(qs)
    ensures SumOverQualifiers(a + [e], d, qs)
            == SumOverQualifiers(a, d, qs) + Indicator(e.descriptor == d && e.qualifier in qs)
    decreases |qs|
  {
    if qs != [] {
      var init, x := qs[..|qs| - 1], qs[|qs| - 1];
      assert qs == init + [x];
      CountsAppendAt(a, e, d, x);
      SumOverQualifiersAppend(a, e, d, init);
      assert e.qualifier in qs <==> e.qualifier in init || e.qualifier == x;
      assert x !in init by {
        forall i | 0 <= i < |init| ensures init[i] != x {
          assert qs[i] == init[i] && qs[|qs| - 1] == x;
        }
      }
    }
  }

  /**
   * For every group, summing the per-qualifier counts over all its
   * qualifiers (listed once each) gives the group total.
   */
  lemma {:induction false} TotalIsSumOverQualifiers(es: seq<Entry>, d: Descriptor, qs: seq<Qualifier>)
    requires NoDup(qs)
    requires forall e :: e in es && e.descriptor == d ==> e.qualifier in qs
    ensures SumOverQualifiers(es, d, qs) == CountD(es, d)
    decreases |es|
  {
    if es == [] {
      SumOverQualifiersOfNothing(d, qs);
    } else {
      var a, e := es[..|es| - 1], es[|es| - 1];
      assert es == a + [e];
      TotalIsSumOverQualifiers(a, d, qs);
      SumOverQualifiersAppend(a, e, d, qs);
      CountsAppendAt(a, e, d, "");
    }
  }

  // ---------------------------------------------------------------------------
  // Refinement between the two grouping modes

  /** The sum of CountJDQ(es, j, d, q) over the journals j listed in js. */
  function SumOverJournals(es: seq<Entry>, js: seq<Journal>, d: Descriptor, q: Qualifier): nat
    decreases |js|
  {
    if js == [] then 0
    else SumOverJournals(es, js[..|js| - 1], d, q) + CountJDQ(es, js[|js| - 1], d, q)
  }

  /** The sum of CountJD(es, j, d) over the journals j listed in js. */
  function SumTotalsOverJournals(es: seq<Entry>, js: seq<Journal>, d: Descriptor): nat
    decreases |js|
  {
    if js == [] then 0
    else SumTotalsOverJournals(es, js[..|js| - 1], d) + CountJD(es, js[|js| - 1], d)
  }

  lemma {:induction false} SumOverJournalsOfNothing(js: seq<Journal>, d: Descriptor, q: Qualifier)
    ensures SumOverJournals([], js, d, q) == 0
    ensures SumTotalsOverJournals([], js, d) == 0
    decreases |js|
  {
    if js != [] {
      SumOverJournalsOfNothing(js[..|js| - 1], d, q);
    }
  }

  lemma {:induction false} SumOverJournalsAppend(a: seq<Entry>, e: Entry, js: seq<Journal>, d: Descriptor, q: Qualifier)
    requires NoDup(js)
    ensures SumOverJournals(a + [e], js, d, q)
            == SumOverJournals(a, js, d, q) + Indicator(e.journal in js && e.descriptor == d && e.qualifier == q)
    ensures SumTotalsOverJournals(a + [e], js, d)
            == SumTotalsOverJournals(a, js, d) + Indicator(e.journal in js && e.descriptor == d)
    decreases |js|
  {
    if js != [] {
      var init, x := js[..|js| - 1], js[|js| - 1];
      assert js == init + [x];
      JournalCountsAppendAt(a, e, x, d, q);
      SumOverJournalsAppend(a, e, init, d, q);
      assert e.journal in js <==> e.journal in init || e.journal == x;
      assert x !in init by {
        forall i | 0 <= i < |init| ensures init[i] != x {
          assert js[i] == init[i] && js[|js| - 1] == x;
        }
      }
    }
  }

  /**
   * Summing the journal-aware counts over every journal (listed once each)
   * gives the journal-agnostic counts, for the per-qualifier counters and
   * for the group totals alike.
   */
  lemma {:induction false} JournalCountsRefineDescriptorCounts(es: seq<Entry>, js: seq<Journal>, d: Descriptor, q: Qualifier)
    requires NoDup(js)
    requires forall e :: e in es ==> e.journal in js
    ensures SumOverJournals(es, js, d, q) == CountDQ(es, d, q)
    ensures SumTotalsOverJournals(es, js, d) == CountD(es, d)
    decreases |es|
  {
    if es == [] {
      SumOverJournalsOfNothing(js, d, q);
    } else {
      var a, e := es[..|es| - 1], es[|es| - 1];
      assert es == a + [e];
      JournalCountsRefineDescriptorCounts(a, js, d, q);
      SumOverJournalsAppend(a, e, js, d, q);
      CountsAppendAt(a, e, d, q);
    }
  }

  /** One journal's share of a count never exceeds the journal-agnostic count. */
  lemma {:induction false} JournalCountBelowDescriptorCount(es: seq<Entry>, j: Journal, d: Descriptor, q: Qualifier)
    ensures CountJDQ(es, j, d, q) <= CountDQ(es, d, q)
    ensures CountJD(es, j, d) <= CountD(es, d)
    decreases |es|
  {
    if es != [] {
      var a, e := es[..|es| - 1], es[|es| - 1];
      assert es == a + [e];
      JournalCountBelowDescriptorCount(a, j, d, q);
      JournalCountsAppendAt(a, e, j, d, q);
      CountsAppendAt(a, e, d, q);
    }
  }

  // ---------------------------------------------------------------------------
  // What the counters hold

  /**
   * After the journal-agnostic counting pass, critical_count[d][q] is the
   * number of entries with (d, q), descriptors_count[d] is the number with d,
   * a pair is keyed exactly when it occurs, and so count/total lies in (0, 1]
   * with a positive total for every keyed pair.
   */
  lemma CountersMatchEntries(cc: DescriptorMap, dc: Totals, es: seq<Entry>)
    requires Counted2(cc, dc, es)
    ensures forall d, q :: Has2(cc, d, q) <==> CountDQ(es, d, q) > 0
    ensures forall d, q :: Has2(cc, d, q) ==>
              && cc[d][q] == CountDQ(es, d, q)
              && d in dc && dc[d] == CountD(es, d)
              && 0 < cc[d][q] <= dc[d]
  {
    forall d, q ensures Has2(cc, d, q) <==> CountDQ(es, d, q) > 0 {
      assert Get2(cc, d, q) == CountDQ(es, d, q);
    }
    forall d, q | Has2(cc, d, q)
      ensures cc[d][q] == CountDQ(es, d, q) && d in dc && dc[d] == CountD(es, d) && 0 < cc[d][q] <= dc[d]
    {
      assert Get2(cc, d, q) == CountDQ(es, d, q);
      assert Get1(dc, d) == CountD(es, d);
    }
  }

  /**
   * After the journal-aware counting pass, critical_count[j][d][q] is the
   * number of entries with (j, d, q) and descriptors_count[j][d] the number
   * with (j, d); a triple is keyed exactly when it occurs, and every keyed
   * triple has 0 < count <= total.
   */
  lemma JournalCountersMatchEntries(cc: JournalMap, dc: JournalTotals, es: seq<Entry>)
    requires Counted3(cc, dc, es)
    ensures forall j, d, q :: Get3(cc, j, d, q) == CountJDQ(es, j, d, q)
    ensures forall j, d :: GetTotal2(dc, j, d) == CountJD(es, j, d)
    ensures forall j, d, q :: Has3(cc, j, d, q) <==> CountJDQ(es, j, d, q) > 0
    ensures forall j, d, q :: Has3(cc, j, d, q) ==>
              && j in dc && d in dc[j]
              && 0 < cc[j][d][q] <= dc[j][d]
  {
    forall j, d, q ensures Get3(cc, j, d, q) == CountJDQ(es, j, d, q) {
      assert Counted2(Inner(cc, j), InnerTotals(dc, j), OfJournal(es, j));
      assert Get2(Inner(cc, j), d, q) == CountDQ(OfJournal(es, j), d, q);
    }
    forall j, d ensures GetTotal2(dc, j, d) == CountJD(es, j, d) {
      assert Counted2(Inner(cc, j), InnerTotals(dc, j), OfJournal(es, j));
      assert Get1(InnerTotals(dc, j), d) == CountD(OfJournal(es, j), d);
    }
    forall j, d, q ensures Has3(cc, j, d, q) <==> CountJDQ(es, j, d, q) > 0 {
      CountersMatchEntries(Inner(cc, j), InnerTotals(dc, j), OfJournal(es, j));
    }
    forall j, d, q | Has3(cc, j, d, q) ensures j in dc && d in dc[j] && 0 < cc[j][d][q] <= dc[j][d] {
      CountersMatchEntries(Inner(cc, j), InnerTotals(dc, j), OfJournal(es, j));
    }
  }

  /** Every keyed journal-agnostic counter has a frequency in (0, 1], so no draw sees a zero total. */
  lemma CounterFrequencyIsProbability(cc: DescriptorMap, dc: Totals, es: seq<Entry>, d: Descriptor, q: Qualifier)
    requires Counted2(cc, dc, es) && Has2(cc, d, q)
    ensures d in dc && 0 < dc[d] && cc[d][q] <= dc[d]
    ensures 0.0 < Frequency(cc[d][q], dc[d]) <= 1.0
  {
    CountersMatchEntries(cc, dc, es);
  }

  /** Every keyed journal-aware counter has a frequency in (0, 1]. */
  lemma JournalCounterFrequencyIsProbability(cc: JournalMap, dc: JournalTotals, es: seq<Entry>, j: Journal, d: Descriptor, q: Qualifier)
    requires Counted3(cc, dc, es) && Has3(cc, j, d, q)
    ensures j in dc && d in dc[j] && 0 < dc[j][d] && cc[j][d][q] <= dc[j][d]
    ensures 0.0 < Frequency(cc[j][d][q], dc[j][d]) <= 1.0
  {
    JournalCountersMatchEntries(cc, dc, es);
  }

  /** The sum of m[q] over the qualifiers q listed in qs (0 for an absent key). */
  function SumOfValues(m: QualifierMap, qs: seq<Qualifier>): nat
    decreases |qs|
  {
    if qs == [] then 0
    else SumOfValues(m, qs[..|qs| - 1]) + (var q := qs[|qs| - 1]; if q in m then m[q] else 0)
  }

  lemma {:induction false} SumOfCountersIsSumOfCounts(cc: DescriptorMap, dc: Totals, es: seq<Entry>, d: Descriptor, qs: seq<Qualifier>)
    requires Counted2(cc, dc, es)
    requires d in cc
    ensures SumOfValues(cc[d], qs) == SumOverQualifiers(es, d, qs)
    decreases |qs|
  {
    if qs != [] {
      SumOfCountersIsSumOfCounts(cc, dc, es, d, qs[..|qs| - 1]);
      assert Get2(cc, d, qs[|qs| - 1]) == CountDQ(es, d, qs[|qs| - 1]);
    }
  }

  /**
   * For every group d, summing critical_count[d][q] over all its keys q
   * (listed once each) gives descriptors_count[d].
   */
  lemma CounterTotalIsSumOfCounters(cc: DescriptorMap, dc: Totals, es: seq<Entry>, d: Descriptor, qs: seq<Qualifier>)
    requires Counted2(cc, dc, es)
    requires d in cc
    requires NoDup(qs) && forall q :: q in qs <==> q in cc[d]
    ensures d in dc && SumOfValues(cc[d], qs) == dc[d]
  {
    CountersMatchEntries(cc, dc, es);
    SumOfCountersIsSumOfCounts(cc, dc, es, d, qs);
    forall e | e in es && e.descriptor == d ensures e.qualifier in qs {
      CountPositiveIffOccurs(es, d, e.qualifier);
    }
    TotalIsSumOverQualifiers(es, d, qs);
    var q :| q in cc[d];
    assert Has2(cc, d, q);
  }

  /** The journal-aware form: summing critical_count[j][d][q] over q gives descriptors_count[j][d]. */
  lemma JournalCounterTotalIsSumOfCounters(cc: JournalMap, dc: JournalTotals, es: seq<Entry>, j: Journal, d: Descriptor, qs: seq<Qualifier>)
    requires Counted3(cc, dc, es)
    requires j in cc && d in cc[j]
    requires NoDup(qs) && forall q :: q in qs <==> q in cc[j][d]
    ensures j in dc && d in dc[j] && SumOfValues(cc[j][d], qs) == dc[j][d]
  {
    assert Counted2(Inner(cc, j), InnerTotals(dc, j), OfJournal(es, j));
    CounterTotalIsSumOfCounters(Inner(cc, j), InnerTotals(dc, j), OfJournal(es, j), d, qs);
  }

  // ---------------------------------------------------------------------------
  // What the probability tables hold

  /** With a Bernoulli oracle every journal-agnostic table entry is 0 or 1. */
  lemma DescriptorTableEntriesAreBits(p: DescriptorMap, es: seq<Entry>, draw: Oracle)
    requires IsDescriptorTable(p, es, draw) && IsBernoulliOracle(draw)
    ensures forall d, q :: Has2(p, d, q) ==> p[d][q] == 0 || p[d][q] == 1
  {
  }

  /** With a Bernoulli oracle every journal-aware table entry is 0 or 1. */
  lemma JournalTableEntriesAreBits(p: JournalMap, es: seq<Entry>, draw: Oracle)
    requires IsJournalTable(p, es, draw) && IsBernoulliOracle(draw)
    ensures forall j, d, q :: Has3(p, j, d, q) ==> p[j][d][q] == 0 || p[j][d][q] == 1
  {
  }

  /** A descriptor that only ever occurs with qualifier q gets the entry 1 for q. */
  lemma DescriptorTableSingleQualifier(p: DescriptorMap, es: seq<Entry>, draw: Oracle, d: Descriptor, q: Qualifier)
    requires IsDescriptorTable(p, es, draw) && IsBernoulliOracle(draw)
    requires exists e :: e in es && e.descriptor == d
    requires forall e :: e in es && e.descriptor == d ==> e.qualifier == q
    ensures Has2(p, d, q) && p[d][q] == 1
  {
    OnlyQualifierFillsTotal(es, d, q);
    CountPositiveIffOccurs(es, d, q);
  }

  /** A (journal, descriptor) group that only ever occurs with qualifier q gets the entry 1 for q. */
  lemma JournalTableSingleQualifier(p: JournalMap, es: seq<Entry>, draw: Oracle, j: Journal, d: Descriptor, q: Qualifier)
    requires IsJournalTable(p, es, draw) && IsBernoulliOracle(draw)
    requires exists e :: e in es && e.journal == j && e.descriptor == d
    requires forall e :: e in es && e.journal == j && e.descriptor == d ==> e.qualifier == q
    ensures Has3(p, j, d, q) && p[j][d][q] == 1
  {
    OnlyQualifierFillsTotal(OfJournal(es, j), d, q);
    JournalCountPositiveIffOccurs(es, j, d, q);
  }

  /**
   * Built from the same entries, the journal-aware table splits each
   * journal-agnostic pair by journal: every (j, d, q) key has a (d, q) key,
   * every (d, q) key has at least one journal, and every entry's own
   * (journal, descriptor, qualifier) is keyed.
   */
  lemma JournalTableRefinesDescriptorTable(p3: JournalMap, p2: DescriptorMap, es: seq<Entry>, draw: Oracle)
    requires IsJournalTable(p3, es, draw) && IsDescriptorTable(p2, es, draw)
    ensures forall j, d, q :: Has3(p3, j, d, q) ==> Has2(p2, d, q)
    ensures forall d, q :: Has2(p2, d, q) ==> exists j :: Has3(p3, j, d, q)
    ensures forall e :: e in es ==> Has3(p3, e.journal, e.descriptor, e.qualifier)
  {
    forall j, d, q | Has3(p3, j, d, q) ensures Has2(p2, d, q) {
      JournalCountBelowDescriptorCount(es, j, d, q);
    }
    forall d, q | Has2(p2, d, q) ensures exists j :: Has3(p3, j, d, q) {
      CountPositiveIffOccurs(es, d, q);
      var e :| e in es && e.descriptor == d && e.qualifier == q;
      JournalCountPositiveIffOccurs(es, e.journal, d, q);
      assert Has3(p3, e.journal, d, q);
    }
    forall e | e in es ensures Has3(p3, e.journal, e.descriptor, e.qualifier) {
      JournalCountPositiveIffOccurs(es, e.journal, e.descriptor, e.qualifier);
    }
  }
}
