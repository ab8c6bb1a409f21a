/**
 * dummy/data.py: the row filter of fetch_data, the order-preserving split of
 * make_datasets, the two probability-table builders (a counting pass that
 * fills nested dictionaries in place, then one Bernoulli draw per observed
 * pair), and the testing-set projection.
 */
module Data {
  import opened Wrappers
  import opened Records
  import opened Counting

  // ---------------------------------------------------------------------------
  // fetch_data: keep the rows whose qualifier is critical

  /** The rows of `rows` whose qualifier is in `critical`, in their original order. */
  function FilterCritical(rows: seq<Entry>, critical: seq<Qualifier>): (r: seq<Entry>)
    ensures |r| <= |rows|
    ensures forall e :: e in r ==> e.qualifier in critical
    decreases |rows|
  {
    if rows == [] then []
    else
      var init, e := rows[..|rows| - 1], rows[|rows| - 1];
      assert rows == init + [e];
      FilterCritical(init, critical) + (if e.qualifier in critical then [e] else [])
  }

  /** Every row with a critical qualifier is kept as often as it occurs; no other row is kept. */
  lemma {:induction false} FilterCriticalMultiplicity(rows: seq<Entry>, critical: seq<Qualifier>, e: Entry)
    ensures multiset(FilterCritical(rows, critical))[e] == if e.qualifier in critical then multiset(rows)[e] else 0
    decreases |rows|
  {
    if rows != [] {
      var init, x := rows[..|rows| - 1], rows[|rows| - 1];
      assert rows == init + [x];
      FilterCriticalMultiplicity(init, critical, e);
    }
  }

  /** Filtering commutes with concatenation, so the kept rows stay in input order. */
  lemma {:induction false} FilterCriticalAppend(a: seq<Entry>, b: seq<Entry>, critical: seq<Qualifier>)
    ensures FilterCritical(a + b, critical) == FilterCritical(a, critical) + FilterCritical(b, critical)
    decreases |b|
  {
    if b == [] {
      assert a + b == a;
    } else {
      var init, e := b[..|b| - 1], b[|b| - 1];
      var tail := if e.qualifier in critical then [e] else [];
      var ab := a + b;
      assert ab[..|ab| - 1] == a + init && ab[|ab| - 1] == e;
      assert FilterCritical(ab, critical) == FilterCritical(a + init, critical) + tail;
      assert FilterCritical(b, critical) == FilterCritical(init, critical) + tail;
      FilterCriticalAppend(a, init, critical);
    }
  }

  // ---------------------------------------------------------------------------
  // make_datasets: split by position

  /** Python's int() of a float: truncation toward zero. */
  function Truncate(x: real): (k: int)
    ensures 0.0 <= x ==> k as real <= x < k as real + 1.0
    ensures x < 0.0 ==> k as real - 1.0 < x <= k as real
  {
    if 0.0 <= x then x.Floor else -((-x).Floor)
  }

  /** Where Python's slice index k falls in a list of length n: negative counts from the end, then clamped. */
  function SliceBound(k: int, n: nat): (b: nat)
    ensures b <= n
    ensures 0 <= k <= n ==> b == k
    ensures k < 0 && -k <= n ==> b == n + k
    ensures k > n ==> b == n
    ensures k < 0 && -k > n ==> b == 0
  {
    if k < 0 then (if n + k < 0 then 0 else n + k)
    else if k > n then n
    else k
  }

  /** The split position int(ratio * len(entries)), as the slice uses it. */
  function SplitIndex(ratio: real, n: nat): (k: nat)
    ensures k <= n
  {
    SliceBound(Truncate(ratio * n as real), n)
  }

  /** entries[:k] and entries[k:] with k = int(ratio * len(entries)). */
  function Split<T>(s: seq<T>, ratio: real): (r: (seq<T>, seq<T>))
    ensures r.0 + r.1 == s
    ensures |r.0| == SplitIndex(ratio, |s|)
  {
    var k := SplitIndex(ratio, |s|);
    (s[..k], s[k..])
  }

  /** For a ratio in [0, 1] the training part has floor(ratio * N) entries. */
  lemma SplitIndexIsFloor(ratio: real, n: nat)
    requires 0.0 <= ratio <= 1.0
    ensures SplitIndex(ratio, n) == (ratio * n as real).Floor
  {
    var x := ratio * n as real;
    assert 0.0 <= x by {
      assert 0.0 * n as real <= ratio * n as real;
    }
    assert x <= n as real by {
      assert ratio * n as real <= 1.0 * n as real;
    }
    assert x.Floor <= n;
  }

  /** The `for descriptor_ui, qualifier_ui, journal, year in entries` unpacking: fails on a five-field row. */
  function UnpackEntries(rows: seq<Row>): (r: Result<seq<Entry>, Error>)
    ensures r.Success? <==> forall i :: 0 <= i < |rows| ==> rows[i].Row4?
    ensures r.Success? ==> |r.value| == |rows| && forall i :: 0 <= i < |rows| ==> r.value[i] == rows[i].entry
    ensures r.Failure? ==> r.error == UnpackError(4, 5)
    decreases |rows|
  {
    if rows == [] then Success([])
    else
      match UnpackEntries(rows[..|rows| - 1])
      case Failure(err) => Failure(err)
      case Success(init) =>
        match rows[|rows| - 1]
        case Row4(e) => Success(init + [e])
        case Row5(_) => Failure(UnpackError(4, 5))
  }

  /** The `for pmid, descriptor_ui, qualifier_ui, journal, year in entries` unpacking: fails on a four-field row. */
  function UnpackRecords(rows: seq<Row>): (r: Result<seq<Record5>, Error>)
    ensures r.Success? <==> forall i :: 0 <= i < |rows| ==> rows[i].Row5?
    ensures r.Success? ==> |r.value| == |rows| && forall i :: 0 <= i < |rows| ==> r.value[i] == rows[i].record
    ensures r.Failure? ==> r.error == UnpackError(5, 4)
    decreases |rows|
  {
    if rows == [] then Success([])
    else
      match UnpackRecords(rows[..|rows| - 1])
      case Failure(err) => Failure(err)
      case Success(init) =>
        match rows[|rows| - 1]
        case Row5(rec) => Success(init + [rec])
        case Row4(_) => Failure(UnpackError(5, 4))
  }

  /**
   * fetch_data returns four-field rows; whenever the testing part of such a
   * list is non-empty, its five-field unpacking fails, so make_datasets
   * cannot complete on freshly fetched data.
   */
  lemma FetchedRowsCannotBeSplit(rows: seq<Row>, ratio: real)
    requires forall i :: 0 <= i < |rows| ==> rows[i].Row4?
    requires SplitIndex(ratio, |rows|) < |rows|
    ensures UnpackEntries(Split(rows, ratio).0).Success?
    ensures UnpackRecords(Split(rows, ratio).1) == Failure(UnpackError(5, 4))
  {
    var (train, test) := Split(rows, ratio);
    var k := SplitIndex(ratio, |rows|);
    assert test[0] == rows[k];
    forall i | 0 <= i < |train| ensures train[i].Row4? {
      assert train[i] == rows[i];
    }
  }

  // ---------------------------------------------------------------------------
  // The counting pass

  /**
   * The effect of counting one entry (d, q) on the journal-agnostic counters:
   * critical_count[d][q] and descriptors_count[d] go up by one, the keys d and
   * (d, q) are present afterwards, and nothing else changes.
   */
  ghost predicate Tallied(cc: DescriptorMap, dc: Totals, d: Descriptor, q: Qualifier, cc': DescriptorMap, dc': Totals)
  {
    && (forall d', q' :: Get2(cc', d', q') == Get2(cc, d', q') + Indicator(d' == d && q' == q))
    && (forall d' :: Get1(dc', d') == Get1(dc, d') + Indicator(d' == d))
    && (forall d', q' :: Has2(cc', d', q') <==> Has2(cc, d', q') || (d' == d && q' == q))
    && cc'.Keys == cc.Keys + {d}
    && dc'.Keys == dc.Keys + {d}
  }

  /** The journal-agnostic update for one entry, creating absent keys with count 1. */
  method Tally(cc: DescriptorMap, dc: Totals, d: Descriptor, q: Qualifier) returns (cc': DescriptorMap, dc': Totals)
    ensures Tallied(cc, dc, d, q, cc', dc')
  {
    cc' := cc;
    if d in cc' {
      if q in cc'[d] {
        cc' := cc'[d := cc'[d][q := cc'[d][q] + 1]];
      } else {
        cc' := cc'[d := cc'[d][q := 1]];
      }
    } else {
      cc' := cc'[d := map[q := 1]];
    }
    dc' := dc;
    if d in dc' {
      dc' := dc'[d := dc'[d] + 1];
    } else {
      dc' := dc'[d := 1];
    }
  }

  /** Counting one more entry keeps the counters in step with the entries. */
  lemma TallyKeepsCounted(cc: DescriptorMap, dc: Totals, es: seq<Entry>, e: Entry, cc': DescriptorMap, dc': Totals)
    requires Counted2(cc, dc, es)
    requires Tallied(cc, dc, e.descriptor, e.qualifier, cc', dc')
    ensures Counted2(cc', dc', es + [e])
  {
    forall d, q ensures Get2(cc', d, q) == CountDQ(es + [e], d, q) {
      CountsAppendAt(es, e, d, q);
    }
    forall d ensures Get1(dc', d) == CountD(es + [e], d) {
      CountsAppendAt(es, e, d, "");
    }
    forall d, q | Has2(cc', d, q) ensures cc'[d][q] > 0 {
      assert Get2(cc', d, q) == Get2(cc, d, q) + Indicator(d == e.descriptor && q == e.qualifier);
    }
    forall d | d in dc' ensures dc'[d] > 0 {
      assert Get1(dc', d) == Get1(dc, d) + Indicator(d == e.descriptor);
    }
    forall d | d in cc' ensures cc'[d] != map[] {
      if d == e.descriptor {
        assert Has2(cc', d, e.qualifier);
      } else {
        var q :| q in cc[d];
        assert Has2(cc, d, q);
        assert Has2(cc', d, q);
      }
    }
  }

  /** The journal-agnostic update for one entry, which keeps the counters in step with the entries. */
  method TallyEntry(cc: DescriptorMap, dc: Totals, e: Entry, ghost es: seq<Entry>) returns (cc': DescriptorMap, dc': Totals)
    requires Counted2(cc, dc, es)
    ensures Counted2(cc', dc', es + [e])
  {
    cc', dc' := Tally(cc, dc, e.descriptor, e.qualifier);
    TallyKeepsCounted(cc, dc, es, e, cc', dc');
  }

  /** The counting loop of make_probabilities_without_journals. */
  method CountWithoutJournals(entries: seq<Entry>) returns (cc: DescriptorMap, dc: Totals)
    ensures Counted2(cc, dc, entries)
  {
    cc, dc := map[], map[];
    var i := 0;
    ghost var counted: seq<Entry> := [];
    while i < |entries|
      invariant 0 <= i <= |entries|
      invariant counted == entries[..i]
      invariant Counted2(cc, dc, counted)
    {
      cc, dc := TallyEntry(cc, dc, entries[i], counted);
      counted := counted + [entries[i]];
      i := i + 1;
    }
    assert counted == entries;
  }

  /** Counting one more entry under its journal keeps the journal-aware counters in step. */
  lemma JournalTallyKeepsCounted(cc: JournalMap, dc: JournalTotals, es: seq<Entry>, e: Entry,
                                 inner: DescriptorMap, innerTotals: Totals, es': seq<Entry>)
    requires Counted3(cc, dc, es) && es' == es + [e]
    requires Tallied(Inner(cc, e.journal), InnerTotals(dc, e.journal), e.descriptor, e.qualifier, inner, innerTotals)
    ensures Counted3(cc[e.journal := inner], dc[e.journal := innerTotals], es')
  {
    JournalTallyKeepsEveryJournal(cc, dc, es, e, inner, innerTotals, es');
    assert e.descriptor in inner && e.descriptor in innerTotals;
  }

  /** The per-journal part of JournalTallyKeepsCounted, for every journal at once. */
  lemma JournalTallyKeepsEveryJournal(cc: JournalMap, dc: JournalTotals, es: seq<Entry>, e: Entry,
                                      inner: DescriptorMap, innerTotals: Totals, es': seq<Entry>)
    requires Counted3(cc, dc, es) && es' == es + [e]
    requires Tallied(Inner(cc, e.journal), InnerTotals(dc, e.journal), e.descriptor, e.qualifier, inner, innerTotals)
    ensures forall j :: Counted2(Inner(cc[e.journal := inner], j), InnerTotals(dc[e.journal := innerTotals], j), OfJournal(es', j))
  {
    forall j ensures Counted2(Inner(cc[e.journal := inner], j), InnerTotals(dc[e.journal := innerTotals], j), OfJournal(es', j)) {
      JournalTallyKeepsCountedAt(cc, dc, es, e, inner, innerTotals, j);
    }
  }

  /** The step of JournalTallyKeepsCounted for one journal j. */
  lemma JournalTallyKeepsCountedAt(cc: JournalMap, dc: JournalTotals, es: seq<Entry>, e: Entry,
                                   inner: DescriptorMap, innerTotals: Totals, j: Journal)
    requires Counted2(Inner(cc, j), InnerTotals(dc, j), OfJournal(es, j))
    requires Tallied(Inner(cc, e.journal), InnerTotals(dc, e.journal), e.descriptor, e.qualifier, inner, innerTotals)
    ensures Counted2(Inner(cc[e.journal := inner], j), InnerTotals(dc[e.journal := innerTotals], j), OfJournal(es + [e], j))
  {
    OfJournalAppend(es, e, j);
    if j == e.journal {
      TallyKeepsCounted(Inner(cc, j), InnerTotals(dc, j), OfJournal(es, j), e, inner, innerTotals);
      SameCounted(inner, innerTotals, OfJournal(es, j) + [e],
                  Inner(cc[e.journal := inner], j), InnerTotals(dc[e.journal := innerTotals], j), OfJournal(es + [e], j));
    } else {
      SameCounted(Inner(cc, j), InnerTotals(dc, j), OfJournal(es, j),
                  Inner(cc[e.journal := inner], j), InnerTotals(dc[e.journal := innerTotals], j), OfJournal(es + [e], j));
    }
  }

  /** Counted2 transported along equalities, kept apart so the solver need not unfold it. */
  lemma SameCounted(cc: DescriptorMap, dc: Totals, es: seq<Entry>, cc': DescriptorMap, dc': Totals, es': seq<Entry>)
    requires Counted2(cc, dc, es) && cc' == cc && dc' == dc && es' == es
    ensures Counted2(cc', dc', es')
  {
  }

  /** The counting loop of make_probabilities_with_journals. */
  method CountWithJournals(entries: seq<Entry>) returns (cc: JournalMap, dc: JournalTotals)
    ensures Counted3(cc, dc, entries)
  {
    cc, dc := map[], map[];
    var i := 0;
    ghost var counted: seq<Entry> := [];
    NothingCounted3(counted);
    while i < |entries|
      invariant 0 <= i <= |entries|
      invariant counted == entries[..i]
      invariant Counted3(cc, dc, counted)
    {
      cc, dc := TallyJournal(cc, dc, entries[i], counted);
      counted := counted + [entries[i]];
      i := i + 1;
    }
    assert counted == entries;
  }

  /**
   * The journal-aware update for one entry: the journal's inner dictionaries
   * (created empty when the journal is new) get the journal-agnostic update.
   */
  method TallyJournal(cc: JournalMap, dc: JournalTotals, e: Entry, ghost es: seq<Entry>)
    returns (cc': JournalMap, dc': JournalTotals)
    requires Counted3(cc, dc, es)
    ensures Counted3(cc', dc', es + [e])
  {
    var j := e.journal;
    var inner, innerTotals := Tally(Inner(cc, j), InnerTotals(dc, j), e.descriptor, e.qualifier);
    JournalTallyKeepsCounted(cc, dc, es, e, inner, innerTotals, es + [e]);
    cc' := cc[j := inner];
    dc' := dc[j := innerTotals];
  }

  /** Before any entry is counted the empty journal-aware counters are in step. */
  lemma NothingCounted3(es: seq<Entry>)
    requires es == []
    ensures Counted3(map[], map[], es)
  {
    forall j ensures Counted2(Inner(map[], j), InnerTotals(map[], j), OfJournal(es, j)) {
      assert OfJournal(es, j) == [];
    }
  }

  // ---------------------------------------------------------------------------
  // The drawing pass

  /**
   * The innermost loop of the drawing pass for one descriptor: one draw per
   * qualifier with success probability count / total.
   */
  method DrawQualifiers(counts: QualifierMap, total: nat, draw: Oracle) returns (row: QualifierMap)
    ensures row.Keys == counts.Keys
    ensures forall q :: q in counts ==> row[q] == draw(counts[q], total)
  {
    row := map[];
    var pending := counts.Keys;
    while pending != {}
      invariant pending <= counts.Keys
      invariant row.Keys == counts.Keys - pending
      invariant forall q :: q in row ==> row[q] == draw(counts[q], total)
      decreases pending
    {
      var q :| q in pending;
      row := row[q := draw(counts[q], total)];
      pending := pending - {q};
    }
  }

  /**
   * The second loop of make_probabilities_without_journals: one draw per
   * counted (descriptor, qualifier) pair with success probability
   * critical_count[d][q] / descriptors_count[d], stored under the same keys.
   * A descriptor is keyed as soon as its first qualifier is drawn, so it
   * appears exactly when it has a qualifier.
   */
  method DrawWithoutJournals(cc: DescriptorMap, dc: Totals, draw: Oracle) returns (p: DescriptorMap)
    requires forall d :: d in cc ==> d in dc && 0 < dc[d]
    ensures forall d, q :: Has2(p, d, q) ==> Has2(cc, d, q)
    ensures forall d, q :: Has2(cc, d, q) ==> Has2(p, d, q) && p[d][q] == draw(cc[d][q], dc[d])
    ensures NoEmpty2(p)
  {
    p := map[];
    var pendingDescriptors := cc.Keys;
    while pendingDescriptors != {}
      invariant pendingDescriptors <= cc.Keys
      invariant forall d, q :: Has2(p, d, q) ==> Has2(cc, d, q) && d !in pendingDescriptors
      invariant forall d, q :: Has2(cc, d, q) && d !in pendingDescriptors ==>
                  Has2(p, d, q) && p[d][q] == draw(cc[d][q], dc[d])
      invariant NoEmpty2(p)
      decreases pendingDescriptors
    {
      var d :| d in pendingDescriptors;
      var row := DrawQualifiers(cc[d], dc[d], draw);
      if row != map[] {
        p := p[d := row];
      }
      pendingDescriptors := pendingDescriptors - {d};
    }
  }

  /** Every counted descriptor of every journal has a positive total. */
  ghost predicate Drawable3(cc: JournalMap, dc: JournalTotals)
  {
    forall j, d :: j in cc && d in cc[j] ==> j in dc && d in dc[j] && 0 < dc[j][d]
  }

  /** p holds the draws for exactly the counted triples of the journals in done. */
  ghost predicate DrawnFor(p: JournalMap, cc: JournalMap, dc: JournalTotals, draw: Oracle, done: set<Journal>)
    requires Drawable3(cc, dc)
  {
    && (forall j, d, q :: Has3(p, j, d, q) ==> Has3(cc, j, d, q) && j in done)
    && (forall j, d, q :: Has3(cc, j, d, q) && j in done ==>
          Has3(p, j, d, q) && p[j][d][q] == draw(cc[j][d][q], dc[j][d]))
    && NoEmpty3(p)
  }

  /** The three parts of DrawnFor, put together. */
  lemma DrawnForIntro(p: JournalMap, cc: JournalMap, dc: JournalTotals, draw: Oracle, done: set<Journal>)
    requires Drawable3(cc, dc)
    requires forall j, d, q :: Has3(p, j, d, q) ==> Has3(cc, j, d, q) && j in done
    requires forall j, d, q :: Has3(cc, j, d, q) && j in done ==>
               Has3(p, j, d, q) && p[j][d][q] == draw(cc[j][d][q], dc[j][d])
    requires NoEmpty3(p)
    ensures DrawnFor(p, cc, dc, draw, done)
  {
  }

  /** Installing one journal's non-empty drawn inner table extends the journals done by that journal. */
  lemma InstallJournal(p: JournalMap, cc: JournalMap, dc: JournalTotals, draw: Oracle, done: set<Journal>,
                       j: Journal, inner: DescriptorMap)
    requires Drawable3(cc, dc) && DrawnFor(p, cc, dc, draw, done)
    requires j in cc && inner != map[]
    requires forall d, q :: Has2(inner, d, q) ==> Has2(cc[j], d, q)
    requires forall d, q :: Has2(cc[j], d, q) ==>
               Has2(inner, d, q) && inner[d][q] == draw(cc[j][d][q], InnerTotals(dc, j)[d])
    requires NoEmpty2(inner)
    ensures DrawnFor(p[j := inner], cc, dc, draw, done + {j})
  {
    InstallKeepsSound(p, cc, dc, draw, done, j, inner);
    InstallCompletes(p, cc, dc, draw, done, j, inner);
    InstallKeepsNonEmpty(p, j, inner);
    DrawnForIntro(p[j := inner], cc, dc, draw, done + {j});
  }

  /** A journal whose drawn inner table is empty had no counted pair, so skipping it completes it. */
  lemma SkipJournal(p: JournalMap, cc: JournalMap, dc: JournalTotals, draw: Oracle, done: set<Journal>,
                    j: Journal, inner: DescriptorMap)
    requires Drawable3(cc, dc) && DrawnFor(p, cc, dc, draw, done)
    requires j in cc && inner == map[]
    requires forall d, q :: Has2(cc[j], d, q) ==> Has2(inner, d, q)
    ensures DrawnFor(p, cc, dc, draw, done + {j})
  {
    forall d, q | Has3(cc, j, d, q) ensures false {
    }
  }

  /** Installing a non-empty inner table with no empty row keeps every row of the table non-empty. */
  lemma InstallKeepsNonEmpty(p: JournalMap, j: Journal, inner: DescriptorMap)
    requires NoEmpty3(p) && inner != map[] && NoEmpty2(inner)
    ensures NoEmpty3(p[j := inner])
  {
    var d :| d in inner;
  }

  /** After installing j, every drawn triple is a counted triple of a journal done. */
  lemma InstallKeepsSound(p: JournalMap, cc: JournalMap, dc: JournalTotals, draw: Oracle, done: set<Journal>,
                          j: Journal, inner: DescriptorMap)
    requires Drawable3(cc, dc) && DrawnFor(p, cc, dc, draw, done)
    requires j in cc
    requires forall d, q :: Has2(inner, d, q) ==> Has2(cc[j], d, q)
    ensures forall j', d, q :: Has3(p[j := inner], j', d, q) ==> Has3(cc, j', d, q) && j' in done + {j}
  {
    var p' := p[j := inner];
    forall j', d, q | Has3(p', j', d, q) ensures Has3(cc, j', d, q) && j' in done + {j} {
      if j' != j {
        assert Has3(p, j', d, q);
      }
    }
  }

  /** After installing j, every counted triple of a journal done carries its draw. */
  lemma InstallCompletes(p: JournalMap, cc: JournalMap, dc: JournalTotals, draw: Oracle, done: set<Journal>,
                         j: Journal, inner: DescriptorMap)
    requires Drawable3(cc, dc) && DrawnFor(p, cc, dc, draw, done)
    requires j in cc
    requires forall d, q :: Has2(cc[j], d, q) ==>
               Has2(inner, d, q) && inner[d][q] == draw(cc[j][d][q], InnerTotals(dc, j)[d])
    ensures forall j', d, q :: Has3(cc, j', d, q) && j' in done + {j} ==>
              Has3(p[j := inner], j', d, q) && p[j := inner][j'][d][q] == draw(cc[j'][d][q], dc[j'][d])
  {
    var p' := p[j := inner];
    forall j', d, q | Has3(cc, j', d, q) && j' in done + {j}
      ensures Has3(p', j', d, q) && p'[j'][d][q] == draw(cc[j'][d][q], dc[j'][d])
    {
      if j' == j {
        assert Has2(cc[j], d, q);
      } else {
        assert Has3(p, j', d, q);
      }
    }
  }

  /**
   * The second loop of make_probabilities_with_journals. For each journal the
   * inner two loops are the journal-agnostic second loop on that journal's
   * counters; the journal is keyed as soon as one of its pairs is drawn, so it
   * appears exactly when its inner table is non-empty.
   */
  method DrawWithJournals(cc: JournalMap, dc: JournalTotals, draw: Oracle) returns (p: JournalMap)
    requires Drawable3(cc, dc)
    ensures forall j, d, q :: Has3(p, j, d, q) ==> Has3(cc, j, d, q)
    ensures forall j, d, q :: Has3(cc, j, d, q) ==> Has3(p, j, d, q) && p[j][d][q] == draw(cc[j][d][q], dc[j][d])
    ensures NoEmpty3(p)
  {
    p := map[];
    var pendingJournals := cc.Keys;
    while pendingJournals != {}
      invariant pendingJournals <= cc.Keys
      invariant DrawnFor(p, cc, dc, draw, cc.Keys - pendingJournals)
      decreases pendingJournals
    {
      var j := PickJournal(pendingJournals);
      ghost var done := cc.Keys - pendingJournals;
      p := DrawJournal(p, cc, dc, draw, done, j);
      pendingJournals := pendingJournals - {j};
      assert cc.Keys - pendingJournals == done + {j};
    }
    DrawnForAll(p, cc, dc, draw);
  }

  /**
   * One iteration of the outer loop of the second pass: journal j's counters
   * are drawn, and its inner table is keyed under j when it is non-empty.
   */
  method DrawJournal(p: JournalMap, cc: JournalMap, dc: JournalTotals, draw: Oracle, ghost done: set<Journal>, j: Journal)
    returns (p': JournalMap)
    requires Drawable3(cc, dc) && DrawnFor(p, cc, dc, draw, done) && j in cc
    ensures DrawnFor(p', cc, dc, draw, done + {j})
  {
    DrawableInner(cc, dc, j);
    var inner := DrawWithoutJournals(cc[j], InnerTotals(dc, j), draw);
    if inner != map[] {
      InstallJournal(p, cc, dc, draw, done, j, inner);
      p' := p[j := inner];
    } else {
      SkipJournal(p, cc, dc, draw, done, j, inner);
      p' := p;
    }
  }

  /** Some journal of a non-empty set; which one is left open, as dictionary order is. */
  method PickJournal(s: set<Journal>) returns (j: Journal)
    requires s != {}
    ensures j in s
  {
    assert exists x :: x in s by {
      if forall x :: x !in s {
        assert false;
      }
    }
    j :| j in s;
  }

  /** The inner counters of one journal meet the first pass's requirement on its totals. */
  lemma DrawableInner(cc: JournalMap, dc: JournalTotals, j: Journal)
    requires Drawable3(cc, dc) && j in cc
    ensures forall d :: d in cc[j] ==> d in InnerTotals(dc, j) && 0 < InnerTotals(dc, j)[d]
  {
  }

  /** Once every journal is done, the table holds exactly the draws of all counted triples. */
  lemma DrawnForAll(p: JournalMap, cc: JournalMap, dc: JournalTotals, draw: Oracle)
    requires Drawable3(cc, dc) && DrawnFor(p, cc, dc, draw, cc.Keys)
    ensures forall j, d, q :: Has3(p, j, d, q) ==> Has3(cc, j, d, q)
    ensures forall j, d, q :: Has3(cc, j, d, q) ==> Has3(p, j, d, q) && p[j][d][q] == draw(cc[j][d][q], dc[j][d])
    ensures NoEmpty3(p)
  {
  }

  // ---------------------------------------------------------------------------
  // The two table builders

  /** make_probabilities_without_journals: descriptor -> qualifier -> 0/1 draw. */
  method MakeProbabilitiesWithoutJournals(entries: seq<Entry>, draw: Oracle) returns (p: DescriptorMap)
    ensures IsDescriptorTable(p, entries, draw)
  {
    var cc, dc := CountWithoutJournals(entries);
    CountersMatchEntries(cc, dc, entries);
    p := DrawWithoutJournals(cc, dc, draw);
  }

  /** make_probabilities_with_journals: journal -> descriptor -> qualifier -> 0/1 draw. */
  method MakeProbabilitiesWithJournals(entries: seq<Entry>, draw: Oracle) returns (p: JournalMap)
    ensures IsJournalTable(p, entries, draw)
  {
    var cc, dc := CountWithJournals(entries);
    JournalCountersMatchEntries(cc, dc, entries);
    p := DrawWithJournals(cc, dc, draw);
  }

  /** make_training_dataset: always the journal-aware builder, whatever mode the caller runs in. */
  method MakeTrainingDataset(entries: seq<Entry>, draw: Oracle) returns (p: JournalMap)
    ensures IsJournalTable(p, entries, draw)
  {
    p := MakeProbabilitiesWithJournals(entries, draw);
  }

  /** The testing record of a five-field row. */
  function Project(r: Record5): TestRecord
  {
    TestRecord(r.descriptor, r.qualifier, r.journal)
  }

  /** make_testing_dataset: (descriptor_ui, qualifier_ui, journal) of each row, in order. */
  method MakeTestingDataset(records: seq<Record5>) returns (dataset: seq<TestRecord>)
    ensures |dataset| == |records|
    ensures forall i :: 0 <= i < |records| ==>
              dataset[i] == TestRecord(records[i].descriptor, records[i].qualifier, records[i].journal)
  {
    dataset := [];
    var i := 0;
    while i < |records|
      invariant 0 <= i <= |records|
      invariant |dataset| == i
      invariant forall k :: 0 <= k < i ==> dataset[k] == Project(records[k])
    {
      dataset := dataset + [Project(records[i])];
      i := i + 1;
    }
  }

  /**
   * make_datasets without the file writes: the first int(ratio * N) rows
   * build the (journal-aware) probability table and the rest the testing
   * records. The training rows are unpacked as four fields and the testing
   * rows as five, and either unpacking failing aborts the call.
   */
  method MakeDatasets(rows: seq<Row>, ratio: real, draw: Oracle) returns (r: Result<(JournalMap, seq<TestRecord>), Error>)
    ensures var (train, test) := Split(rows, ratio);
            && (r.Success? <==> UnpackEntries(train).Success? && UnpackRecords(test).Success?)
            && (UnpackEntries(train).Failure? ==> r == Failure(UnpackError(4, 5)))
            && (UnpackEntries(train).Success? && UnpackRecords(test).Failure? ==> r == Failure(UnpackError(5, 4)))
            && (r.Success? ==>
                  && IsJournalTable(r.value.0, UnpackEntries(train).value, draw)
                  && |r.value.1| == |test|
                  && forall i :: 0 <= i < |test| ==> r.value.1[i] == Project(test[i].record))
  {
    var (train, test) := Split(rows, ratio);
    var trainEntries := UnpackEntries(train);
    if trainEntries.Failure? {
      return Failure(trainEntries.error);
    }
    var training := MakeTrainingDataset(trainEntries.value, draw);
    var testRecords := UnpackRecords(test);
    if testRecords.Failure? {
      return Failure(testRecords.error);
    }
    var testing := MakeTestingDataset(testRecords.value);
    r := Success((training, testing));
  }
}
