/**
 * The entities the pipeline passes around: the rows fetched from the citation
 * database, the records of the testing split, and the nested dictionaries that
 * hold the counters and the probability table.
 */
module Records {
  import opened Wrappers

  type Descriptor = string
  type Qualifier = string
  type Journal = int

  /** One fetched row: (descriptor_ui, qualifier_ui, journal, year). */
  datatype Entry = Entry(descriptor: Descriptor, qualifier: Qualifier, journal: Journal, year: int)

  /** The five-field row that the testing-set builder unpacks: (pmid, descriptor_ui, qualifier_ui, journal, year). */
  datatype Record5 = Record5(pmid: int, descriptor: Descriptor, qualifier: Qualifier, journal: Journal, year: int)

  /** A record of the testing split: (descriptor_ui, qualifier_ui, journal). */
  datatype TestRecord = TestRecord(descriptor: Descriptor, qualifier: Qualifier, journal: Journal)

  /** A list element as the dataset builder receives it: a tuple of four or of five fields. */
  datatype Row = Row4(entry: Entry) | Row5(record: Record5)

  /** Errors the source raises: a tuple of the wrong arity, or `list.index` of a missing value. */
  datatype Error = UnpackError(expected: nat, found: nat) | NotInList(qualifier: Qualifier)

  /** qualifier -> value */
  type QualifierMap = map<Qualifier, nat>
  /** descriptor -> qualifier -> value (journal-agnostic counters and table) */
  type DescriptorMap = map<Descriptor, QualifierMap>
  /** journal -> descriptor -> qualifier -> value (journal-aware counters and table) */
  type JournalMap = map<Journal, DescriptorMap>
  /** descriptor -> total */
  type Totals = map<Descriptor, nat>
  /** journal -> descriptor -> total */
  type JournalTotals = map<Journal, Totals>

  /** The table handed to the scorer; its key type depends on how it was built. */
  datatype ProbabilityTable = JournalTable(journals: JournalMap) | DescriptorTable(descriptors: DescriptorMap)

  predicate Has2(m: DescriptorMap, d: Descriptor, q: Qualifier)
  {
    d in m && q in m[d]
  }

  predicate Has3(m: JournalMap, j: Journal, d: Descriptor, q: Qualifier)
  {
    j in m && Has2(m[j], d, q)
  }

  /** The value under (d, q), or 0 when a key is missing. */
  function Get2(m: DescriptorMap, d: Descriptor, q: Qualifier): nat
  {
    if Has2(m, d, q) then m[d][q] else 0
  }

  /** The value under (j, d, q), or 0 when a key is missing. */
  function Get3(m: JournalMap, j: Journal, d: Descriptor, q: Qualifier): nat
  {
    if j in m then Get2(m[j], d, q) else 0
  }

  /** The inner dictionary of journal j, or an empty one when the journal is absent. */
  function Inner(m: JournalMap, j: Journal): DescriptorMap
  {
    if j in m then m[j] else map[]
  }

  function InnerTotals(t: JournalTotals, j: Journal): Totals
  {
    if j in t then t[j] else map[]
  }

  function Get1(t: Totals, d: Descriptor): nat
  {
    if d in t then t[d] else 0
  }

  function GetTotal2(t: JournalTotals, j: Journal, d: Descriptor): nat
  {
    if j in t then Get1(t[j], d) else 0
  }

  /** Every inner dictionary of a two-level map has at least one key. */
  predicate NoEmpty2(m: DescriptorMap)
  {
    forall d :: d in m ==> |m[d]| > 0
  }

  /** Every inner dictionary of a three-level map has at least one key. */
  predicate NoEmpty3(m: JournalMap)
  {
    forall j :: j in m ==> |m[j]| > 0 && NoEmpty2(m[j])
  }
}
