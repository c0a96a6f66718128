/**
 * How the three unbalanced journal-entry reports relate to one another.
 *
 * PySpark and Dask apply the same line filter and test the same rounded
 * magnitude, but break ties differently: PySpark rounds half a cent up,
 * pandas rounds it to even. They report the same lines unless some journal
 * totals exactly half a cent. Polars drops only lines within its epsilon of
 * zero and flags any total beyond that epsilon, so a journal whose total is
 * under half a cent but above the epsilon is reported by Polars alone.
 * Because Polars drops near-zero lines before totalling, it can also report a
 * journal whose lines sum to zero, which PySpark and Dask never do.
 */
module EngineComparison {
  import opened Money
  import opened Sorting
  import opened Relational
  import opened Ledger
  import opened Unbalanced
  import PolarsUnbalanced
  import SparkUnbalanced
  import DaskUnbalanced

  /**
   * PySpark and Dask report the same lines, each sorted by (journal, line),
   * unless some journal totals exactly half a cent in magnitude: there the
   * two tie rules part (see `HalfCentJournalDivergence`).
   */
  lemma SparkDaskSameLines(gl: seq<GlLine>)
    requires forall id :: Abs(JournalTotal(gl, DropExactZero, id)) != 0.005
    ensures multiset(SparkUnbalanced.UnbalancedTest(gl)) == multiset(DaskUnbalanced.UnbalancedTest(gl))
    ensures Sorted(SparkUnbalanced.UnbalancedTest(gl), ReportKey) && Sorted(DaskUnbalanced.UnbalancedTest(gl), ReportKey)
  {
    var up := Both(KeepsLine(DropExactZero), JournalFlagged(gl, DropExactZero, RoundedAbsPositive));
    var even := Both(KeepsLine(DropExactZero), JournalFlagged(gl, DropExactZero, RoundedEvenAbsPositive));
    forall i | 0 <= i < |gl|
      ensures up(gl[i]) == even(gl[i])
    {
      RoundedTestThresholds(JournalTotal(gl, DropExactZero, gl[i].journalId));
    }
    FilterCongruent(gl, up, even);
  }

  /** A one-line journal with a nonzero amount totals to that amount once exact zeros are dropped. */
  lemma OneLineTotal(l: GlLine)
    requires l.localAmount != 0.0
    ensures JournalTotal([l], DropExactZero, l.journalId) == l.localAmount
  {
    ZeroLinesIrrelevant([l], l.journalId);
    assert [l][..0] == [];
  }

  /** A report of a one-line journal whose total the balance test does not flag is empty. */
  lemma UnflaggedOneLineJournal(out: seq<ReportLine>, l: GlLine, f: LineFilter, t: BalanceTest)
    requires IsUnbalancedReport(out, [l], f, t)
    requires !Flags(t, JournalTotal([l], f, l.journalId))
    ensures out == []
  {
    var gl := [l];
    var selects := Both(KeepsLine(f), JournalFlagged(gl, f, t));
    assert !selects(gl[|gl| - 1]);
    assert Filter(gl, selects) == Filter([], selects);
    assert |multiset(out)| == 0;
  }

  /** A one-line journal of a tenth of a cent. */
  const TinyLine: GlLine := GlLine("BU1", "D1", "2024", "1", "2024-01-31", "4000", 0.001, "BU1-D1-2024")

  /**
   * The journal made of `TinyLine` alone is out of balance for Polars
   * (0.001 is beyond its epsilon) and balanced for PySpark and Dask (0.001
   * rounds to zero cents under either tie rule).
   */
  lemma TinyJournalDivergence()
    ensures ReportLineOf(TinyLine) in PolarsUnbalanced.UnbalancedJournalEntriesTest([TinyLine])
    ensures SparkUnbalanced.UnbalancedTest([TinyLine]) == []
    ensures DaskUnbalanced.UnbalancedTest([TinyLine]) == []
  {
    PolarsUnbalanced.SingleLineJournalReported([TinyLine], 0);
    OneLineTotal(TinyLine);
    RoundedTestThresholds(0.001);
    UnflaggedOneLineJournal(SparkUnbalanced.UnbalancedTest([TinyLine]), TinyLine, DropExactZero, RoundedAbsPositive);
    UnflaggedOneLineJournal(DaskUnbalanced.UnbalancedTest([TinyLine]), TinyLine, DropExactZero, RoundedEvenAbsPositive);
  }

  /** A one-line journal of exactly half a cent. */
  const HalfCentLine: GlLine := GlLine("BU1", "D2", "2024", "1", "2024-01-31", "4000", 0.005, "BU1-D2-2024")

  /**
   * The journal made of `HalfCentLine` alone is reported by PySpark, whose
   * `round` takes half a cent up to a cent, and not by Dask, whose `round`
   * takes it to the even zero cents.
   */
  lemma HalfCentJournalDivergence()
    ensures ReportLineOf(HalfCentLine) in SparkUnbalanced.UnbalancedTest([HalfCentLine])
    ensures DaskUnbalanced.UnbalancedTest([HalfCentLine]) == []
  {
    var gl := [HalfCentLine];
    OneLineTotal(HalfCentLine);
    RoundedTestThresholds(0.005);
    ReportMembers(SparkUnbalanced.UnbalancedTest(gl), gl, DropExactZero, RoundedAbsPositive);
    assert Keeps(DropExactZero, gl[0].localAmount);
    UnflaggedOneLineJournal(DaskUnbalanced.UnbalancedTest(gl), HalfCentLine, DropExactZero, RoundedEvenAbsPositive);
  }

  /**
   * PySpark and Dask drop only exact zeros before totalling, so a journal
   * whose lines sum to zero is on neither report.
   */
  lemma ZeroSumJournalAbsentSparkDask(gl: seq<GlLine>, id: string)
    requires SumWhere(gl, JournalIdOf, LocalAmountOf, id) == 0.0
    ensures forall r :: r in SparkUnbalanced.UnbalancedTest(gl) ==> r.journalId != id
    ensures forall r :: r in DaskUnbalanced.UnbalancedTest(gl) ==> r.journalId != id
  {
    ZeroLinesIrrelevant(gl, id);
    BalancedJournalAbsent(SparkUnbalanced.UnbalancedTest(gl), gl, DropExactZero, RoundedAbsPositive, id);
    BalancedJournalAbsent(DaskUnbalanced.UnbalancedTest(gl), gl, DropExactZero, RoundedEvenAbsPositive, id);
  }

  /**
   * Polars drops lines within its epsilon before totalling, so a journal none
   * of whose lines is beyond the epsilon is never on its report, whatever the
   * lines sum to.
   */
  lemma NegligibleJournalAbsentPolars(gl: seq<GlLine>, id: string)
    requires forall i :: 0 <= i < |gl| && gl[i].journalId == id ==> !Keeps(PolarsUnbalanced.Materiality, gl[i].localAmount)
    ensures forall r :: r in PolarsUnbalanced.UnbalancedJournalEntriesTest(gl) ==> r.journalId != id
  {
    ReportMembers(PolarsUnbalanced.UnbalancedJournalEntriesTest(gl), gl, PolarsUnbalanced.Materiality, PolarsUnbalanced.Imbalance);
  }

  /**
   * A journal whose lines sum to zero: two thousandths of a cent, offset by
   * two lines of one thousandth each.
   */
  const ZeroSumLines: seq<GlLine> := [
    GlLine("BU1", "D3", "2024", "1", "2024-01-31", "4000", 0.00002, "BU1-D3-2024"),
    GlLine("BU1", "D3", "2024", "2", "2024-01-31", "4000", -0.00001, "BU1-D3-2024"),
    GlLine("BU1", "D3", "2024", "3", "2024-01-31", "4000", -0.00001, "BU1-D3-2024")
  ]

  /**
   * Polars reports the zero-sum journal `ZeroSumLines`: its offsetting lines
   * lie within the epsilon and are dropped, leaving the first line alone.
   * PySpark and Dask do not report it.
   */
  lemma ZeroSumJournalDivergence()
    ensures SumWhere(ZeroSumLines, JournalIdOf, LocalAmountOf, "BU1-D3-2024") == 0.0
    ensures ReportLineOf(ZeroSumLines[0]) in PolarsUnbalanced.UnbalancedJournalEntriesTest(ZeroSumLines)
    ensures forall r :: r in SparkUnbalanced.UnbalancedTest(ZeroSumLines) ==> r.journalId != "BU1-D3-2024"
    ensures forall r :: r in DaskUnbalanced.UnbalancedTest(ZeroSumLines) ==> r.journalId != "BU1-D3-2024"
  {
    var gl := ZeroSumLines;
    var id := "BU1-D3-2024";
    assert gl[..2][..1] == gl[..1] && gl[..1][..0] == [];
    assert SumWhere(gl[..1], JournalIdOf, LocalAmountOf, id) == 0.00002;
    assert SumWhere(gl[..2], JournalIdOf, LocalAmountOf, id) == 0.00001;
    PolarsUnbalanced.SingleLineJournalReported(gl, 0);
    ZeroSumJournalAbsentSparkDask(gl, id);
  }
}
