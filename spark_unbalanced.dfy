/**
 * The PySpark unbalanced journal-entry report.
 *
 * Exact-zero lines are dropped, the rest are totalled per journal, each
 * total is replaced by its magnitude rounded to cents, halves up (`GL_Magnitude`), and
 * a journal is out of balance when that magnitude is positive.
 */
module SparkUnbalanced {
  import opened Money
  import opened Sorting
  import opened Relational
  import opened Ledger
  import opened Unbalanced

  const Materiality: LineFilter := DropExactZero
  const Imbalance: BalanceTest := RoundedAbsPositive

  /** A journal's row with its total replaced by `round(abs(total), 2)`. */
  function MagnitudeOf(g: Group<string>): Group<string>
  {
    Group(g.key, Round2(Abs(g.total)))
  }

  function PositiveMagnitude(): Group<string> -> bool
  {
    (g: Group<string>) => g.total > 0.0
  }

  /** `gl_unbalanced_je`: the journals with a positive rounded magnitude, one row each. */
  function UnbalancedJournals(kept: seq<GlLine>): (je: seq<Group<string>>)
    ensures FlaggedJournals(je, kept, Imbalance)
    ensures forall i :: 0 <= i < |je| ==> je[i].total == Round2(Abs(SumWhere(kept, JournalIdOf, LocalAmountOf, je[i].key)))
    ensures forall i :: 0 <= i < |je| ==> IsCents(je[i].total) && je[i].total >= 0.01
  {
    var totals := JournalTotals(kept);
    FilterMapRows(totals, MagnitudeOf, FlagsGroup(Imbalance), PositiveMagnitude());
    var flagged := Filter(totals, FlagsGroup(Imbalance));
    FilteredTotalsFlagged(kept, Imbalance);
    FlaggedJournalsByKeys(flagged, MapRows(flagged, MagnitudeOf), kept, Imbalance);
    var je := Filter(MapRows(totals, MagnitudeOf), PositiveMagnitude());
    FilterMembers(MapRows(totals, MagnitudeOf), PositiveMagnitude());
    assert forall i :: 0 <= i < |je| ==> je[i] in je;
    forall i | 0 <= i < |totals| {
      GroupSumTotals(kept, JournalIdOf, LocalAmountOf, i);
    }
    je
  }

  /** `unbalanced_test`: filter, total, take magnitudes, flag, join back, select, sort. */
  function UnbalancedTest(gl: seq<GlLine>): (out: seq<ReportLine>)
    ensures IsUnbalancedReport(out, gl, Materiality, Imbalance)
  {
    var kept := RetainedLines(gl, Materiality);
    var je := UnbalancedJournals(kept);
    var selected := MapRows(JoinJournals(kept, je), ProjectJoined);
    JoinSelects(gl, Materiality, Imbalance, je);
    SortByCorrect(selected, ReportKey);
    SortBy(selected, ReportKey)
  }
}
