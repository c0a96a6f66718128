/**
 * The Polars unbalanced journal-entry report.
 *
 * Lines with |amount| <= 0.00001 are dropped, the rest are totalled per
 * journal, and a journal is out of balance when |total| > 0.00001 (the
 * rounded test is disabled in this engine). Both thresholds are the same
 * epsilon, which is what makes a journal with a single kept line always
 * reportable here.
 */
module PolarsUnbalanced {
  import opened Money
  import opened Sorting
  import opened Relational
  import opened Ledger
  import opened Unbalanced

  const Materiality: LineFilter := DropWithin(Epsilon)
  const Imbalance: BalanceTest := AbsAbove(Epsilon)

  /** The journals whose kept lines total more than epsilon in magnitude. */
  function UnbalancedJournals(kept: seq<GlLine>): (je: seq<Group<string>>)
    ensures FlaggedJournals(je, kept, Imbalance)
  {
    FilteredTotalsFlagged(kept, Imbalance);
    Filter(JournalTotals(kept), FlagsGroup(Imbalance))
  }

  /** `unbalanced_journal_entries_test`: filter, total, flag, join back, select, sort. */
  function UnbalancedJournalEntriesTest(gl: seq<GlLine>): (out: seq<ReportLine>)
    ensures IsUnbalancedReport(out, gl, Materiality, Imbalance)
  {
    var kept := RetainedLines(gl, Materiality);
    var je := UnbalancedJournals(kept);
    var selected := MapRows(JoinJournals(kept, je), ProjectJoined);
    JoinSelects(gl, Materiality, Imbalance, je);
    SortByCorrect(selected, ReportKey);
    SortBy(selected, ReportKey)
  }

  /**
   * A journal with exactly one kept line is always reported: that line's
   * amount passed the same epsilon the journal total is compared with.
   */
  lemma SingleLineJournalReported(gl: seq<GlLine>, i: nat)
    requires i < |gl| && Keeps(Materiality, gl[i].localAmount)
    requires forall j :: 0 <= j < |gl| && j != i && gl[j].journalId == gl[i].journalId ==> !Keeps(Materiality, gl[j].localAmount)
    ensures ReportLineOf(gl[i]) in UnbalancedJournalEntriesTest(gl)
  {
    var out := UnbalancedJournalEntriesTest(gl);
    var masked := Masked(KeepsLine(Materiality), LocalAmountOf);
    SumWhereOfFilter(gl, KeepsLine(Materiality), JournalIdOf, LocalAmountOf, gl[i].journalId);
    SumWhereSingle(gl, JournalIdOf, masked, i);
    ReportMembers(out, gl, Materiality, Imbalance);
  }
}
