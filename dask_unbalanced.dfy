/**
 * The Dask unbalanced journal-entry report.
 *
 * Exact-zero lines are dropped and the frame is indexed by GL_Journal_ID;
 * totals are computed per partition, journals whose total rounds to a
 * nonzero magnitude are kept (with their raw total), the lines are merged
 * back on the index, sorted per partition, and the index is reset before the
 * report columns are selected. The model has a single partition, so the
 * per-partition group-by and sort are the whole-frame ones.
 *
 * pandas' `round(2)` rounds halves to even, so a journal whose magnitude is
 * exactly half a cent rounds to zero and is not reported, where PySpark's
 * half-up rounding reports it.
 */
module DaskUnbalanced {
  import opened Sorting
  import opened Relational
  import opened Ledger
  import opened Unbalanced

  const Materiality: LineFilter := DropExactZero
  const Imbalance: BalanceTest := RoundedEvenAbsPositive

  /** `gl_unbalanced_je`: the journals whose total has a positive rounded magnitude, with that raw total. */
  function UnbalancedJournals(kept: seq<GlLine>): (je: seq<Group<string>>)
    ensures FlaggedJournals(je, kept, Imbalance)
    ensures forall i :: 0 <= i < |je| ==> je[i].total == SumWhere(kept, JournalIdOf, LocalAmountOf, je[i].key)
  {
    var totals := JournalTotals(kept);
    FilteredTotalsFlagged(kept, Imbalance);
    var je := Filter(totals, FlagsGroup(Imbalance));
    FilterMembers(totals, FlagsGroup(Imbalance));
    assert forall i :: 0 <= i < |je| ==> je[i] in je;
    assert forall i :: 0 <= i < |totals| ==> totals[i].total == SumWhere(kept, JournalIdOf, LocalAmountOf, totals[i].key) by {
      forall i | 0 <= i < |totals| {
        GroupSumTotals(kept, JournalIdOf, LocalAmountOf, i);
      }
    }
    je
  }

  /** `unbalanced_test`: filter, index, total, flag, merge on the index, sort, reset the index, select. */
  function UnbalancedTest(gl: seq<GlLine>): (out: seq<ReportLine>)
    ensures IsUnbalancedReport(out, gl, Materiality, Imbalance)
  {
    var kept := RetainedLines(gl, Materiality);
    var je := UnbalancedJournals(kept);
    var merged := JoinJournals(kept, je);
    JoinSelects(gl, Materiality, Imbalance, je);
    SortByProjection(merged, ProjectJoined, JoinedKey, ReportKey);
    SortByCorrect(MapRows(merged, ProjectJoined), ReportKey);
    MapRows(SortBy(merged, JoinedKey), ProjectJoined)
  }
}
