/**
 * The Polars completeness report.
 *
 * Both aggregates are rounded to cents, the outer join coalesces the key
 * columns (so every row has its account's key), nulls are read as zero only
 * inside Difference, which is rounded again, and the result is not sorted.
 */
module PolarsCompleteness {
  import opened Wrappers
  import opened Money
  import opened Relational
  import opened Ledger
  import opened Completeness

  const Rounded: Rounding := Cents

  /** `with_column(Difference)` and the renaming `select`, on one outer-join row. */
  function ReportRowOf(p: AccountRow): CompletenessRow
  {
    var k := AccountOf(p);
    var opening := if p.right.Some? then Some(p.right.value.opening) else None;
    var activity := if p.left.Some? then Some(p.left.value.total) else None;
    var ending := if p.right.Some? then Some(p.right.value.ending) else None;
    CompletenessRow(Some(k.fiscalYear), Some(k.businessUnitCode), Some(k.accountNumber),
      opening, activity, ending, Some(Round2(FilledDifference(opening, activity, ending))))
  }

  /**
   * The row account `k` must get: its key; its rounded TB balances, null
   * without TB rows; its rounded GL activity, null without GL lines; and the
   * rounded difference with nulls read as zero.
   */
  function AccountReport(gl: seq<GlLine>, tb: seq<TbRow>, k: AccountKey): CompletenessRow
  {
    var opening := IfPresent(InTb(tb, k), Round2(Opening(tb, k)));
    var activity := IfPresent(InGl(gl, k), Round2(Activity(gl, k)));
    var ending := IfPresent(InTb(tb, k), Round2(Ending(tb, k)));
    CompletenessRow(Some(k.fiscalYear), Some(k.businessUnitCode), Some(k.accountNumber),
      opening, activity, ending, Some(Round2(FilledDifference(opening, activity, ending))))
  }

  function AccountReportFor(gl: seq<GlLine>, tb: seq<TbRow>): AccountKey -> CompletenessRow
  {
    k => AccountReport(gl, tb, k)
  }

  /** `completeness_test`: group, round, outer-join with coalesced keys, add Difference, select. */
  function CompletenessTest(gl: seq<GlLine>, tb: seq<TbRow>): (out: seq<CompletenessRow>)
    ensures out == MapRows(AccountOrder(gl, tb, Rounded), AccountReportFor(gl, tb))
  {
    var rows := AccountRows(gl, tb, Rounded);
    forall i | 0 <= i < |rows|
      ensures ReportRowOf(rows[i]) == AccountReport(gl, tb, AccountOf(rows[i]))
    {
      AccountRowContents(gl, tb, Rounded, i);
    }
    MapRows(rows, ReportRowOf)
  }

  /** The report has one row per account with GL lines or TB rows, identified by its key columns. */
  lemma OneRowPerAccount(gl: seq<GlLine>, tb: seq<TbRow>)
    ensures var out := CompletenessTest(gl, tb);
      forall i, j :: 0 <= i < j < |out| ==> RowKeyColumns(out[i]) != RowKeyColumns(out[j])
    ensures var out := CompletenessTest(gl, tb);
      forall k :: InGl(gl, k) || InTb(tb, k) <==> exists i :: 0 <= i < |out| && RowKeyColumns(out[i]) == KeyColumns(k)
  {
    var out := CompletenessTest(gl, tb);
    var accts := AccountOrder(gl, tb, Rounded);
    assert forall i :: 0 <= i < |out| ==> RowKeyColumns(out[i]) == KeyColumns(accts[i]);
    forall k
      ensures InGl(gl, k) || InTb(tb, k) <==> exists i :: 0 <= i < |out| && RowKeyColumns(out[i]) == KeyColumns(k)
    {
      if InGl(gl, k) || InTb(tb, k) {
        var i :| 0 <= i < |accts| && accts[i] == k;
        assert RowKeyColumns(out[i]) == KeyColumns(k);
      }
      if exists i :: 0 <= i < |out| && RowKeyColumns(out[i]) == KeyColumns(k) {
        var i :| 0 <= i < |out| && RowKeyColumns(out[i]) == KeyColumns(k);
        assert accts[i] == k;
      }
    }
  }

  /** A GL-only account's Difference is its (already rounded) Activity: rounding twice changes nothing. */
  lemma GlOnlyDifference(gl: seq<GlLine>, tb: seq<TbRow>, k: AccountKey)
    requires InGl(gl, k) && !InTb(tb, k)
    ensures AccountReport(gl, tb, k).openingBalance == None && AccountReport(gl, tb, k).endingBalance == None
    ensures AccountReport(gl, tb, k).difference == AccountReport(gl, tb, k).activity
  {
    Round2Idempotent(Activity(gl, k));
  }

  /** A TB-only account has null Activity and Difference round2(Opening - Ending). */
  lemma TbOnlyDifference(gl: seq<GlLine>, tb: seq<TbRow>, k: AccountKey)
    requires !InGl(gl, k) && InTb(tb, k)
    ensures AccountReport(gl, tb, k).activity == None
    ensures AccountReport(gl, tb, k).difference == Some(Round2(Round2(Opening(tb, k)) - Round2(Ending(tb, k))))
  {
  }

  /**
   * When every sum is a whole number of cents, an account whose opening
   * balance plus activity equals its ending balance reports Difference 0.
   */
  lemma ReconciledAccount(gl: seq<GlLine>, tb: seq<TbRow>, k: AccountKey)
    requires InGl(gl, k) && InTb(tb, k)
    requires IsCents(Opening(tb, k)) && IsCents(Activity(gl, k)) && IsCents(Ending(tb, k))
    requires Opening(tb, k) + Activity(gl, k) == Ending(tb, k)
    ensures AccountReport(gl, tb, k).difference == Some(0.0)
  {
    Round2OfCents(Opening(tb, k));
    Round2OfCents(Activity(gl, k));
    Round2OfCents(Ending(tb, k));
    Round2NearZero(0.0);
  }
}
