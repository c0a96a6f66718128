/**
 * The Dask completeness report.
 *
 * The aggregates are not rounded, the outer merge keeps both sides' key
 * columns and fills nothing, so Differance is null unless the account is on
 * both sides; the report takes its key columns from the TB side and is sorted
 * by (Business_Unit_Code, Fiscal_Year, Account_Number) with null keys last.
 */
module DaskCompleteness {
  import opened Wrappers
  import opened Sorting
  import opened Relational
  import opened Ledger
  import opened Completeness

  const Rounded: Rounding := Exact

  /** Opening + Activity - Ending on nullable cells: null as soon as one operand is. */
  function NullableDifference(opening: Option<real>, activity: Option<real>, ending: Option<real>): Option<real>
  {
    if opening.Some? && activity.Some? && ending.Some? then Some(opening.value + activity.value - ending.value)
    else None
  }

  /** The Differance assignment and the TB-keyed column mapping, on one outer-merge row. */
  function ReportRowOf(p: AccountRow): CompletenessRow
  {
    var tbSide := p.right.Some?;
    var k := AccountOf(p);
    var opening := if tbSide then Some(p.right.value.opening) else None;
    var activity := if p.left.Some? then Some(p.left.value.total) else None;
    var ending := if tbSide then Some(p.right.value.ending) else None;
    CompletenessRow(IfPresent(tbSide, k.fiscalYear), IfPresent(tbSide, k.businessUnitCode), IfPresent(tbSide, k.accountNumber),
      opening, activity, ending, NullableDifference(opening, activity, ending))
  }

  /**
   * The row account `k` must get: its key and balances only when it has TB
   * rows, its activity only when it has GL lines, and a difference only when
   * it has both.
   */
  function AccountReport(gl: seq<GlLine>, tb: seq<TbRow>, k: AccountKey): CompletenessRow
  {
    var onTb := InTb(tb, k);
    var onGl := InGl(gl, k);
    CompletenessRow(IfPresent(onTb, k.fiscalYear), IfPresent(onTb, k.businessUnitCode), IfPresent(onTb, k.accountNumber),
      IfPresent(onTb, Opening(tb, k)), IfPresent(onGl, Activity(gl, k)), IfPresent(onTb, Ending(tb, k)),
      IfPresent(onTb && onGl, Opening(tb, k) + Activity(gl, k) - Ending(tb, k)))
  }

  function AccountReportFor(gl: seq<GlLine>, tb: seq<TbRow>): AccountKey -> CompletenessRow
  {
    k => AccountReport(gl, tb, k)
  }

  /** The report's sort key (Business_Unit_Code, Fiscal_Year, Account_Number). */
  function ReportKey(row: CompletenessRow): SortKey
  {
    [row.businessUnitCode, row.fiscalYear, row.accountNumber]
  }

  /** `completeness_test`: group, outer-merge, add Differance, select TB keys and rename, sort. */
  function CompletenessTest(gl: seq<GlLine>, tb: seq<TbRow>): (out: seq<CompletenessRow>)
    ensures IsSortedPermutation(out, MapRows(AccountOrder(gl, tb, Rounded), AccountReportFor(gl, tb)), ReportKey)
  {
    var merged := MapRows(AccountRows(gl, tb, Rounded), ReportRowOf);
    MergedRows(gl, tb);
    SortByCorrect(merged, ReportKey);
    SortBy(merged, ReportKey)
  }

  /** Before the sort, the merge's rows are the accounts' report rows in join order. */
  lemma MergedRows(gl: seq<GlLine>, tb: seq<TbRow>)
    ensures MapRows(AccountRows(gl, tb, Rounded), ReportRowOf) == MapRows(AccountOrder(gl, tb, Rounded), AccountReportFor(gl, tb))
  {
    var rows := AccountRows(gl, tb, Rounded);
    forall i | 0 <= i < |rows|
      ensures ReportRowOf(rows[i]) == AccountReport(gl, tb, AccountOf(rows[i]))
    {
      AccountRowContents(gl, tb, Rounded, i);
      ReportRowMatches(rows[i], gl, tb);
    }
  }

  /** A merge row, projected, is its account's report row. */
  lemma ReportRowMatches(p: AccountRow, gl: seq<GlLine>, tb: seq<TbRow>)
    requires RowOfAccount(p, gl, tb, Rounded)
    ensures ReportRowOf(p) == AccountReport(gl, tb, AccountOf(p))
  {
    var k := AccountOf(p);
    assert RowKeyColumns(ReportRowOf(p)) == RowKeyColumns(AccountReport(gl, tb, k));
  }

  /** An account missing on either side has a null difference; one on both sides has Opening + Activity - Ending. */
  lemma DifferenceOnlyWhenBothSides(gl: seq<GlLine>, tb: seq<TbRow>, k: AccountKey)
    ensures AccountReport(gl, tb, k).difference.Some? <==> InGl(gl, k) && InTb(tb, k)
    ensures InGl(gl, k) && InTb(tb, k) ==>
      AccountReport(gl, tb, k).difference == Some(Opening(tb, k) + Activity(gl, k) - Ending(tb, k))
  {
  }

  /** In a report sorted by its key, every row without a Business_Unit_Code follows every row with one. */
  lemma UnkeyedRowsLast(out: seq<CompletenessRow>)
    requires Sorted(out, ReportKey)
    ensures forall i, j :: 0 <= i < j < |out| && out[i].businessUnitCode.None? ==> out[j].businessUnitCode.None?
  {
    forall i, j | 0 <= i < j < |out| && out[i].businessUnitCode.None?
      ensures out[j].businessUnitCode.None?
    {
      assert KeyLe(ReportKey(out[i]), ReportKey(out[j]));
      assert ReportKey(out[i])[0] == out[i].businessUnitCode;
      assert ReportKey(out[j])[0] == out[j].businessUnitCode;
    }
  }

  /** The key columns on the report are exactly the accounts with TB rows. */
  lemma KeyedRows(gl: seq<GlLine>, tb: seq<TbRow>, k: AccountKey)
    ensures var out := CompletenessTest(gl, tb);
      InTb(tb, k) <==> exists i :: 0 <= i < |out| && RowKeyColumns(out[i]) == KeyColumns(k)
  {
    KeyedRowsOf(CompletenessTest(gl, tb), AccountOrder(gl, tb, Rounded), gl, tb, k);
  }

  lemma KeyedRowsOf(out: seq<CompletenessRow>, accts: seq<AccountKey>, gl: seq<GlLine>, tb: seq<TbRow>, k: AccountKey)
    requires multiset(out) == multiset(MapRows(accts, AccountReportFor(gl, tb)))
    requires forall k :: k in accts <==> InGl(gl, k) || InTb(tb, k)
    ensures InTb(tb, k) <==> exists i :: 0 <= i < |out| && RowKeyColumns(out[i]) == KeyColumns(k)
  {
    var expected := MapRows(accts, AccountReportFor(gl, tb));
    if InTb(tb, k) {
      var i :| 0 <= i < |accts| && accts[i] == k;
      assert RowKeyColumns(expected[i]) == KeyColumns(k);
      assert expected[i] in multiset(out);
    }
    if exists i :: 0 <= i < |out| && RowKeyColumns(out[i]) == KeyColumns(k) {
      var i :| 0 <= i < |out| && RowKeyColumns(out[i]) == KeyColumns(k);
      assert out[i] in multiset(expected);
      var j :| 0 <= j < |expected| && expected[j] == out[i];
      assert accts[j] == k;
    }
  }

  /**
   * Every GL-only account is on the report, with no key, no difference and
   * its activity, and only unkeyed rows follow it.
   */
  lemma GlOnlyRow(gl: seq<GlLine>, tb: seq<TbRow>, k: AccountKey)
    requires InGl(gl, k) && !InTb(tb, k)
    ensures var out := CompletenessTest(gl, tb);
      exists i :: 0 <= i < |out| && out[i].businessUnitCode.None? && out[i].difference.None? && out[i].activity == Some(Activity(gl, k))
        && forall j :: i < j < |out| ==> out[j].businessUnitCode.None?
  {
    var out := CompletenessTest(gl, tb);
    var accts := AccountOrder(gl, tb, Rounded);
    var expected := MapRows(accts, AccountReportFor(gl, tb));
    var j :| 0 <= j < |accts| && accts[j] == k;
    assert expected[j] in multiset(out);
    var i :| 0 <= i < |out| && out[i] == expected[j];
    UnkeyedRowsLast(out);
  }
}
