/**
 * The PySpark completeness report.
 *
 * The aggregates are not rounded, the outer join keeps both sides' key
 * columns, `na.fill(0)` turns every null amount into 0, Differance is the
 * unrounded Opening + Activity - Ending, and the report takes its key
 * columns from the TB side. It is not sorted.
 */
module SparkCompleteness {
  import opened Wrappers
  import opened Relational
  import opened Ledger
  import opened Completeness

  const Rounded: Rounding := Exact

  /** `na.fill(0)` on one amount cell of the join. */
  function FillZero(cell: Option<real>): real
  {
    cell.GetOr(0.0)
  }

  /** `na.fill(0)`, `withColumn(Differance)` and the TB-keyed selection, on one outer-join row. */
  function ReportRowOf(p: AccountRow): CompletenessRow
  {
    var tbSide := p.right.Some?;
    var k := AccountOf(p);
    var opening := FillZero(if tbSide then Some(p.right.value.opening) else None);
    var activity := FillZero(if p.left.Some? then Some(p.left.value.total) else None);
    var ending := FillZero(if tbSide then Some(p.right.value.ending) else None);
    CompletenessRow(IfPresent(tbSide, k.fiscalYear), IfPresent(tbSide, k.businessUnitCode), IfPresent(tbSide, k.accountNumber),
      Some(opening), Some(activity), Some(ending), Some(opening + activity - ending))
  }

  /**
   * The row account `k` must get: its key only when it has TB rows, and the
   * plain sums of its balances and activity (zero for a missing side), with
   * the unrounded difference.
   */
  function AccountReport(gl: seq<GlLine>, tb: seq<TbRow>, k: AccountKey): CompletenessRow
  {
    var onTb := InTb(tb, k);
    CompletenessRow(IfPresent(onTb, k.fiscalYear), IfPresent(onTb, k.businessUnitCode), IfPresent(onTb, k.accountNumber),
      Some(Opening(tb, k)), Some(Activity(gl, k)), Some(Ending(tb, k)),
      Some(Opening(tb, k) + Activity(gl, k) - Ending(tb, k)))
  }

  function AccountReportFor(gl: seq<GlLine>, tb: seq<TbRow>): AccountKey -> CompletenessRow
  {
    k => AccountReport(gl, tb, k)
  }

  /** `completeness_test`: group, outer-join, fill nulls with 0, add Differance, select TB keys and rename. */
  function CompletenessTest(gl: seq<GlLine>, tb: seq<TbRow>): (out: seq<CompletenessRow>)
    ensures out == MapRows(AccountOrder(gl, tb, Rounded), AccountReportFor(gl, tb))
  {
    var rows := AccountRows(gl, tb, Rounded);
    forall i | 0 <= i < |rows|
      ensures ReportRowOf(rows[i]) == AccountReport(gl, tb, AccountOf(rows[i]))
    {
      AccountRowContents(gl, tb, Rounded, i);
      ReportRowMatches(rows[i], gl, tb);
    }
    MapRows(rows, ReportRowOf)
  }

  /** A join row, filled and projected, is its account's report row; a missing side sums to zero. */
  lemma ReportRowMatches(p: AccountRow, gl: seq<GlLine>, tb: seq<TbRow>)
    requires RowOfAccount(p, gl, tb, Rounded)
    ensures ReportRowOf(p) == AccountReport(gl, tb, AccountOf(p))
  {
    var k := AccountOf(p);
    var activity := FillZero(if p.left.Some? then Some(p.left.value.total) else None);
    var opening := FillZero(if p.right.Some? then Some(p.right.value.opening) else None);
    var ending := FillZero(if p.right.Some? then Some(p.right.value.ending) else None);
    assert activity == Activity(gl, k) by {
      if !InGl(gl, k) {
        SumWhereAbsent(gl, GlAccountKey, LocalAmountOf, k);
      }
    }
    assert opening == Opening(tb, k) && ending == Ending(tb, k) by {
      if !InTb(tb, k) {
        SumWhereAbsent(tb, TbAccountKey, OpeningOf, k);
        SumWhereAbsent(tb, TbAccountKey, EndingOf, k);
      }
    }
    assert RowKeyColumns(ReportRowOf(p)) == RowKeyColumns(AccountReport(gl, tb, k));
  }

  /** Every amount cell of the report is filled. */
  lemma NoNullAmounts(gl: seq<GlLine>, tb: seq<TbRow>)
    ensures var out := CompletenessTest(gl, tb);
      forall i :: 0 <= i < |out| ==>
        out[i].openingBalance.Some? && out[i].activity.Some? && out[i].endingBalance.Some? && out[i].difference.Some?
  {
  }

  /**
   * A GL-only account is reported with null key columns, zero opening and
   * ending balances, and Differance equal to its activity.
   */
  lemma GlOnlyAccount(gl: seq<GlLine>, tb: seq<TbRow>, k: AccountKey)
    requires InGl(gl, k) && !InTb(tb, k)
    ensures var row := AccountReport(gl, tb, k);
      && row.fiscalYear == None && row.businessUnitCode == None && row.accountNumber == None
      && row.openingBalance == Some(0.0) && row.endingBalance == Some(0.0)
      && row.difference == row.activity
  {
    SumWhereAbsent(tb, TbAccountKey, OpeningOf, k);
    SumWhereAbsent(tb, TbAccountKey, EndingOf, k);
  }

  /** A TB-only account is reported with its key, zero activity and Differance = Opening - Ending. */
  lemma TbOnlyAccount(gl: seq<GlLine>, tb: seq<TbRow>, k: AccountKey)
    requires !InGl(gl, k) && InTb(tb, k)
    ensures var row := AccountReport(gl, tb, k);
      && RowKeyColumns(row) == KeyColumns(k)
      && row.activity == Some(0.0)
      && row.difference == Some(Opening(tb, k) - Ending(tb, k))
  {
    SumWhereAbsent(gl, GlAccountKey, LocalAmountOf, k);
  }

  /**
   * The report has one row per account with GL lines or TB rows: the
   * accounts with TB rows are exactly the keys on the report, each on one
   * row, and every GL-only account has an unkeyed row carrying its activity.
   */
  lemma OneRowPerAccount(gl: seq<GlLine>, tb: seq<TbRow>)
    ensures var out := CompletenessTest(gl, tb);
      forall k :: InTb(tb, k) <==> exists i :: 0 <= i < |out| && RowKeyColumns(out[i]) == KeyColumns(k)
    ensures var out := CompletenessTest(gl, tb);
      forall i, j :: 0 <= i < j < |out| && out[i].fiscalYear.Some? ==> RowKeyColumns(out[i]) != RowKeyColumns(out[j])
    ensures var out := CompletenessTest(gl, tb);
      forall k :: InGl(gl, k) && !InTb(tb, k) ==>
        exists i :: 0 <= i < |out| && out[i].fiscalYear.None? && out[i].activity == Some(Activity(gl, k))
  {
    var out := CompletenessTest(gl, tb);
    var accts := AccountOrder(gl, tb, Rounded);
    forall k
      ensures InTb(tb, k) <==> exists i :: 0 <= i < |out| && RowKeyColumns(out[i]) == KeyColumns(k)
    {
      KeyedRowOf(out, accts, gl, tb, k);
    }
    forall i, j | 0 <= i < j < |out| && out[i].fiscalYear.Some?
      ensures RowKeyColumns(out[i]) != RowKeyColumns(out[j])
    {
      KeyedRowsDistinct(out, accts, gl, tb, i, j);
    }
    forall k | InGl(gl, k) && !InTb(tb, k)
      ensures exists i :: 0 <= i < |out| && out[i].fiscalYear.None? && out[i].activity == Some(Activity(gl, k))
    {
      var i :| 0 <= i < |accts| && accts[i] == k;
      assert out[i] == AccountReport(gl, tb, k);
    }
  }

  /** Account `k` has TB rows exactly when some report row carries its key. */
  lemma KeyedRowOf(out: seq<CompletenessRow>, accts: seq<AccountKey>, gl: seq<GlLine>, tb: seq<TbRow>, k: AccountKey)
    requires out == MapRows(accts, AccountReportFor(gl, tb))
    requires forall k :: k in accts <==> InGl(gl, k) || InTb(tb, k)
    ensures InTb(tb, k) <==> exists i :: 0 <= i < |out| && RowKeyColumns(out[i]) == KeyColumns(k)
  {
    if InTb(tb, k) {
      var i :| 0 <= i < |accts| && accts[i] == k;
      assert RowKeyColumns(out[i]) == KeyColumns(k);
    }
    if exists i :: 0 <= i < |out| && RowKeyColumns(out[i]) == KeyColumns(k) {
      var i :| 0 <= i < |out| && RowKeyColumns(out[i]) == KeyColumns(k);
      assert accts[i] == k;
    }
  }

  /** Two rows of distinct accounts never carry the same key. */
  lemma KeyedRowsDistinct(out: seq<CompletenessRow>, accts: seq<AccountKey>, gl: seq<GlLine>, tb: seq<TbRow>, i: nat, j: nat)
    requires out == MapRows(accts, AccountReportFor(gl, tb))
    requires i < j < |accts| && accts[i] != accts[j] && out[i].fiscalYear.Some?
    ensures RowKeyColumns(out[i]) != RowKeyColumns(out[j])
  {
    assert out[i] == AccountReport(gl, tb, accts[i]);
    assert out[j] == AccountReport(gl, tb, accts[j]);
  }
}
