/**
 * The completeness reconciliation, shared by the three engines.
 *
 * GL activity is summed per account key, TB opening and ending balances are
 * summed per account key, and the two aggregates are outer-joined on the key
 * so that an account present on only one side still gets a row. The engines
 * differ in where amounts are rounded, which side's key columns they report,
 * how they fill the nulls the outer join produces, and whether they sort.
 */
module Completeness {
  import opened Wrappers
  import opened Money
  import opened Relational
  import opened Ledger

  /** Where the aggregates are rounded: not at all, or each sum to cents. */
  datatype Rounding = Exact | Cents

  function Apply(r: Rounding, x: real): real
  {
    match r
    case Exact => x
    case Cents => Round2(x)
  }

  // ---------------------------------------------------------------------------
  // Reference sums, per account

  predicate InGl(gl: seq<GlLine>, k: AccountKey)
  {
    HasKey(gl, GlAccountKey, k)
  }

  predicate InTb(tb: seq<TbRow>, k: AccountKey)
  {
    HasKey(tb, TbAccountKey, k)
  }

  /** The account's GL activity: the sum of its lines' amounts. */
  function Activity(gl: seq<GlLine>, k: AccountKey): real
  {
    SumWhere(gl, GlAccountKey, LocalAmountOf, k)
  }

  function Opening(tb: seq<TbRow>, k: AccountKey): real
  {
    SumWhere(tb, TbAccountKey, OpeningOf, k)
  }

  function Ending(tb: seq<TbRow>, k: AccountKey): real
  {
    SumWhere(tb, TbAccountKey, EndingOf, k)
  }

  // ---------------------------------------------------------------------------
  // The aggregates

  /** One row of the TB aggregate. */
  datatype TbTotals = TbTotals(key: AccountKey, opening: real, ending: real)

  function TbKeyOf(t: TbTotals): AccountKey { t.key }

  /** `g` is the GL aggregate of `gl`: one row per account, holding its (possibly rounded) activity. */
  ghost predicate IsGlFrame(g: seq<Group<AccountKey>>, gl: seq<GlLine>, r: Rounding)
  {
    && DistinctBy(g, KeyOfGroup)
    && (forall k :: HasKey(g, KeyOfGroup, k) <==> InGl(gl, k))
    && (forall i :: 0 <= i < |g| ==> g[i].total == Apply(r, Activity(gl, g[i].key)))
  }

  /** `t` is the TB aggregate of `tb`: one row per account, holding its (possibly rounded) balances. */
  ghost predicate IsTbFrame(t: seq<TbTotals>, tb: seq<TbRow>, r: Rounding)
  {
    && DistinctBy(t, TbKeyOf)
    && (forall k :: HasKey(t, TbKeyOf, k) <==> InTb(tb, k))
    && (forall i :: 0 <= i < |t| ==> t[i].opening == Apply(r, Opening(tb, t[i].key)) && t[i].ending == Apply(r, Ending(tb, t[i].key)))
  }

  /** `gl.group_by(FY, BU, Account).agg(sum(GL_Local_Amount))`, rounded as `r` says. */
  function GlByAccount(gl: seq<GlLine>, r: Rounding): (g: seq<Group<AccountKey>>)
    ensures IsGlFrame(g, gl, r)
  {
    var sums := GroupSum(gl, GlAccountKey, LocalAmountOf);
    var g := seq(|sums|, i requires 0 <= i < |sums| => Group(sums[i].key, Apply(r, sums[i].total)));
    GroupKeyColumn(sums);
    assert forall i :: 0 <= i < |g| ==> g[i].total == Apply(r, Activity(gl, g[i].key)) by {
      forall i | 0 <= i < |g|
        ensures g[i].total == Apply(r, Activity(gl, g[i].key))
      {
        GroupSumTotals(gl, GlAccountKey, LocalAmountOf, i);
      }
    }
    assert forall k :: HasKey(g, KeyOfGroup, k) <==> HasKey(sums, KeyOfGroup, k) by {
      forall k
        ensures HasKey(g, KeyOfGroup, k) <==> HasKey(sums, KeyOfGroup, k)
      {
        if HasKey(sums, KeyOfGroup, k) {
          var i :| 0 <= i < |sums| && KeyOfGroup(sums[i]) == k;
          assert KeyOfGroup(g[i]) == k;
        }
        if HasKey(g, KeyOfGroup, k) {
          var i :| 0 <= i < |g| && KeyOfGroup(g[i]) == k;
          assert KeyOfGroup(sums[i]) == k;
        }
      }
    }
    g
  }

  /** `tb.group_by(FY, BU, Account).agg(sum(opening), sum(ending))`, rounded as `r` says. */
  function TbByAccount(tb: seq<TbRow>, r: Rounding): (t: seq<TbTotals>)
    ensures IsTbFrame(t, tb, r)
  {
    var o := GroupSum(tb, TbAccountKey, OpeningOf);
    var e := GroupSum(tb, TbAccountKey, EndingOf);
    GroupSumKeys(tb, TbAccountKey, OpeningOf, EndingOf);
    GroupKeyColumn(o);
    var t := seq(|o|, i requires 0 <= i < |o| => TbTotals(o[i].key, Apply(r, o[i].total), Apply(r, e[i].total)));
    assert forall i :: 0 <= i < |t| ==> t[i].opening == Apply(r, Opening(tb, t[i].key)) && t[i].ending == Apply(r, Ending(tb, t[i].key)) by {
      forall i | 0 <= i < |t|
        ensures t[i].opening == Apply(r, Opening(tb, t[i].key)) && t[i].ending == Apply(r, Ending(tb, t[i].key))
      {
        GroupSumTotals(tb, TbAccountKey, OpeningOf, i);
        GroupSumTotals(tb, TbAccountKey, EndingOf, i);
      }
    }
    assert forall k :: HasKey(t, TbKeyOf, k) <==> HasKey(o, KeyOfGroup, k) by {
      forall k
        ensures HasKey(t, TbKeyOf, k) <==> HasKey(o, KeyOfGroup, k)
      {
        if HasKey(o, KeyOfGroup, k) {
          var i :| 0 <= i < |o| && KeyOfGroup(o[i]) == k;
          assert TbKeyOf(t[i]) == k;
        }
        if HasKey(t, TbKeyOf, k) {
          var i :| 0 <= i < |t| && TbKeyOf(t[i]) == k;
          assert KeyOfGroup(o[i]) == k;
        }
      }
    }
    assert DistinctBy(t, TbKeyOf) by {
      assert forall i :: 0 <= i < |t| ==> TbKeyOf(t[i]) == KeyOfGroup(o[i]);
    }
    t
  }

  // ---------------------------------------------------------------------------
  // The outer join

  /** One row of the outer join: the GL aggregate row, the TB aggregate row, or both. */
  type AccountRow = Joined<Group<AccountKey>, TbTotals>

  /** The full outer join of the two aggregates on the account key. */
  function AccountRows(gl: seq<GlLine>, tb: seq<TbRow>, r: Rounding): seq<AccountRow>
  {
    OuterJoin(GlByAccount(gl, r), TbByAccount(tb, r), KeyOfGroup, TbKeyOf)
  }

  /** The account of a join row, coalesced from whichever side is present (no join row lacks both). */
  function AccountOf(p: AccountRow): AccountKey
  {
    match p.left
    case Some(g) => g.key
    case None => if p.right.Some? then p.right.value.key else AccountKey("", "", "")
  }

  /**
   * Join row `p` belongs to its account: it has a GL side exactly when the
   * account has GL lines and a TB side exactly when it has TB rows, and each
   * present side carries that account's (possibly rounded) sums.
   */
  predicate RowOfAccount(p: AccountRow, gl: seq<GlLine>, tb: seq<TbRow>, r: Rounding)
  {
    var k := AccountOf(p);
    && (p.left.Some? || p.right.Some?)
    && (p.left.Some? <==> InGl(gl, k))
    && (p.right.Some? <==> InTb(tb, k))
    && (p.left.Some? ==> p.left.value.total == Apply(r, Activity(gl, k)))
    && (p.right.Some? ==> p.right.value.opening == Apply(r, Opening(tb, k)) && p.right.value.ending == Apply(r, Ending(tb, k)))
  }

  /** Every row of the outer join belongs to its account. */
  lemma AccountRowContents(gl: seq<GlLine>, tb: seq<TbRow>, r: Rounding, i: nat)
    requires i < |AccountRows(gl, tb, r)|
    ensures RowOfAccount(AccountRows(gl, tb, r)[i], gl, tb, r)
  {
    var glf := GlByAccount(gl, r);
    var tbf := TbByAccount(tb, r);
    OuterJoinRows(glf, tbf, KeyOfGroup, TbKeyOf);
    var p := AccountRows(gl, tb, r)[i];
    assert OuterRowOf(p, glf, tbf, KeyOfGroup, TbKeyOf);
    assert AccountOf(p) == CoalescedKey(p, KeyOfGroup, TbKeyOf);
    if p.left.Some? {
      var j :| 0 <= j < |glf| && glf[j] == p.left.value;
    }
    if p.right.Some? {
      var j :| 0 <= j < |tbf| && tbf[j] == p.right.value;
    }
  }

  /**
   * The accounts of the report, in the join's row order: every account with
   * GL lines or TB rows, each exactly once.
   */
  function AccountOrder(gl: seq<GlLine>, tb: seq<TbRow>, r: Rounding): (accts: seq<AccountKey>)
    ensures |accts| == |AccountRows(gl, tb, r)|
    ensures forall i, j :: 0 <= i < j < |accts| ==> accts[i] != accts[j]
    ensures forall k :: k in accts <==> InGl(gl, k) || InTb(tb, k)
  {
    var accts := MapRows(AccountRows(gl, tb, r), AccountOf);
    AccountsDistinct(gl, tb, r);
    forall k
      ensures k in accts <==> InGl(gl, k) || InTb(tb, k)
    {
      AccountsCovered(gl, tb, r, k);
    }
    accts
  }

  lemma AccountsDistinct(gl: seq<GlLine>, tb: seq<TbRow>, r: Rounding)
    ensures var rows := AccountRows(gl, tb, r);
      forall i, j :: 0 <= i < j < |rows| ==> AccountOf(rows[i]) != AccountOf(rows[j])
  {
    var glf := GlByAccount(gl, r);
    var tbf := TbByAccount(tb, r);
    var rows := AccountRows(gl, tb, r);
    OuterJoinKeysDistinct(glf, tbf, KeyOfGroup, TbKeyOf);
    assert forall i :: 0 <= i < |rows| ==> AccountOf(rows[i]) == CoalescedKey(rows[i], KeyOfGroup, TbKeyOf);
  }

  lemma AccountsCovered(gl: seq<GlLine>, tb: seq<TbRow>, r: Rounding, k: AccountKey)
    ensures k in MapRows(AccountRows(gl, tb, r), AccountOf) <==> InGl(gl, k) || InTb(tb, k)
  {
    var glf := GlByAccount(gl, r);
    var tbf := TbByAccount(tb, r);
    var rows := AccountRows(gl, tb, r);
    var accts := MapRows(rows, AccountOf);
    OuterJoinKeysDistinct(glf, tbf, KeyOfGroup, TbKeyOf);
    OuterJoinCoversKeys(glf, tbf, KeyOfGroup, TbKeyOf, k);
    if InGl(gl, k) || InTb(tb, k) {
      var i :| 0 <= i < |rows| && (rows[i].left.Some? || rows[i].right.Some?) && CoalescedKey(rows[i], KeyOfGroup, TbKeyOf) == k;
      assert accts[i] == k;
    }
    if k in accts {
      var i :| 0 <= i < |accts| && accts[i] == k;
      assert CoalescedKey(rows[i], KeyOfGroup, TbKeyOf) == k;
    }
  }

  // ---------------------------------------------------------------------------
  // The report row

  /**
   * One row of the completeness report, in column order: Fiscal_Year,
   * Business_Unit_Code, Account_Number, Opening_Balance, Activity,
   * Ending_Balance, Difference. `None` is a null cell.
   */
  datatype CompletenessRow = CompletenessRow(
    fiscalYear: Option<string>,
    businessUnitCode: Option<string>,
    accountNumber: Option<string>,
    openingBalance: Option<real>,
    activity: Option<real>,
    endingBalance: Option<real>,
    difference: Option<real>)

  /** The account's key columns, all present. */
  function KeyColumns(k: AccountKey): (Option<string>, Option<string>, Option<string>)
  {
    (Some(k.fiscalYear), Some(k.businessUnitCode), Some(k.accountNumber))
  }

  function RowKeyColumns(row: CompletenessRow): (Option<string>, Option<string>, Option<string>)
  {
    (row.fiscalYear, row.businessUnitCode, row.accountNumber)
  }

  /** The cell `value` when its side of the join is present, null otherwise. */
  function IfPresent<T>(present: bool, value: T): Option<T>
  {
    if present then Some(value) else None
  }

  /** Opening + Activity - Ending with each null read as zero. */
  function FilledDifference(opening: Option<real>, activity: Option<real>, ending: Option<real>): real
  {
    opening.GetOr(0.0) + activity.GetOr(0.0) - ending.GetOr(0.0)
  }
}
