/**
 * The unbalanced journal-entry report, shared by the three engines.
 *
 * Every engine runs the same pipeline: drop immaterial GL lines, total the
 * remaining lines per GL_Journal_ID, keep the journals whose total is out of
 * balance, inner-join those journals back to the kept lines, project the five
 * report columns and sort by (GL_Journal_ID, GL_Line_Number). The engines
 * differ in two policies, made explicit here: which lines count as
 * immaterial, and when a total counts as out of balance.
 *
 * `IsUnbalancedReport` states, without group-by or join, what a correct
 * report is; each engine's pipeline is proved to produce one.
 */
module Unbalanced {
  import opened Wrappers
  import opened Money
  import opened Sorting
  import opened Relational
  import opened Ledger

  /** Which GL lines are dropped before totalling. */
  datatype LineFilter =
    | DropWithin(eps: real)  // keep a line only when |amount| > eps
    | DropExactZero          // keep a line only when amount != 0

  /** When a journal's total counts as out of balance. */
  datatype BalanceTest =
    | AbsAbove(eps: real)    // |total| > eps
    | RoundedAbsPositive     // round(|total|, 2) > 0, halves rounded away from zero
    | RoundedEvenAbsPositive // round(|total|, 2) > 0, halves rounded to even

  predicate Keeps(f: LineFilter, amount: real)
  {
    match f
    case DropWithin(eps) => Abs(amount) > eps
    case DropExactZero => amount != 0.0
  }

  predicate Flags(t: BalanceTest, total: real)
  {
    match t
    case AbsAbove(eps) => Abs(total) > eps
    case RoundedAbsPositive => Round2(Abs(total)) > 0.0
    case RoundedEvenAbsPositive => Round2Even(Abs(total)) > 0.0
  }

  function KeepsLine(f: LineFilter): GlLine -> bool
  {
    (l: GlLine) => Keeps(f, l.localAmount)
  }

  function FlagsGroup(t: BalanceTest): Group<string> -> bool
  {
    (g: Group<string>) => Flags(t, g.total)
  }

  /** One row of the report: the five report columns, in report order. */
  datatype ReportLine = ReportLine(
    journalId: string,
    lineNumber: string,
    effectiveDate: string,
    accountNumber: string,
    localAmount: real)

  /** The report columns of a GL line. */
  function ReportLineOf(l: GlLine): ReportLine
  {
    ReportLine(l.journalId, l.lineNumber, l.effectiveDate, l.accountNumber, l.localAmount)
  }

  /** The report's sort key (GL_Journal_ID, GL_Line_Number). */
  function ReportKey(r: ReportLine): SortKey
  {
    [Some(r.journalId), Some(r.lineNumber)]
  }

  /** A row of the line-to-journal join: the GL line and its journal's row. */
  type JoinedLine = (GlLine, Group<string>)

  /** `select` of the five report columns, all taken from the GL line. */
  function ProjectJoined(p: JoinedLine): ReportLine
  {
    ReportLineOf(p.0)
  }

  function JoinedKey(p: JoinedLine): SortKey
  {
    ReportKey(ProjectJoined(p))
  }

  // ---------------------------------------------------------------------------
  // Pipeline steps

  /** The lines kept by the line filter. */
  function RetainedLines(gl: seq<GlLine>, f: LineFilter): seq<GlLine>
  {
    Filter(gl, KeepsLine(f))
  }

  /** `group_by(GL_Journal_ID).agg(sum(GL_Local_Amount))`. */
  function JournalTotals(lines: seq<GlLine>): seq<Group<string>>
  {
    GroupSum(lines, JournalIdOf, LocalAmountOf)
  }

  /** The inner join of lines with a frame of journals, on GL_Journal_ID. */
  function JoinJournals(lines: seq<GlLine>, journals: seq<Group<string>>): seq<JoinedLine>
  {
    InnerJoin(lines, journals, JournalIdOf, KeyOfGroup)
  }

  // ---------------------------------------------------------------------------
  // Specification

  /** A journal's total: the plain sum of the amounts of its kept lines. */
  function JournalTotal(gl: seq<GlLine>, f: LineFilter, id: string): real
  {
    SumWhere(RetainedLines(gl, f), JournalIdOf, LocalAmountOf, id)
  }

  function JournalFlagged(gl: seq<GlLine>, f: LineFilter, t: BalanceTest): GlLine -> bool
  {
    (l: GlLine) => Flags(t, JournalTotal(gl, f, l.journalId))
  }

  /** The lines a report must hold: kept lines of out-of-balance journals, in input order. */
  function SelectedLines(gl: seq<GlLine>, f: LineFilter, t: BalanceTest): seq<GlLine>
  {
    Filter(gl, Both(KeepsLine(f), JournalFlagged(gl, f, t)))
  }

  /** `out` is a correct report: the selected lines' report columns, each as often as in the input, sorted. */
  ghost predicate IsUnbalancedReport(out: seq<ReportLine>, gl: seq<GlLine>, f: LineFilter, t: BalanceTest)
  {
    IsSortedPermutation(out, MapRows(SelectedLines(gl, f, t), ReportLineOf), ReportKey)
  }

  /**
   * `journals` is a valid frame of the out-of-balance journals of `lines`:
   * one row per journal, and a journal is there exactly when it has lines and
   * its total is flagged.
   */
  ghost predicate FlaggedJournals(journals: seq<Group<string>>, lines: seq<GlLine>, t: BalanceTest)
  {
    && DistinctBy(journals, KeyOfGroup)
    && forall id :: HasKey(journals, KeyOfGroup, id) <==>
         HasKey(lines, JournalIdOf, id) && Flags(t, SumWhere(lines, JournalIdOf, LocalAmountOf, id))
  }

  // ---------------------------------------------------------------------------
  // Proofs

  /** Filtering the per-journal totals by the balance test gives the out-of-balance journals. */
  lemma FilteredTotalsFlagged(lines: seq<GlLine>, t: BalanceTest)
    ensures FlaggedJournals(Filter(JournalTotals(lines), FlagsGroup(t)), lines, t)
  {
    var totals := JournalTotals(lines);
    var p := FlagsGroup(t);
    var je := Filter(totals, p);
    GroupKeyColumn(totals);
    FilterDistinct(totals, p, KeyOfGroup);
    FilterMembers(totals, p);
    forall id
      ensures HasKey(je, KeyOfGroup, id) <==>
        HasKey(lines, JournalIdOf, id) && Flags(t, SumWhere(lines, JournalIdOf, LocalAmountOf, id))
    {
      if HasKey(je, KeyOfGroup, id) {
        var i :| 0 <= i < |je| && KeyOfGroup(je[i]) == id;
        assert je[i] in je;
        var j :| 0 <= j < |totals| && totals[j] == je[i];
        GroupSumTotals(lines, JournalIdOf, LocalAmountOf, j);
        assert HasGroup(totals, id);
      }
      if HasKey(lines, JournalIdOf, id) && Flags(t, SumWhere(lines, JournalIdOf, LocalAmountOf, id)) {
        assert HasGroup(totals, id);
        var j :| 0 <= j < |totals| && totals[j].key == id;
        GroupSumTotals(lines, JournalIdOf, LocalAmountOf, j);
        assert p(totals[j]);
        assert totals[j] in je;
        var i :| 0 <= i < |je| && je[i] == totals[j];
        assert KeyOfGroup(je[i]) == id;
      }
    }
  }

  /**
   * Joining the kept lines with a frame of their out-of-balance journals and
   * projecting gives exactly the report columns of the selected lines, in
   * input order: every kept line of a flagged journal once, no other line.
   */
  lemma JoinSelects(gl: seq<GlLine>, f: LineFilter, t: BalanceTest, journals: seq<Group<string>>)
    requires FlaggedJournals(journals, RetainedLines(gl, f), t)
    ensures MapRows(JoinJournals(RetainedLines(gl, f), journals), ProjectJoined) == MapRows(SelectedLines(gl, f, t), ReportLineOf)
  {
    var kept := RetainedLines(gl, f);
    var j := JoinJournals(kept, journals);
    var inJe := KeyIn(journals, KeyOfGroup, JournalIdOf);
    var flagged := JournalFlagged(gl, f, t);
    InnerJoinDistinct(kept, journals, JournalIdOf, KeyOfGroup);
    var joinedLines := Filter(kept, inJe);
    assert MapRows(j, ProjectJoined) == MapRows(joinedLines, ReportLineOf);
    FilterMembers(gl, KeepsLine(f));
    forall i | 0 <= i < |kept|
      ensures inJe(kept[i]) == flagged(kept[i])
    {
      assert kept[i] in kept;
      assert HasKey(kept, JournalIdOf, kept[i].journalId);
    }
    FilterCongruent(kept, inJe, flagged);
    FilterFilter(gl, KeepsLine(f), flagged);
  }

  // ---------------------------------------------------------------------------
  // Consequences of the specification

  /** A report holds exactly the report columns of the selected lines. */
  lemma ReportMembers(out: seq<ReportLine>, gl: seq<GlLine>, f: LineFilter, t: BalanceTest)
    requires IsUnbalancedReport(out, gl, f, t)
    ensures forall r :: r in out ==>
      exists i :: 0 <= i < |gl| && ReportLineOf(gl[i]) == r && Keeps(f, gl[i].localAmount) && Flags(t, JournalTotal(gl, f, gl[i].journalId))
    ensures forall i :: 0 <= i < |gl| && Keeps(f, gl[i].localAmount) && Flags(t, JournalTotal(gl, f, gl[i].journalId)) ==>
      ReportLineOf(gl[i]) in out
  {
    var sel := SelectedLines(gl, f, t);
    var p := Both(KeepsLine(f), JournalFlagged(gl, f, t));
    var expected := MapRows(sel, ReportLineOf);
    FilterMembers(gl, p);
    forall r | r in out
      ensures exists i :: 0 <= i < |gl| && ReportLineOf(gl[i]) == r && Keeps(f, gl[i].localAmount) && Flags(t, JournalTotal(gl, f, gl[i].journalId))
    {
      assert r in multiset(out);
      assert r in multiset(expected);
      var k :| 0 <= k < |expected| && expected[k] == r;
      assert sel[k] in sel;
      var i :| 0 <= i < |gl| && gl[i] == sel[k];
      assert p(gl[i]);
    }
    forall i | 0 <= i < |gl| && Keeps(f, gl[i].localAmount) && Flags(t, JournalTotal(gl, f, gl[i].journalId))
      ensures ReportLineOf(gl[i]) in out
    {
      assert p(gl[i]);
      assert gl[i] in sel;
      var k :| 0 <= k < |sel| && sel[k] == gl[i];
      assert expected[k] == ReportLineOf(gl[i]);
      assert ReportLineOf(gl[i]) in multiset(expected);
      assert ReportLineOf(gl[i]) in multiset(out);
    }
  }

  /** A report neither duplicates nor invents lines: it is a sub-multiset of the kept input lines. */
  lemma ReportWithinRetained(out: seq<ReportLine>, gl: seq<GlLine>, f: LineFilter, t: BalanceTest)
    requires IsUnbalancedReport(out, gl, f, t)
    ensures multiset(out) <= multiset(MapRows(RetainedLines(gl, f), ReportLineOf))
  {
    var kept := RetainedLines(gl, f);
    FilterFilter(gl, KeepsLine(f), JournalFlagged(gl, f, t));
    SubsequenceMultiset(kept, JournalFlagged(gl, f, t));
  }

  lemma {:induction false} SubsequenceMultiset(s: seq<GlLine>, p: GlLine -> bool)
    ensures multiset(MapRows(Filter(s, p), ReportLineOf)) <= multiset(MapRows(s, ReportLineOf))
  {
    if s != [] {
      var init := s[..|s| - 1];
      var last := s[|s| - 1];
      SubsequenceMultiset(init, p);
      assert MapRows(s, ReportLineOf) == MapRows(init, ReportLineOf) + [ReportLineOf(last)];
      if p(last) {
        assert MapRows(Filter(s, p), ReportLineOf) == MapRows(Filter(init, p), ReportLineOf) + [ReportLineOf(last)];
      } else {
        assert Filter(s, p) == Filter(init, p);
      }
    }
  }

  /** Every line of a report was kept by the line filter. */
  lemma ReportLinesKept(out: seq<ReportLine>, gl: seq<GlLine>, f: LineFilter, t: BalanceTest)
    requires IsUnbalancedReport(out, gl, f, t)
    ensures forall r :: r in out ==> Keeps(f, r.localAmount)
  {
    ReportMembers(out, gl, f, t);
  }

  /** A journal whose kept lines total exactly zero never appears, under any balance test. */
  lemma BalancedJournalAbsent(out: seq<ReportLine>, gl: seq<GlLine>, f: LineFilter, t: BalanceTest, id: string)
    requires IsUnbalancedReport(out, gl, f, t)
    requires JournalTotal(gl, f, id) == 0.0
    requires t.AbsAbove? ==> t.eps >= 0.0
    ensures forall r :: r in out ==> r.journalId != id
  {
    ReportMembers(out, gl, f, t);
    RoundedTestThresholds(0.0);
  }
  /** Whether a journal is in a frame depends only on the frame's key column. */
  lemma FlaggedJournalsByKeys(a: seq<Group<string>>, b: seq<Group<string>>, lines: seq<GlLine>, t: BalanceTest)
    requires FlaggedJournals(a, lines, t)
    requires |a| == |b| && forall i :: 0 <= i < |a| ==> a[i].key == b[i].key
    ensures FlaggedJournals(b, lines, t)
  {
    forall id | HasKey(b, KeyOfGroup, id)
      ensures HasKey(a, KeyOfGroup, id)
    {
      var i :| 0 <= i < |b| && KeyOfGroup(b[i]) == id;
      assert KeyOfGroup(a[i]) == id;
    }
    forall id | HasKey(a, KeyOfGroup, id)
      ensures HasKey(b, KeyOfGroup, id)
    {
      var i :| 0 <= i < |a| && KeyOfGroup(a[i]) == id;
      assert KeyOfGroup(b[i]) == id;
    }
  }

  /** Dropping exact-zero lines changes no journal's total. */
  lemma ZeroLinesIrrelevant(gl: seq<GlLine>, id: string)
    ensures JournalTotal(gl, DropExactZero, id) == SumWhere(gl, JournalIdOf, LocalAmountOf, id)
  {
    SumWhereFilter(gl, KeepsLine(DropExactZero), JournalIdOf, LocalAmountOf, id);
  }

  /**
   * The rounded tests flag a total by its distance from zero: rounding halves
   * away from zero flags every total of at least half a cent, rounding halves
   * to even only the totals beyond half a cent.
   */
  lemma RoundedTestThresholds(total: real)
    ensures Flags(RoundedAbsPositive, total) <==> Abs(total) >= 0.005
    ensures Flags(RoundedEvenAbsPositive, total) <==> Abs(total) > 0.005
  {
    Round2PositiveIff(Abs(total));
    Round2EvenPositiveIff(Abs(total));
  }
}
