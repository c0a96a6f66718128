# compute-comparison reconciliation reports, modelled in Dafny

compute-comparison runs the same two accounting reconciliation reports on
three dataframe engines (Polars from Rust, PySpark and Dask) and ships a
generator that builds large test data sets from a seed General Ledger
(GL) and Trial Balance (TB). This project models the following as pure
functions over sequences of rows, and proves what each one promises:

- **Unbalanced journal-entry report.** Drop immaterial GL lines and total
  the rest per `GL_Journal_ID`. Keep the journals whose total is out of
  balance, join them back to their lines, project five columns and sort by
  (journal, line).
- **Completeness report.** Total GL activity per account (fiscal year,
  business unit, account number), and total TB opening and ending balances
  per account. Full-outer-join the two, then compute
  Opening + Activity - Ending.
- **Schema contract.** The Polars reader rejects any GL or TB file whose
  column names and types differ from the fixed schema.
- **Data generator.** Restack the seed once per stack with fiscal year
  `0000`, `0001`, … and rebuild `GL_Journal_ID`. Cut the stacks into
  chunks of `chunk_size`. Write each chunk, concatenated and sorted, to
  `gl_NNNN.parquet` or `tb_NNNN.parquet`.

The reports share one specification (`Unbalanced`, `Completeness`), built
from the relational operators in `Relational` and the sort in `Sorting`.
Each engine's module (`PolarsUnbalanced`, `SparkUnbalanced`,
`DaskUnbalanced`, `PolarsCompleteness`, `SparkCompleteness`,
`DaskCompleteness`) composes those operators as its source does. Each is
proved to meet the shared specification, with its own policies made
explicit:

- which lines count as immaterial;
- which totals count as out of balance;
- whether sums are rounded to cents;
- how nulls from the outer join are filled.

`EngineComparison` proves how the engines' answers relate.

Amounts are exact reals. Two roundings to cents are modelled:

- `Round2` rounds halves away from zero, as `round` does in Polars and in
  PySpark.
- `Round2Even` rounds halves to even, as pandas' `round` does, following
  numpy.

The two agree everywhere except at exact half cents.
Sorts are specified as "sorted by the key and a permutation of the input"
(`Sorting.IsSortedPermutation`). Strings compare by code point and nulls
sort after every string.

Where the documented design and the code differ, the model follows the
code:

- Polars flags a journal when |total| > 0.00001, not when its rounded
  total is nonzero. The rounded test is commented out in
  `polars-rust/src/packs/unbalanced.rs:18-20`.
- Only Polars rounds the group sums and the Difference in the completeness
  report. PySpark and Dask compute an unrounded difference.
- PySpark and Dask name the difference column `Differance`.
- The Polars completeness report is not sorted. The Dask one is sorted by
  (Business_Unit_Code, Fiscal_Year, Account_Number), and the PySpark one
  is not sorted.
- PySpark and Dask report different lines when a journal's total is
  exactly half a cent in magnitude. PySpark rounds that magnitude up to a
  cent and reports the journal; Dask rounds it to zero and does not.
- Polars does not keep the design's promise that a journal whose lines
  sum to zero is never reported. It drops lines within 0.00001 of zero
  before totalling, so lines of 0.00002, -0.00001 and -0.00001 in one
  journal leave 0.00002 and are reported. Conversely, a journal made only
  of such near-zero lines is never reported, whatever they sum to.
  PySpark and Dask keep the promise.
- PySpark and Dask take the report's key columns from the TB side of the
  join, so an account with GL lines but no TB rows is reported with null
  keys. Polars coalesces the keys, so every row keeps its key.

## Model

| member | source | states |
|---|---|---|
| Money.Round2 | polars-rust/src/packs/completeness.rs:14 | `round(2)` yields a whole number of cents within half a cent of its argument |
| Money.Round2HalfAwayFromZero | pyspark/src/packs/unbalanced.py:18 | at an exact half cent, Polars' and PySpark's `round` move half a cent away from zero |
| Money.Round2Even | dask/src/packs/unbalanced.py:24 | pandas' `round(2)` yields a whole number of cents within half a cent of its argument, and an even number of cents at an exact half cent |
| Money.Round2EvenAgrees | dask/src/packs/unbalanced.py:24 | away from exact half cents, pandas' rounding and PySpark's rounding give the same cents |
| Money.HalfCentTieRules | dask/src/packs/unbalanced.py:24 | 0.005 rounds to 0.01 under PySpark's rule and to 0.00 under pandas' rule |
| Money.Round2PositiveIff | pyspark/src/packs/unbalanced.py:16-23 | a non-negative magnitude rounds to a positive number of cents exactly when it is at least half a cent |
| Money.Round2EvenPositiveIff | dask/src/packs/unbalanced.py:24 | under pandas' rule, a non-negative magnitude rounds to a positive number of cents exactly when it exceeds half a cent |
| Money.Round2NearZero | pyspark/src/packs/unbalanced.py:16-20 | a magnitude under half a cent rounds to zero cents |
| Money.Round2Positive | pyspark/src/packs/unbalanced.py:16-23 | a magnitude over half a cent rounds to at least one cent |
| Money.Round2Idempotent | polars-rust/src/packs/completeness.rs:36-41 | rounding an already-rounded sum again changes nothing |
| Sorting.SortByCorrect | polars-rust/src/packs/unbalanced.rs:39-44 | the sort returns exactly the input rows, each as often as before, in ascending key order |
| Sorting.KeyLeTotal | polars-rust/src/packs/unbalanced.rs:39-44 | any two sort keys are comparable |
| Sorting.KeyLeTransitive | polars-rust/src/packs/unbalanced.rs:39-44 | the multi-column sort order is transitive |
| Sorting.StrLeAntisymmetric | polars-rust/src/packs/unbalanced.rs:39-44 | two strings that sort each before the other are equal |
| Relational.FilterMultiset | polars-rust/src/packs/unbalanced.rs:6 | a filter keeps each accepted row exactly as often as the input has it, and no rejected row |
| Relational.FilterMembers | polars-rust/src/packs/unbalanced.rs:6 | every filtered row is accepted and from the input; every accepted input row is kept |
| Relational.FilterFilter | polars-rust/src/packs/unbalanced.rs:17-20 | two filters in sequence are the filter on their conjunction |
| Relational.GroupSum | polars-rust/src/packs/unbalanced.rs:9-14 | group-by-sum has one row per distinct input key and no other key, and each total is the sum of that key's amounts |
| Relational.GroupSumTotals | polars-rust/src/packs/completeness.rs:11-14 | each output row's total is the sum over the input rows with its key |
| Relational.SumWhereFilter | pyspark/src/packs/unbalanced.py:8-13 | dropping zero-amount rows before grouping changes no total |
| Relational.SumWhereAbsent | pyspark/src/packs/completeness.py:42 | a key with no rows sums to zero, which is what filling a missing side with 0 gives |
| Relational.InnerJoinDistinct | polars-rust/src/packs/unbalanced.rs:23-28 | an inner join against a key-distinct frame keeps each matching left row once, paired with its match, and drops the others |
| Relational.OuterJoinRows | polars-rust/src/packs/completeness.rs:28-33 | each outer-join row of two group-by outputs has a side, and each present side is that key's group row |
| Relational.OuterJoinKeysDistinct | polars-rust/src/packs/completeness.rs:28-33 | the outer join of two group-by outputs has one row per key |
| Relational.OuterJoinCoversKeys | polars-rust/src/packs/completeness.rs:28-33 | a key appears in the outer join exactly when either side has it |
| Relational.SortByProjection | dask/src/packs/unbalanced.py:37-55 | sorting and then selecting columns equals selecting and then sorting, when the selection keeps the sort key |
| SchemaContract.ValidateSchema | polars-rust/src/utils/parquet.rs:16-22 | a schema that cannot be resolved propagates its error; otherwise Ok exactly when the resolved schema equals the expected one, and SchemaMismatch with the fixed message otherwise |
| SchemaContract.ReadValidated | polars-rust/src/io.rs:6-24 | a read error propagates; a frame is returned unchanged exactly when its schema validates |
| SchemaContract.ReadGl | polars-rust/src/io.rs:6-24 | read_gl succeeds exactly when the file loads with the eight-column GL schema, and returns that frame |
| SchemaContract.ReadTb | polars-rust/src/io.rs:27-42 | read_tb succeeds exactly when the file loads with the five-column TB schema, and returns that frame |
| SchemaContract.GlContractColumns | polars-rust/src/io.rs:11-20 | the GL contract has eight columns; GL_Local_Amount is the only Float64 and GL_Journal_ID is a String |
| SchemaContract.TbContractColumns | polars-rust/src/io.rs:32-38 | the TB contract has five columns, and exactly the two balance columns are Float64 |
| SchemaContract.RenamedColumnRejected | polars-rust/src/utils/parquet.rs:17-21 | a file with one column renamed is rejected with SchemaMismatch |
| SchemaContract.RetypedColumnRejected | polars-rust/src/utils/parquet.rs:17-21 | a file with one column of another type is rejected with SchemaMismatch |
| SchemaContract.MissingColumnRejected | polars-rust/src/utils/parquet.rs:17-21 | a file missing a column is rejected with SchemaMismatch |
| SchemaContract.ExtraColumnRejected | polars-rust/src/utils/parquet.rs:17-21 | a file with an extra column is rejected with SchemaMismatch |
| Unbalanced.FilteredTotalsFlagged | polars-rust/src/packs/unbalanced.rs:9-20 | totalling per journal and filtering by the balance test yields one row per journal, exactly for the journals with lines whose total is flagged |
| Unbalanced.JoinSelects | polars-rust/src/packs/unbalanced.rs:23-38 | joining the kept lines to the flagged journals and selecting the report columns gives every kept line of a flagged journal once, in input order, and no other line |
| Unbalanced.ReportMembers | polars-rust/src/packs/unbalanced.rs:4-45 | a report row is exactly a kept input line of a journal whose total is flagged (both directions) |
| Unbalanced.ReportWithinRetained | polars-rust/src/packs/unbalanced.rs:23-28 | the report neither duplicates nor invents lines: it is a sub-multiset of the kept lines |
| Unbalanced.ReportLinesKept | polars-rust/src/packs/unbalanced.rs:6 | no reported line is one the line filter drops |
| Unbalanced.BalancedJournalAbsent | polars-rust/src/packs/unbalanced.rs:17-20 | a journal whose kept lines total exactly zero is never reported |
| Unbalanced.ZeroLinesIrrelevant | pyspark/src/packs/unbalanced.py:8-13 | dropping exact-zero lines changes no journal's total |
| Unbalanced.RoundedTestThresholds | pyspark/src/packs/unbalanced.py:16-23 | PySpark's rounded test flags a total exactly when its magnitude is at least half a cent; pandas' test flags it exactly when its magnitude exceeds half a cent |
| PolarsUnbalanced.UnbalancedJournals | polars-rust/src/packs/unbalanced.rs:9-20 | the journal frame has one row per kept journal whose total exceeds 0.00001 in magnitude, and no other row |
| PolarsUnbalanced.UnbalancedJournalEntriesTest | polars-rust/src/packs/unbalanced.rs:4-45 | the output is the report columns of the lines with \|amount\| > 0.00001 in journals with \|total\| > 0.00001, each as often as in the input, sorted by (journal, line) |
| PolarsUnbalanced.SingleLineJournalReported | polars-rust/src/packs/unbalanced.rs:6-20 | a journal with exactly one line beyond the epsilon is always reported |
| SparkUnbalanced.UnbalancedJournals | pyspark/src/packs/unbalanced.py:11-23 | one row per journal whose total rounds to a positive magnitude, carrying GL_Magnitude = round(\|total\|, 2) of that journal, which is whole cents of at least 0.01 |
| SparkUnbalanced.UnbalancedTest | pyspark/src/packs/unbalanced.py:6-47 | the output is the report columns of the nonzero lines of journals whose rounded magnitude is positive, each as often as in the input, sorted by (journal, line) |
| DaskUnbalanced.UnbalancedJournals | dask/src/packs/unbalanced.py:12-24 | one row per journal whose total rounds half-to-even to a positive magnitude, carrying the raw total |
| DaskUnbalanced.UnbalancedTest | dask/src/packs/unbalanced.py:6-57 | the output is the report columns of the nonzero lines of journals whose magnitude, rounded half-to-even, is positive, each as often as in the input, sorted by (journal, line) |
| EngineComparison.SparkDaskSameLines | dask/src/packs/unbalanced.py:6-57 | when no journal totals exactly half a cent in magnitude, PySpark and Dask report the same lines, each as often, both sorted by (journal, line) |
| EngineComparison.HalfCentJournalDivergence | dask/src/packs/unbalanced.py:24 | a one-line journal of exactly 0.005 is reported by PySpark and not by Dask |
| EngineComparison.TinyJournalDivergence | polars-rust/src/packs/unbalanced.rs:17-20 | a one-line journal of 0.001 is reported by Polars and by neither PySpark nor Dask |
| EngineComparison.ZeroSumJournalAbsentSparkDask | pyspark/src/packs/unbalanced.py:8-23 | a journal whose lines sum to zero has no line on the PySpark or the Dask report |
| EngineComparison.NegligibleJournalAbsentPolars | polars-rust/src/packs/unbalanced.rs:6-20 | a journal none of whose lines exceeds 0.00001 in magnitude has no line on the Polars report |
| EngineComparison.ZeroSumJournalDivergence | polars-rust/src/packs/unbalanced.rs:6 | lines 0.00002, -0.00001, -0.00001 of one journal sum to zero, yet Polars reports the first, and neither PySpark nor Dask reports the journal |
| Completeness.GlByAccount | polars-rust/src/packs/completeness.rs:6-14 | one row per account with GL lines, carrying that account's summed activity (rounded when the engine rounds) |
| Completeness.TbByAccount | polars-rust/src/packs/completeness.rs:17-25 | one row per account with TB rows, carrying its summed opening and ending balances (rounded when the engine rounds) |
| Completeness.AccountRowContents | polars-rust/src/packs/completeness.rs:28-33 | each outer-join row has the GL side exactly when the account has GL lines and the TB side exactly when it has TB rows, each carrying that account's sums |
| Completeness.AccountOrder | polars-rust/src/packs/completeness.rs:28-33 | the join's accounts are distinct, one per join row, and are exactly the accounts with GL lines or TB rows |
| Completeness.AccountsCovered | pyspark/src/packs/completeness.py:30-39 | an account is in the outer join exactly when it has GL lines or TB rows |
| PolarsCompleteness.CompletenessTest | polars-rust/src/packs/completeness.rs:4-54 | row i is account i's report row, with rounded sums, null for a missing side, and Difference = round(Opening + Activity - Ending) with nulls read as 0 |
| PolarsCompleteness.OneRowPerAccount | polars-rust/src/packs/completeness.rs:28-53 | every account with GL lines or TB rows has a row carrying its key, and no key is on two rows |
| PolarsCompleteness.GlOnlyDifference | polars-rust/src/packs/completeness.rs:36-42 | a GL-only account has null balances and a Difference equal to its activity |
| PolarsCompleteness.TbOnlyDifference | polars-rust/src/packs/completeness.rs:36-42 | a TB-only account has null activity and Difference = round(Opening - Ending) |
| PolarsCompleteness.ReconciledAccount | polars-rust/src/packs/completeness.rs:36-42 | an account whose cents reconcile (Opening + Activity = Ending) shows a zero Difference |
| SparkCompleteness.CompletenessTest | pyspark/src/packs/completeness.py:6-73 | row i is account i's report row: TB-side keys, zero-filled unrounded sums, Differance = Opening + Activity - Ending |
| SparkCompleteness.NoNullAmounts | pyspark/src/packs/completeness.py:42 | after `na.fill(0)` no amount cell of the report is null |
| SparkCompleteness.GlOnlyAccount | pyspark/src/packs/completeness.py:42-72 | a GL-only account has null keys, zero balances and Differance equal to its activity |
| SparkCompleteness.TbOnlyAccount | pyspark/src/packs/completeness.py:42-72 | a TB-only account keeps its key, has zero activity and Differance = Opening - Ending |
| SparkCompleteness.OneRowPerAccount | pyspark/src/packs/completeness.py:30-72 | the keys on the report are exactly the accounts with TB rows, each on one row, and every GL-only account has an unkeyed row with its activity |
| DaskCompleteness.CompletenessTest | dask/src/packs/completeness.py:6-69 | the report is the accounts' report rows, sorted by (business unit, fiscal year, account) with null keys last |
| DaskCompleteness.MergedRows | dask/src/packs/completeness.py:32-56 | the merged, differenced and renamed rows are the accounts' report rows, in join order |
| DaskCompleteness.DifferenceOnlyWhenBothSides | dask/src/packs/completeness.py:41-45 | Differance is non-null exactly when the account has both GL lines and TB rows, and is then Opening + Activity - Ending |
| DaskCompleteness.UnkeyedRowsLast | dask/src/packs/completeness.py:57-66 | in the sorted report, every row after an unkeyed row is unkeyed |
| DaskCompleteness.KeyedRows | dask/src/packs/completeness.py:32-66 | an account's key is on the report exactly when it has TB rows |
| DaskCompleteness.GlOnlyRow | dask/src/packs/completeness.py:32-66 | a GL-only account has an unkeyed row carrying its activity, with a null Differance, and only unkeyed rows follow it |
| Chunking.Chunks | data-generator/src/main.rs:133 | the chunks concatenate back to the stacks; none is empty; each holds at most chunk_size stacks, and all but the last exactly chunk_size |
| Chunking.ChunkCount | data-generator/src/main.rs:220 | the number of chunks is the least count whose chunk_size-sized slots hold every stack |
| Chunking.ConcatAppend | data-generator/src/main.rs:143 | concatenating two lists of frames is concatenating their concatenations |
| Chunking.ConcatPermutation | data-generator/src/main.rs:143-152 | concatenating frames that are each permuted permutes the concatenation |
| Generator.ZeroPad4Value | data-generator/src/main.rs:91 | the zero-padded stack number still denotes the stack number |
| Generator.ZeroPad4Injective | data-generator/src/main.rs:91 | different stacks get different fiscal years |
| Generator.ZeroPad4Width | data-generator/src/main.rs:91 | stacks below 10000 get a fiscal year of exactly four digits |
| Generator.RestackGlLine | data-generator/src/main.rs:94-119 | a restacked GL line has the stack's fiscal year and journal id BU-Doc-FY, and every other column unchanged |
| Generator.RestackTbRow | data-generator/src/main.rs:194-206 | a restacked TB row has the stack's fiscal year and every other column unchanged |
| Generator.GlStacks | data-generator/src/main.rs:88-123 | there are number_of_stacks GL stacks, stack k holding each seed line restacked to year k, in seed order |
| Generator.TbStacks | data-generator/src/main.rs:188-210 | there are number_of_stacks TB stacks, stack k holding each seed row restacked to year k, in seed order |
| Generator.JournalIdEndsWithYear | data-generator/src/main.rs:109-119 | a restacked journal id ends with "-" followed by the stack's year, which holds no "-" |
| Generator.StackJournalsDisjoint | data-generator/src/main.rs:109-119 | lines of different stacks never share a journal id |
| Generator.ChunkFileNamesDistinct | data-generator/src/main.rs:139 | different chunk indices get different file names |
| Generator.WriteChunk | data-generator/src/main.rs:139-156 | chunk i is written to its own file name, holding the chunk's stacks concatenated and sorted by the file's key |
| Generator.Generate | data-generator/src/main.rs:64-164 | a scan or schema error propagates; a schema other than the expected one panics; chunk_size 0 panics; otherwise one sorted file per chunk |
| Generator.GenerateGlData | data-generator/src/main.rs:64-164 | `generate_gl_data`: a scan or schema error propagates; a schema other than the GL contract or chunk_size 0 panics; otherwise one file per chunk of the stacked GL, sorted by (business unit, doc number, fiscal year, line) and named `gl_0000.parquet`, `gl_0001.parquet`, ... |
| Generator.GenerateTbData | data-generator/src/main.rs:167-250 | `generate_tb_data`: a scan or schema error propagates; a schema other than the TB contract or chunk_size 0 panics; otherwise one file per chunk of the stacked TB, sorted by (business unit, fiscal year, account) and named `tb_0000.parquet`, `tb_0001.parquet`, ... |
| Generator.GlFilesHoldAllStacks | data-generator/src/main.rs:88-161 | together the GL files hold exactly the rows of all the stacks, each as often |
| Generator.GlRowsRestacked | data-generator/src/main.rs:88-123 | every generated GL row is a seed line restacked to some stack |
| Generator.TbFilesHoldAllStacks | data-generator/src/main.rs:188-247 | together the TB files hold exactly the rows of all the stacks, each as often |
| Generator.TbRowsRestacked | data-generator/src/main.rs:188-210 | every generated TB row is a seed row restacked to some stack |

## Left out

- Parquet I/O is not modelled: reading (`read_parquet`, `scan_parquet`), writing (`write_parquet`, `sink_parquet`), `reset_output` and the generator's removal and creation of the output folder. A loaded file is a parameter (`Result<LazyFrame, PolarsError>`), and a written file is an `OutputFile` value.
- Generator.Generate: an error from `concat` or `sink_parquet` while a chunk is written is not modelled. Every chunk is assumed written once the schema check passes and chunk_size > 0.
- The rayon parallel loop over chunks is not modelled; the files are produced as a sequence in chunk order. The `println!` progress lines are left out.
- Dask partitions are not modelled: the frame is one partition, so the per-partition group-by and sort are the whole-frame ones. `Client`, `compute` and `repartition` are left out, as are the Spark session and lazy evaluation.
- Floating point is not modelled. Amounts are exact reals, so summation order, representation error and NaN do not arise. Ties are taken on exact reals. In the engines, a decimal half cent is rarely exactly representable in binary, so whether a given total hits a tie depends on its floating-point value.
- Null or NaN values in input columns are not modelled. Every GL and TB cell is present; the only nulls are those the outer join makes.
- Schemas are compared as ordered lists of (name, type), field by field: a file with the right columns in another order is rejected.
- The command-line drivers (the three `main` files) only parse paths and call the modelled functions, so they are not modelled.
- The Polars sorts' null-placement flag is not modelled: the keys Polars sorts by are never null.
- Chunking.ChunkCount states the chunk count as the ceiling bound (count × size ≥ length > (count − 1) × size) rather than as a division.
- The order of rows produced by a group-by or a join is not specified by any engine. The model fixes one order, and nothing downstream depends on it.
