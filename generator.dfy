/**
 * The data generator's stacking of seed data.
 *
 * Stack k of the GL seed is the seed with GL_Fiscal_Year replaced by k
 * zero-padded to four digits and GL_Journal_ID rebuilt from the business
 * unit, document number and that new year; a TB stack only rewrites
 * TB_Fiscal_Year. The stacks 0..N-1 are cut into consecutive chunks of
 * `chunk_size`, and chunk i becomes the file gl_NNNN.parquet (tb_NNNN.parquet)
 * holding its stacks concatenated and sorted.
 */
module Generator {
  import opened Wrappers
  import opened Sorting
  import opened Relational
  import opened Ledger
  import opened SchemaContract
  import opened Chunking

  // ---------------------------------------------------------------------------
  // `format!("{:0>4}", n)`

  predicate IsDigit(c: char)
  {
    '0' <= c <= '9'
  }

  predicate AllDigits(s: string)
  {
    forall i :: 0 <= i < |s| ==> IsDigit(s[i])
  }

  function DigitChar(d: nat): (c: char)
    requires d < 10
    ensures IsDigit(c) && c as int - '0' as int == d
  {
    ('0' as int + d) as char
  }

  /** `n` in decimal, most significant digit first, without leading zeros. */
  function Digits(n: nat): (s: string)
    ensures |s| >= 1 && AllDigits(s)
    decreases n
  {
    if n < 10 then [DigitChar(n)] else Digits(n / 10) + [DigitChar(n % 10)]
  }

  /** The number a string of decimal digits denotes. */
  function ValueOf(s: string): nat
    requires AllDigits(s)
  {
    if s == [] then 0 else 10 * ValueOf(s[..|s| - 1]) + (s[|s| - 1] as int - '0' as int)
  }

  lemma {:induction false} DigitsValue(n: nat)
    ensures ValueOf(Digits(n)) == n
    decreases n
  {
    if n >= 10 {
      DigitsValue(n / 10);
      var s := Digits(n);
      assert s[..|s| - 1] == Digits(n / 10);
    }
  }

  /** `s` right-aligned in a field of `width`, filled on the left with `fill`; never truncated. */
  function PadLeft(s: string, width: nat, fill: char): (r: string)
    ensures |r| == if |s| >= width then |s| else width
    ensures r[|r| - |s|..] == s
    ensures forall i :: 0 <= i < |r| - |s| ==> r[i] == fill
  {
    if |s| >= width then s else seq(width - |s|, _ => fill) + s
  }

  /** `format!("{:0>4}", n)`. */
  function ZeroPad4(n: nat): (s: string)
    ensures AllDigits(s)
    ensures |s| >= 4
  {
    PadLeft(Digits(n), 4, '0')
  }

  /** Leading zeros do not change a number's value. */
  lemma {:induction false} LeadingZerosValue(z: nat, s: string)
    requires AllDigits(s)
    ensures AllDigits(seq(z, _ => '0') + s)
    ensures ValueOf(seq(z, _ => '0') + s) == ValueOf(s)
    decreases |s|
  {
    var t := seq(z, _ => '0') + s;
    if s == [] {
      ZerosValue(z);
      assert t == seq(z, _ => '0');
    } else {
      LeadingZerosValue(z, s[..|s| - 1]);
      assert t[..|t| - 1] == seq(z, _ => '0') + s[..|s| - 1];
    }
  }

  lemma {:induction false} ZerosValue(z: nat)
    ensures AllDigits(seq(z, _ => '0'))
    ensures ValueOf(seq(z, _ => '0')) == 0
  {
    if z > 0 {
      ZerosValue(z - 1);
      assert seq(z, _ => '0')[..z - 1] == seq(z - 1, _ => '0');
    }
  }

  /** Zero padding keeps the whole number: the padded string still denotes `n`. */
  lemma ZeroPad4Value(n: nat)
    ensures ValueOf(ZeroPad4(n)) == n
  {
    DigitsValue(n);
    var d := Digits(n);
    if |d| < 4 {
      LeadingZerosValue(4 - |d|, d);
    }
  }

  /** Different numbers never get the same padded string. */
  lemma ZeroPad4Injective(m: nat, n: nat)
    requires ZeroPad4(m) == ZeroPad4(n)
    ensures m == n
  {
    ZeroPad4Value(m);
    ZeroPad4Value(n);
  }

  /** Numbers below 10000 take exactly four characters. */
  lemma {:induction false} ZeroPad4Width(n: nat)
    requires n < 10000
    ensures |ZeroPad4(n)| == 4
  {
    DigitsShort(n, 4);
  }

  function Pow10(m: nat): nat
  {
    if m == 0 then 1 else 10 * Pow10(m - 1)
  }

  lemma {:induction false} DigitsShort(n: nat, m: nat)
    requires 1 <= m && n < Pow10(m)
    ensures |Digits(n)| <= m
    decreases m
  {
    if n >= 10 {
      DigitsShort(n / 10, m - 1);
    }
  }

  // ---------------------------------------------------------------------------
  // Stacking

  /** The fiscal year written into stack `k`. */
  function StackYear(k: nat): string
  {
    ZeroPad4(k)
  }

  /** `concat_str([BU, Doc, FY], "-")`. */
  function JournalId(businessUnitCode: string, docNumber: string, fiscalYear: string): string
  {
    businessUnitCode + "-" + docNumber + "-" + fiscalYear
  }

  /** A seed GL line as it appears in stack `k`. */
  function RestackGlLine(l: GlLine, k: nat): (r: GlLine)
    ensures r.fiscalYear == StackYear(k)
    ensures r.journalId == JournalId(l.businessUnitCode, l.docNumber, StackYear(k))
    ensures r.(fiscalYear := l.fiscalYear, journalId := l.journalId) == l
  {
    var fy := StackYear(k);
    l.(fiscalYear := fy, journalId := JournalId(l.businessUnitCode, l.docNumber, fy))
  }

  /** A seed TB row as it appears in stack `k`. */
  function RestackTbRow(r: TbRow, k: nat): (s: TbRow)
    ensures s.fiscalYear == StackYear(k)
    ensures s.(fiscalYear := r.fiscalYear) == r
  {
    r.(fiscalYear := StackYear(k))
  }

  function RestackGl(k: nat): GlLine -> GlLine
  {
    l => RestackGlLine(l, k)
  }

  function RestackTb(k: nat): TbRow -> TbRow
  {
    r => RestackTbRow(r, k)
  }

  /** The GL stacks 0..n-1 of `seed`, in order. */
  function GlStacks(seed: seq<GlLine>, n: nat): (stacks: seq<seq<GlLine>>)
    ensures |stacks| == n
    ensures forall k :: 0 <= k < n ==> |stacks[k]| == |seed|
    ensures forall k, i :: 0 <= k < n && 0 <= i < |seed| ==> stacks[k][i] == RestackGlLine(seed[i], k)
  {
    seq(n, k requires 0 <= k => MapRows(seed, RestackGl(k)))
  }

  /** The TB stacks 0..n-1 of `seed`, in order. */
  function TbStacks(seed: seq<TbRow>, n: nat): (stacks: seq<seq<TbRow>>)
    ensures |stacks| == n
    ensures forall k :: 0 <= k < n ==> |stacks[k]| == |seed|
    ensures forall k, i :: 0 <= k < n && 0 <= i < |seed| ==> stacks[k][i] == RestackTbRow(seed[i], k)
  {
    seq(n, k requires 0 <= k => MapRows(seed, RestackTb(k)))
  }

  /** The journal id of a restacked line ends with "-" and the stack's year, which holds no '-'. */
  lemma JournalIdEndsWithYear(l: GlLine, k: nat)
    ensures var id := RestackGlLine(l, k).journalId;
      var fy := StackYear(k);
      |id| > |fy| && id[|id| - |fy| - 1] == '-' && id[|id| - |fy|..] == fy && '-' !in fy
  {
    var fy := StackYear(k);
    assert forall i :: 0 <= i < |fy| ==> IsDigit(fy[i]);
  }

  /** Lines of different stacks never share a journal id, whatever their business unit and document. */
  lemma StackJournalsDisjoint(a: GlLine, b: GlLine, j: nat, k: nat)
    requires j != k
    ensures RestackGlLine(a, j).journalId != RestackGlLine(b, k).journalId
  {
    var x := RestackGlLine(a, j).journalId;
    var y := RestackGlLine(b, k).journalId;
    var fj := StackYear(j);
    var fk := StackYear(k);
    JournalIdEndsWithYear(a, j);
    JournalIdEndsWithYear(b, k);
    if |fj| == |fk| && x == y {
      assert fj == x[|x| - |fj|..];
      ZeroPad4Injective(j, k);
    }
  }

  // ---------------------------------------------------------------------------
  // Chunks and files

  /** The file name of chunk `i`: `prefix` and `i` zero-padded to four digits, then ".parquet". */
  function ChunkFileName(prefix: string, i: nat): string
  {
    prefix + ZeroPad4(i) + ".parquet"
  }

  /** Different chunks are written to different files. */
  lemma ChunkFileNamesDistinct(prefix: string, i: nat, j: nat)
    requires i != j
    ensures ChunkFileName(prefix, i) != ChunkFileName(prefix, j)
  {
    var a := ChunkFileName(prefix, i);
    var b := ChunkFileName(prefix, j);
    if a == b {
      assert a[|prefix|..|a| - 8] == ZeroPad4(i);
      assert b[|prefix|..|b| - 8] == ZeroPad4(j);
      ZeroPad4Injective(i, j);
    }
  }

  /** GL files are sorted by (BU, Doc, FY, Line). */
  function GlFileKey(l: GlLine): SortKey
  {
    [Some(l.businessUnitCode), Some(l.docNumber), Some(l.fiscalYear), Some(l.lineNumber)]
  }

  /** TB files are sorted by (BU, FY, Account). */
  function TbFileKey(r: TbRow): SortKey
  {
    [Some(r.businessUnitCode), Some(r.fiscalYear), Some(r.accountNumber)]
  }

  /** One written file: its name and its rows in file order. */
  datatype OutputFile<T> = OutputFile(name: string, rows: seq<T>)

  /** How a generator run ends: files written, an error returned, or a panic. */
  datatype Outcome<T> =
    | Written(files: seq<OutputFile<T>>)
    | Failed(error: PolarsError)
    | Panicked(reason: string)

  /** The file for chunk `i`: the chunk's stacks concatenated and sorted by `key`. */
  function WriteChunk<T>(chunk: seq<seq<T>>, prefix: string, i: nat, key: T -> SortKey): (f: OutputFile<T>)
    ensures f.name == ChunkFileName(prefix, i)
    ensures IsSortedPermutation(f.rows, Concat(chunk), key)
  {
    SortByCorrect(Concat(chunk), key);
    OutputFile(ChunkFileName(prefix, i), SortBy(Concat(chunk), key))
  }

  /** One file per chunk, in chunk order. */
  function WriteChunks<T>(chunks: seq<seq<seq<T>>>, prefix: string, key: T -> SortKey): (files: seq<OutputFile<T>>)
    ensures |files| == |chunks|
    ensures forall i :: 0 <= i < |files| ==> files[i] == WriteChunk(chunks[i], prefix, i, key)
  {
    seq(|chunks|, i requires 0 <= i < |chunks| => WriteChunk(chunks[i], prefix, i, key))
  }

  /**
   * The shared driver of `generate_gl_data` / `generate_tb_data`: a failed scan
   * or schema resolution is returned; a seed whose schema is not the expected
   * one fails the assertion; a chunk size of zero panics in `chunks`;
   * otherwise every chunk of the stacks becomes a file.
   */
  function Generate<T>(loaded: Result<LazyFrame<seq<T>>, PolarsError>, expected: Schema, stacks: seq<T> -> seq<seq<T>>,
                       chunkSize: nat, prefix: string, key: T -> SortKey): (o: Outcome<T>)
    ensures loaded.Failure? ==> o == Failed(loaded.error)
    ensures loaded.Success? && loaded.value.resolvedSchema.Failure? ==> o == Failed(loaded.value.resolvedSchema.error)
    ensures loaded.Success? && loaded.value.resolvedSchema.Success? && loaded.value.resolvedSchema.value != expected ==> o.Panicked?
    ensures loaded.Success? && loaded.value.resolvedSchema == Success(expected) && chunkSize == 0 ==> o.Panicked?
    ensures o.Written? <==> loaded.Success? && loaded.value.resolvedSchema == Success(expected) && chunkSize > 0
    ensures o.Written? ==>
      var chunks := Chunks(stacks(loaded.value.plan), chunkSize);
      |o.files| == |chunks| &&
      forall i :: 0 <= i < |o.files| ==>
        o.files[i].name == ChunkFileName(prefix, i) && IsSortedPermutation(o.files[i].rows, Concat(chunks[i]), key)
  {
    match loaded
    case Failure(e) => Failed(e)
    case Success(lf) =>
      match lf.resolvedSchema
      case Failure(e) => Failed(e)
      case Success(s) =>
        if s != expected then Panicked("assertion `left == right` failed")
        else if chunkSize == 0 then Panicked("chunk size must be non-zero")
        else Written(WriteChunks(Chunks(stacks(lf.plan), chunkSize), prefix, key))
  }

  function GlStacksOf(n: nat): seq<GlLine> -> seq<seq<GlLine>>
  {
    seed => GlStacks(seed, n)
  }

  function TbStacksOf(n: nat): seq<TbRow> -> seq<seq<TbRow>>
  {
    seed => TbStacks(seed, n)
  }

  /** `generate_gl_data`, given what scanning the seed path returned. */
  function GenerateGlData(loaded: Result<LazyFrame<seq<GlLine>>, PolarsError>, n: nat, chunkSize: nat): (o: Outcome<GlLine>)
    ensures loaded.Failure? ==> o == Failed(loaded.error)
    ensures loaded.Success? && loaded.value.resolvedSchema.Failure? ==> o == Failed(loaded.value.resolvedSchema.error)
    ensures loaded.Success? && loaded.value.resolvedSchema.Success? && loaded.value.resolvedSchema.value != GlSchema ==> o.Panicked?
    ensures loaded.Success? && loaded.value.resolvedSchema == Success(GlSchema) && chunkSize == 0 ==> o.Panicked?
    ensures o.Written? <==> loaded.Success? && loaded.value.resolvedSchema == Success(GlSchema) && chunkSize > 0
    ensures o.Written? ==>
      var chunks := Chunks(GlStacks(loaded.value.plan, n), chunkSize);
      |o.files| == |chunks| &&
      forall i :: 0 <= i < |o.files| ==>
        o.files[i].name == "gl_" + ZeroPad4(i) + ".parquet" && IsSortedPermutation(o.files[i].rows, Concat(chunks[i]), GlFileKey)
  {
    Generate(loaded, GlSchema, GlStacksOf(n), chunkSize, "gl_", GlFileKey)
  }

  /** `generate_tb_data`, given what scanning the seed path returned. */
  function GenerateTbData(loaded: Result<LazyFrame<seq<TbRow>>, PolarsError>, n: nat, chunkSize: nat): (o: Outcome<TbRow>)
    ensures loaded.Failure? ==> o == Failed(loaded.error)
    ensures loaded.Success? && loaded.value.resolvedSchema.Failure? ==> o == Failed(loaded.value.resolvedSchema.error)
    ensures loaded.Success? && loaded.value.resolvedSchema.Success? && loaded.value.resolvedSchema.value != TbSchema ==> o.Panicked?
    ensures loaded.Success? && loaded.value.resolvedSchema == Success(TbSchema) && chunkSize == 0 ==> o.Panicked?
    ensures o.Written? <==> loaded.Success? && loaded.value.resolvedSchema == Success(TbSchema) && chunkSize > 0
    ensures o.Written? ==>
      var chunks := Chunks(TbStacks(loaded.value.plan, n), chunkSize);
      |o.files| == |chunks| &&
      forall i :: 0 <= i < |o.files| ==>
        o.files[i].name == "tb_" + ZeroPad4(i) + ".parquet" && IsSortedPermutation(o.files[i].rows, Concat(chunks[i]), TbFileKey)
  {
    Generate(loaded, TbSchema, TbStacksOf(n), chunkSize, "tb_", TbFileKey)
  }

  // ---------------------------------------------------------------------------
  // What the files hold

  function RowsOf<T>(f: OutputFile<T>): seq<T> { f.rows }

  /**
   * A GL run that writes files writes every row of every stack exactly once:
   * the files together hold N copies of the seed, stack k carrying year k.
   */
  lemma GlFilesHoldAllStacks(loaded: Result<LazyFrame<seq<GlLine>>, PolarsError>, n: nat, chunkSize: nat)
    requires GenerateGlData(loaded, n, chunkSize).Written?
    ensures var files := GenerateGlData(loaded, n, chunkSize).files;
      multiset(Concat(MapRows(files, RowsOf))) == multiset(Concat(GlStacks(loaded.value.plan, n)))
  {
    var o := GenerateGlData(loaded, n, chunkSize);
    var stacks := GlStacks(loaded.value.plan, n);
    var chunks := Chunks(stacks, chunkSize);
    var perChunk := MapRows(chunks, Concat);
    ConcatPermutation(MapRows(o.files, RowsOf), perChunk);
    ConcatOfChunks(chunks, perChunk);
  }

  /** Every GL row written carries a stack year below N and the journal id rebuilt from it. */
  lemma GlRowsRestacked(seed: seq<GlLine>, n: nat, r: GlLine)
    requires r in Concat(GlStacks(seed, n))
    ensures exists k, i :: 0 <= k < n && 0 <= i < |seed| && r == RestackGlLine(seed[i], k)
  {
    var stacks := GlStacks(seed, n);
    var k, i := InConcat(stacks, r);
  }

  /** A TB run that writes files writes every row of every stack exactly once. */
  lemma TbFilesHoldAllStacks(loaded: Result<LazyFrame<seq<TbRow>>, PolarsError>, n: nat, chunkSize: nat)
    requires GenerateTbData(loaded, n, chunkSize).Written?
    ensures var files := GenerateTbData(loaded, n, chunkSize).files;
      multiset(Concat(MapRows(files, RowsOf))) == multiset(Concat(TbStacks(loaded.value.plan, n)))
  {
    var o := GenerateTbData(loaded, n, chunkSize);
    var stacks := TbStacks(loaded.value.plan, n);
    var chunks := Chunks(stacks, chunkSize);
    var perChunk := MapRows(chunks, Concat);
    ConcatPermutation(MapRows(o.files, RowsOf), perChunk);
    ConcatOfChunks(chunks, perChunk);
  }

  /** Every TB row written is a seed row with a stack year below N. */
  lemma TbRowsRestacked(seed: seq<TbRow>, n: nat, r: TbRow)
    requires r in Concat(TbStacks(seed, n))
    ensures exists k, i :: 0 <= k < n && 0 <= i < |seed| && r == RestackTbRow(seed[i], k)
  {
    var stacks := TbStacks(seed, n);
    var k, i := InConcat(stacks, r);
  }
}
