/**
 * The schema contract guarding the inputs of the polars pipeline
 * (`validate_schema` and the fixed GL and TB schemas that `read_gl` and
 * `read_tb` check a loaded frame against).
 *
 * A lazy frame is modelled by what validation looks at: the result of
 * resolving its schema, which may itself fail, and the plan it carries,
 * which validation passes through untouched. Reading the Parquet file is a
 * parameter: the result the loader returned.
 */
module SchemaContract {
  import opened Wrappers

  datatype DataType = String | Float64

  datatype Field = Field(name: string, dtype: DataType)

  /** A schema as `Schema::from_iter` builds it: the fields in declaration order. */
  type Schema = seq<Field>

  /** The errors the pipeline surfaces; loader and resolution errors are carried unchanged. */
  datatype PolarsError =
    | SchemaMismatch(message: string)
    | ComputeError(message: string)
    | IoError(message: string)

  /** A lazy frame: its schema as resolution reports it, and its (unevaluated) contents. */
  datatype LazyFrame<D> = LazyFrame(resolvedSchema: Result<Schema, PolarsError>, plan: D)

  const MismatchMessage: string := "The expected and provided schemas did not match"

  /** The GL contract: seven string columns and the Float64 amount. */
  const GlSchema: Schema := [
    Field("GL_Business_Unit_Code", String),
    Field("GL_Doc_Number", String),
    Field("GL_Fiscal_Year", String),
    Field("GL_Line_Number", String),
    Field("GL_Effective_Date", String),
    Field("GL_Account_Number", String),
    Field("GL_Local_Amount", Float64),
    Field("GL_Journal_ID", String)
  ]

  /** The TB contract: three string key columns and two Float64 balances. */
  const TbSchema: Schema := [
    Field("TB_Business_Unit_Code", String),
    Field("TB_Fiscal_Year", String),
    Field("TB_Account_Number", String),
    Field("TB_Amount_Opening_Balance", Float64),
    Field("TB_Amount_Ending_Balance", Float64)
  ]

  /** The type of the first column of `s` called `name`, if there is one. */
  function ColumnType(s: Schema, name: string): Option<DataType>
  {
    if s == [] then None
    else if s[0].name == name then Some(s[0].dtype)
    else ColumnType(s[1..], name)
  }

  /**
   * `validate_schema`: a resolution error is returned as it is, before any
   * comparison; otherwise the frame passes exactly when its schema equals the
   * expected one, and fails with the fixed SchemaMismatch message when not.
   */
  function ValidateSchema<D>(lf: LazyFrame<D>, expected: Schema): (r: Result<(), PolarsError>)
    ensures lf.resolvedSchema.Failure? ==> r == Failure(lf.resolvedSchema.error)
    ensures lf.resolvedSchema.Success? ==>
      (r.Success? <==> lf.resolvedSchema.value == expected) &&
      (r.Failure? ==> r.error == SchemaMismatch(MismatchMessage))
  {
    match lf.resolvedSchema
    case Failure(e) => Failure(e)
    case Success(s) => if s == expected then Success(()) else Failure(SchemaMismatch(MismatchMessage))
  }

  /**
   * "Load then validate": a load failure is returned before validation is
   * attempted; a frame that fails validation is not returned; a frame that
   * passes is returned unchanged.
   */
  function ReadValidated<D>(loaded: Result<LazyFrame<D>, PolarsError>, expected: Schema): (r: Result<LazyFrame<D>, PolarsError>)
    ensures loaded.Failure? ==> r == Failure(loaded.error)
    ensures loaded.Success? ==>
      match ValidateSchema(loaded.value, expected)
      case Success(_) => r == Success(loaded.value)
      case Failure(e) => r == Failure(e)
  {
    match loaded
    case Failure(e) => Failure(e)
    case Success(lf) =>
      match ValidateSchema(lf, expected)
      case Failure(e) => Failure(e)
      case Success(_) => Success(lf)
  }

  /** `read_gl`, given what reading the Parquet path returned. */
  function ReadGl<D>(loaded: Result<LazyFrame<D>, PolarsError>): (r: Result<LazyFrame<D>, PolarsError>)
    ensures r.Success? <==> loaded.Success? && loaded.value.resolvedSchema == Success(GlSchema)
    ensures r.Success? ==> r.value == loaded.value
  {
    ReadValidated(loaded, GlSchema)
  }

  /** `read_tb`, given what reading the Parquet path returned. */
  function ReadTb<D>(loaded: Result<LazyFrame<D>, PolarsError>): (r: Result<LazyFrame<D>, PolarsError>)
    ensures r.Success? <==> loaded.Success? && loaded.value.resolvedSchema == Success(TbSchema)
    ensures r.Success? ==> r.value == loaded.value
  {
    ReadValidated(loaded, TbSchema)
  }

  /** The GL contract names each column once, and its only Float64 column is the amount. */
  lemma GlContractColumns()
    ensures |GlSchema| == 8
    ensures forall i :: 0 <= i < |GlSchema| ==> (GlSchema[i].dtype == Float64 <==> GlSchema[i].name == "GL_Local_Amount")
    ensures ColumnType(GlSchema, "GL_Local_Amount") == Some(Float64)
    ensures ColumnType(GlSchema, "GL_Journal_ID") == Some(String)
  {
  }

  /** The TB contract's only Float64 columns are the two balances. */
  lemma TbContractColumns()
    ensures |TbSchema| == 5
    ensures forall i :: 0 <= i < |TbSchema| ==>
      (TbSchema[i].dtype == Float64 <==> i == 3 || i == 4)
    ensures ColumnType(TbSchema, "TB_Amount_Opening_Balance") == Some(Float64)
    ensures ColumnType(TbSchema, "TB_Amount_Ending_Balance") == Some(Float64)
  {
  }

  /** A schema with one column renamed to a name it does not have is rejected. */
  lemma RenamedColumnRejected<D>(lf: LazyFrame<D>, expected: Schema, i: nat, newName: string)
    requires i < |expected|
    requires forall f :: f in expected ==> f.name != newName
    requires lf.resolvedSchema == Success(expected[i := Field(newName, expected[i].dtype)])
    ensures ValidateSchema(lf, expected) == Failure(SchemaMismatch(MismatchMessage))
  {
    assert lf.resolvedSchema.value[i] != expected[i];
  }

  /** A schema with one column given another type is rejected. */
  lemma RetypedColumnRejected<D>(lf: LazyFrame<D>, expected: Schema, i: nat, t: DataType)
    requires i < |expected| && t != expected[i].dtype
    requires lf.resolvedSchema == Success(expected[i := Field(expected[i].name, t)])
    ensures ValidateSchema(lf, expected) == Failure(SchemaMismatch(MismatchMessage))
  {
    assert lf.resolvedSchema.value[i] != expected[i];
  }

  /** A schema missing one column is rejected. */
  lemma MissingColumnRejected<D>(lf: LazyFrame<D>, expected: Schema, i: nat)
    requires i < |expected|
    requires lf.resolvedSchema == Success(expected[..i] + expected[i + 1..])
    ensures ValidateSchema(lf, expected) == Failure(SchemaMismatch(MismatchMessage))
  {
  }

  /** A schema with one extra column is rejected. */
  lemma ExtraColumnRejected<D>(lf: LazyFrame<D>, expected: Schema, i: nat, extra: Field)
    requires i <= |expected|
    requires lf.resolvedSchema == Success(expected[..i] + [extra] + expected[i..])
    ensures ValidateSchema(lf, expected) == Failure(SchemaMismatch(MismatchMessage))
  {
  }
}
