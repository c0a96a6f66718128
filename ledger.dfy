/**
 * The two input record types, General Ledger lines and Trial Balance rows,
 * and the column accessors the queries group, join and sort by. Every column
 * is non-null in the inputs.
 */
module Ledger {

  /** One GL line: the eight columns of the GL contract. */
  datatype GlLine = GlLine(
    businessUnitCode: string,
    docNumber: string,
    fiscalYear: string,
    lineNumber: string,
    effectiveDate: string,
    accountNumber: string,
    localAmount: real,
    journalId: string)

  /** One TB row: the five columns of the TB contract. */
  datatype TbRow = TbRow(
    businessUnitCode: string,
    fiscalYear: string,
    accountNumber: string,
    openingBalance: real,
    endingBalance: real)

  /** The reconciliation key (Fiscal_Year, Business_Unit_Code, Account_Number). */
  datatype AccountKey = AccountKey(fiscalYear: string, businessUnitCode: string, accountNumber: string)

  function JournalIdOf(l: GlLine): string { l.journalId }

  function LocalAmountOf(l: GlLine): real { l.localAmount }

  function GlAccountKey(l: GlLine): AccountKey
  {
    AccountKey(l.fiscalYear, l.businessUnitCode, l.accountNumber)
  }

  function TbAccountKey(r: TbRow): AccountKey
  {
    AccountKey(r.fiscalYear, r.businessUnitCode, r.accountNumber)
  }

  function OpeningOf(r: TbRow): real { r.openingBalance }

  function EndingOf(r: TbRow): real { r.endingBalance }
}
