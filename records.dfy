/** The rows of the dashboard's tables and the column projections that the
    group-bys and filters use. */
module Records {
  import opened Calendar

  /** One row of the layoffs table or of the hiring table: `count` is the
      `layoffs` column of the one and the `hires` column of the other. */
  datatype Event = Event(
    date: Date,
    company: string,
    count: nat,
    industry: string,
    location: string,
    year: int,
    month: int,
    quarter: string)

  /** The year and month columns agree with the date column. */
  predicate WellFormed(e: Event) {
    ValidDate(e.date) && e.year == e.date.year && e.month == e.date.month
  }

  /** One row of the fused table. */
  datatype FusedRow = FusedRow(
    company: string,
    year: int,
    month: int,
    layoffs: nat,
    hires: nat,
    industry: string,
    location: string,
    netChange: int,
    employmentRatio: real,
    date: Date)

  /** Group-by keys. */
  datatype MonthKey = MonthKey(company: string, year: int, month: int)
  datatype IndustryYear = IndustryYear(industry: string, year: int)
  datatype YearMonth = YearMonth(year: int, month: int)

  function EventKey(e: Event): MonthKey { MonthKey(e.company, e.year, e.month) }
  function EventCount(e: Event): int { e.count }
  function EventCompany(e: Event): string { e.company }
  function EventIndustry(e: Event): string { e.industry }
  function EventYear(e: Event): int { e.year }
  function EventMonth(e: Event): int { e.month }
  function EventYearMonth(e: Event): YearMonth { YearMonth(e.year, e.month) }
  function EventIndustryYear(e: Event): IndustryYear { IndustryYear(e.industry, e.year) }

  function RowKey(r: FusedRow): MonthKey { MonthKey(r.company, r.year, r.month) }
  function RowCompany(r: FusedRow): string { r.company }
  function RowIndustry(r: FusedRow): string { r.industry }
  function RowYear(r: FusedRow): int { r.year }
  function RowLayoffs(r: FusedRow): int { r.layoffs }
  function RowHires(r: FusedRow): int { r.hires }
  function RowNetChange(r: FusedRow): int { r.netChange }
}
