/** The sample-data helpers of the dashboard: the construction of the
    synthetic layoffs and hiring tables, the sorted company list and the
    overall date range. The random number generator is a parameter: draw k
    of the stream is `rng(k)`, and `randint`/`choice` map a draw onto their
    range. */
module DataGenerator {
  import opened Options
  import opened Calendar
  import opened Grouping
  import opened Records

  const Companies: seq<string> := [
    "Meta", "Google", "Amazon", "Microsoft", "Apple", "Netflix", "Tesla",
    "Twitter", "Uber", "Airbnb", "Spotify", "Zoom", "Salesforce", "Adobe",
    "Intel", "NVIDIA", "PayPal", "Square", "Dropbox", "Slack"]

  const Industries: seq<string> := [
    "Social Media", "Search/Cloud", "E-commerce", "Software", "Hardware",
    "Streaming", "Automotive", "Transportation", "Travel", "Music",
    "Video Conferencing", "CRM", "Design", "Semiconductors", "Fintech"]

  const Locations: seq<string> := [
    "San Francisco", "Seattle", "New York", "Austin", "Boston",
    "Los Angeles", "Chicago", "Denver", "Atlanta", "Remote"]

  const LayoffEvents: nat := 500
  const HiringEvents: nat := 600

  /** The first year of the generated period; dates are 1 January of it plus
      a day offset. */
  const StartYear: int := 2020

  /** The last day of the generated period. */
  const EndDate: Date := Date(2024, 12, 31)

  /** The largest day offset, `(end_date - start_date).days`. */
  const SpanDays: nat := 1826

  /** The offset is the number of days elapsed from the start of the period
      to its last day. */
  lemma SpanIsElapsedDays()
    ensures ValidDate(EndDate) && DaysSince(StartYear, EndDate) == SpanDays
  {
  }

  // ---------------------------------------------------------------------
  // Drawing from the random stream
  // ---------------------------------------------------------------------

  /** `random.randint(lo, hi)` on draw k. */
  function RandInt(rng: nat -> nat, k: nat, lo: int, hi: int): (r: int)
    requires lo <= hi
    ensures lo <= r <= hi
  {
    lo + rng(k) % (hi - lo + 1)
  }

  /** `random.choice(xs)` on draw k. */
  function Choice(rng: nat -> nat, k: nat, xs: seq<string>): string
    requires xs != []
  {
    xs[rng(k) % |xs|]
  }

  /** A choice is one of the offered values. */
  lemma ChoiceIn(rng: nat -> nat, k: nat, xs: seq<string>)
    requires xs != []
    ensures Choice(rng, k, xs) in xs
  {
  }

  // ---------------------------------------------------------------------
  // Record construction
  // ---------------------------------------------------------------------

  /** `(month - 1) // 3 + 1`. */
  function Quarter(month: int): (q: int)
    ensures 1 <= month <= 12 ==> 1 <= q <= 4 && 3 * (q - 1) < month <= 3 * q
  {
    (month - 1) / 3 + 1
  }

  /** `f"Q{quarter}"` for a month of the year. */
  function QuarterLabel(month: int): (s: string)
    requires 1 <= month <= 12
    ensures |s| == 2 && s[0] == 'Q' && s[1] as int - '0' as int == Quarter(month)
  {
    ['Q', ('0' as int + Quarter(month)) as char]
  }

  /** Every label is one of the four quarter names. */
  lemma QuarterLabelIn(month: int)
    requires 1 <= month <= 12
    ensures QuarterLabel(month) in ["Q1", "Q2", "Q3", "Q4"]
  {
    var q := Quarter(month);
    assert q == 1 || q == 2 || q == 3 || q == 4;
  }

  /** `start_date + timedelta(days=random.randint(0, span))` on draw k: a
      valid date of 2020 .. 2024. */
  function DrawDate(rng: nat -> nat, k: nat): (d: Date)
    ensures ValidDate(d) && StartYear <= d.year <= 2024
  {
    var n := RandInt(rng, k, 0, SpanDays);
    OffsetDate(n);
    AddDays(StartYear, n)
  }

  /** Draws 5i .. 5i+4 go to the i-th layoff record: the day offset, the
      company, the industry, the location and the count. */
  function LayoffRecord(rng: nat -> nat, i: nat): (e: Event)
    ensures ValidLayoffEvent(e)
  {
    var k := 5 * i;
    ChoiceIn(rng, k + 1, Companies);
    ChoiceIn(rng, k + 2, Industries);
    ChoiceIn(rng, k + 3, Locations);
    var date := DrawDate(rng, k);
    var company := Choice(rng, k + 1, Companies);
    var industry := Choice(rng, k + 2, Industries);
    var location := Choice(rng, k + 3, Locations);
    var layoffs := if date.year in [2022, 2023] then RandInt(rng, k + 4, 50, 2000) else RandInt(rng, k + 4, 10, 500);
    Event(date, company, layoffs, industry, location, date.year, date.month, QuarterLabel(date.month))
  }

  /** The hiring loop draws after all the layoff records. */
  function HireRecord(rng: nat -> nat, i: nat): (e: Event)
    ensures ValidHiringEvent(e)
  {
    var k := 5 * (LayoffEvents + i);
    ChoiceIn(rng, k + 1, Companies);
    ChoiceIn(rng, k + 2, Industries);
    ChoiceIn(rng, k + 3, Locations);
    var date := DrawDate(rng, k);
    var company := Choice(rng, k + 1, Companies);
    var industry := Choice(rng, k + 2, Industries);
    var location := Choice(rng, k + 3, Locations);
    var hires :=
      if date.year in [2020, 2021] then RandInt(rng, k + 4, 100, 3000)
      else if date.year in [2022, 2023] then RandInt(rng, k + 4, 20, 800)
      else RandInt(rng, k + 4, 50, 1500);
    Event(date, company, hires, industry, location, date.year, date.month, QuarterLabel(date.month))
  }

  /** What every generated record satisfies, whatever the draws: its year
      and month agree with its date in 2020 .. 2024, its company, industry
      and location come from the fixed lists, and its quarter label matches
      its month. */
  predicate ValidRecord(e: Event) {
    && WellFormed(e)
    && StartYear <= e.year <= 2024
    && e.company in Companies
    && e.industry in Industries
    && e.location in Locations
    && 1 <= e.month <= 12
    && e.quarter == QuarterLabel(e.month)
  }

  predicate ValidLayoffEvent(e: Event) {
    && ValidRecord(e)
    && (if e.year == 2022 || e.year == 2023 then 50 <= e.count <= 2000 else 10 <= e.count <= 500)
  }

  predicate ValidHiringEvent(e: Event) {
    && ValidRecord(e)
    && (if e.year == 2020 || e.year == 2021 then 100 <= e.count <= 3000
        else if e.year == 2022 || e.year == 2023 then 20 <= e.count <= 800
        else 50 <= e.count <= 1500)
  }

  /** The five years 2020 .. 2024 hold 1827 days, one more than the largest
      offset. */
  lemma SpanWithinPeriod()
    ensures DaysBetween(StartYear, 2025) == SpanDays + 1
  {
  }

  /** Any offset drawn lands on a valid date of 2020 .. 2024. */
  lemma OffsetDate(n: int)
    requires 0 <= n <= SpanDays
    ensures var d := AddDays(StartYear, n); ValidDate(d) && StartYear <= d.year <= 2024
  {
    SpanWithinPeriod();
    AddDaysYearBound(StartYear, 2025, n);
  }

  /** The first loop of `generate_sample_data`: 500 layoff records. */
  method GenerateLayoffs(rng: nat -> nat) returns (layoffs: seq<Event>)
    ensures |layoffs| == LayoffEvents
    ensures forall i :: 0 <= i < |layoffs| ==> layoffs[i] == LayoffRecord(rng, i)
  {
    layoffs := [];
    for i := 0 to LayoffEvents
      invariant |layoffs| == i
      invariant forall j :: 0 <= j < i ==> layoffs[j] == LayoffRecord(rng, j)
    {
      var e := LayoffRecord(rng, i);
      layoffs := layoffs + [e];
    }
  }

  /** The second loop of `generate_sample_data`: 600 hiring records. */
  method GenerateHires(rng: nat -> nat) returns (hires: seq<Event>)
    ensures |hires| == HiringEvents
    ensures forall i :: 0 <= i < |hires| ==> hires[i] == HireRecord(rng, i)
  {
    hires := [];
    for i := 0 to HiringEvents
      invariant |hires| == i
      invariant forall j :: 0 <= j < i ==> hires[j] == HireRecord(rng, j)
    {
      var e := HireRecord(rng, i);
      hires := hires + [e];
    }
  }

  /** `generate_sample_data`: 500 layoff and 600 hiring records, each built
      from its own consecutive draws and each valid. */
  method GenerateSampleData(rng: nat -> nat) returns (layoffs: seq<Event>, hires: seq<Event>)
    ensures |layoffs| == LayoffEvents && |hires| == HiringEvents
    ensures forall i :: 0 <= i < |layoffs| ==> layoffs[i] == LayoffRecord(rng, i)
    ensures forall i :: 0 <= i < |hires| ==> hires[i] == HireRecord(rng, i)
    ensures forall i :: 0 <= i < |layoffs| ==> ValidLayoffEvent(layoffs[i])
    ensures forall i :: 0 <= i < |hires| ==> ValidHiringEvent(hires[i])
  {
    layoffs := GenerateLayoffs(rng);
    hires := GenerateHires(rng);
  }

  // ---------------------------------------------------------------------
  // get_company_list
  // ---------------------------------------------------------------------

  /** Python's string order: code point by code point, a proper prefix
      first. */
  predicate LexLess(a: string, b: string)
    decreases |a|
  {
    if a == [] then b != []
    else if b == [] then false
    else if a[0] != b[0] then a[0] < b[0]
    else LexLess(a[1..], b[1..])
  }

  lemma {:induction false} LexIrreflexive(a: string)
    ensures !LexLess(a, a)
    decreases |a|
  {
    if a != [] {
      LexIrreflexive(a[1..]);
    }
  }

  lemma {:induction false} LexTransitive(a: string, b: string, c: string)
    requires LexLess(a, b) && LexLess(b, c)
    ensures LexLess(a, c)
    decreases |a|
  {
    if a != [] && a[0] == b[0] && b[0] == c[0] {
      LexTransitive(a[1..], b[1..], c[1..]);
    }
  }

  lemma {:induction false} LexTotal(a: string, b: string)
    requires a != b
    ensures LexLess(a, b) || LexLess(b, a)
    decreases |a|
  {
    if a != [] && b != [] && a[0] == b[0] {
      assert a == [a[0]] + a[1..] && b == [b[0]] + b[1..];
      LexTotal(a[1..], b[1..]);
    }
  }

  predicate StrictlyAscending(s: seq<string>) {
    forall i, j :: 0 <= i < j < |s| ==> LexLess(s[i], s[j])
  }

  /** Inserting a new name into a strictly ascending list. */
  function Insert(x: string, s: seq<string>): (r: seq<string>)
    requires StrictlyAscending(s) && x !in s
    ensures StrictlyAscending(r)
    ensures forall y :: y in r <==> y == x || y in s
    ensures |r| == |s| + 1
    decreases |s|
  {
    if s == [] then [x]
    else if LexLess(x, s[0]) then
      assert forall j :: 0 <= j < |s| ==> LexLess(x, s[j]) by {
        forall j | 0 <= j < |s| ensures LexLess(x, s[j]) {
          if j > 0 {
            LexTransitive(x, s[0], s[j]);
          }
        }
      }
      [x] + s
    else
      assert LexLess(s[0], x) by { LexTotal(x, s[0]); }
      var t := Insert(x, s[1..]);
      assert forall y :: y in t ==> LexLess(s[0], y) by {
        forall y | y in t ensures LexLess(s[0], y) {
          if y != x {
            var j :| 0 <= j < |s[1..]| && s[1..][j] == y;
            assert s[j + 1] == y;
          }
        }
      }
      [s[0]] + t
  }

  /** `sorted` of a list of distinct names. */
  function SortNames(ks: seq<string>): (r: seq<string>)
    requires Distinct(ks)
    ensures StrictlyAscending(r)
    ensures forall y :: y in r <==> y in ks
    ensures |r| == |ks|
    decreases |ks|
  {
    if ks == [] then []
    else
      assert Distinct(ks[1..]) by {
        forall i, j | 0 <= i < j < |ks[1..]| ensures ks[1..][i] != ks[1..][j] {
          assert ks[1..][i] == ks[i + 1] && ks[1..][j] == ks[j + 1];
        }
      }
      var t := SortNames(ks[1..]);
      assert ks[0] !in ks[1..] by {
        forall j | 0 <= j < |ks[1..]| ensures ks[1..][j] != ks[0] {
          assert ks[1..][j] == ks[j + 1];
        }
      }
      Insert(ks[0], t)
  }

  /** `get_company_list`: the companies of both tables, sorted. */
  function CompanyList(layoffs: seq<Event>, hires: seq<Event>): (r: seq<string>)
    ensures StrictlyAscending(r)
    ensures |r| <= |layoffs| + |hires|
  {
    SortNames(KeysOf(layoffs + hires, EventCompany))
  }

  /** The list is strictly ascending, so it has no duplicates, and it holds
      exactly the companies that appear in either table. */
  lemma CompanyListSpec(layoffs: seq<Event>, hires: seq<Event>)
    ensures StrictlyAscending(CompanyList(layoffs, hires))
    ensures forall c :: c in CompanyList(layoffs, hires) <==>
      Occurs(layoffs, EventCompany, c) || Occurs(hires, EventCompany, c)
    ensures forall i, j :: 0 <= i < j < |CompanyList(layoffs, hires)| ==>
      CompanyList(layoffs, hires)[i] != CompanyList(layoffs, hires)[j]
  {
    var r := CompanyList(layoffs, hires);
    forall c ensures c in r <==> Occurs(layoffs, EventCompany, c) || Occurs(hires, EventCompany, c) {
      OccursAppend(layoffs, hires, EventCompany, c);
    }
    forall i, j | 0 <= i < j < |r| ensures r[i] != r[j] {
      LexIrreflexive(r[i]);
    }
  }

  // ---------------------------------------------------------------------
  // get_date_range
  // ---------------------------------------------------------------------

  /** `df['date'].min()`: `None` stands for NaT, the minimum of an empty
      column. */
  function EarliestDate(rows: seq<Event>): (r: Option<Date>)
    ensures r.Some? <==> rows != []
    ensures r.Some? ==> exists i :: 0 <= i < |rows| && rows[i].date == r.value
    ensures r.Some? ==> forall i :: 0 <= i < |rows| ==> !Before(rows[i].date, r.value)
    decreases |rows|
  {
    if rows == [] then None
    else
      var t := EarliestDate(rows[1..]);
      assert forall i :: 1 <= i < |rows| ==> rows[i] == rows[1..][i - 1];
      if t.None? || !Before(t.value, rows[0].date) then Some(rows[0].date) else t
  }

  /** `df['date'].max()`, `None` for an empty column. */
  function LatestDate(rows: seq<Event>): (r: Option<Date>)
    ensures r.Some? <==> rows != []
    ensures r.Some? ==> exists i :: 0 <= i < |rows| && rows[i].date == r.value
    ensures r.Some? ==> forall i :: 0 <= i < |rows| ==> !Before(r.value, rows[i].date)
    decreases |rows|
  {
    if rows == [] then None
    else
      var t := LatestDate(rows[1..]);
      assert forall i :: 1 <= i < |rows| ==> rows[i] == rows[1..][i - 1];
      if t.None? || !Before(rows[0].date, t.value) then Some(rows[0].date) else t
  }

  /** Python's builtin `min(a, b)`: b only when `b < a`, which is false when
      either side is NaT. */
  function PyMin(a: Option<Date>, b: Option<Date>): (r: Option<Date>)
    ensures r == a || r == b
    ensures a.None? ==> r == a
    ensures a.Some? && b.Some? ==> r.Some? && !Before(a.value, r.value) && !Before(b.value, r.value)
  {
    if a.Some? && b.Some? && Before(b.value, a.value) then b else a
  }

  /** Python's builtin `max(a, b)`: b only when `b > a`. */
  function PyMax(a: Option<Date>, b: Option<Date>): (r: Option<Date>)
    ensures r == a || r == b
    ensures a.None? ==> r == a
    ensures a.Some? && b.Some? ==> r.Some? && !Before(r.value, a.value) && !Before(r.value, b.value)
  {
    if a.Some? && b.Some? && Before(a.value, b.value) then b else a
  }

  /** `get_date_range`. */
  function DateRange(layoffs: seq<Event>, hires: seq<Event>): (r: (Option<Date>, Option<Date>))
    ensures r.0.Some? <==> layoffs != []
    ensures r.1.Some? <==> layoffs != []
  {
    (PyMin(EarliestDate(layoffs), EarliestDate(hires)), PyMax(LatestDate(layoffs), LatestDate(hires)))
  }

  /** With both tables non-empty the range starts at the earliest date of
      either table. */
  lemma DateRangeStart(layoffs: seq<Event>, hires: seq<Event>)
    requires layoffs != [] && hires != []
    ensures var lo := DateRange(layoffs, hires).0;
      && lo.Some?
      && (exists i :: 0 <= i < |layoffs + hires| && (layoffs + hires)[i].date == lo.value)
      && (forall i :: 0 <= i < |layoffs + hires| ==> !Before((layoffs + hires)[i].date, lo.value))
  {
    var all := layoffs + hires;
    var lo := DateRange(layoffs, hires).0;
    var el, eh := EarliestDate(layoffs).value, EarliestDate(hires).value;
    var a :| 0 <= a < |layoffs| && layoffs[a].date == el;
    var b :| 0 <= b < |hires| && hires[b].date == eh;
    assert all[a].date == el && all[|layoffs| + b].date == eh;
    forall i | 0 <= i < |all| ensures !Before(all[i].date, lo.value) {
      if i < |layoffs| {
        assert all[i] == layoffs[i] && !Before(layoffs[i].date, el);
      } else {
        assert all[i] == hires[i - |layoffs|] && !Before(hires[i - |layoffs|].date, eh);
      }
    }
  }

  /** With both tables non-empty the range ends at the latest date of
      either table. */
  lemma DateRangeEnd(layoffs: seq<Event>, hires: seq<Event>)
    requires layoffs != [] && hires != []
    ensures var hi := DateRange(layoffs, hires).1;
      && hi.Some?
      && (exists i :: 0 <= i < |layoffs + hires| && (layoffs + hires)[i].date == hi.value)
      && (forall i :: 0 <= i < |layoffs + hires| ==> !Before(hi.value, (layoffs + hires)[i].date))
  {
    var all := layoffs + hires;
    var hi := DateRange(layoffs, hires).1;
    var ll, lh := LatestDate(layoffs).value, LatestDate(hires).value;
    var c :| 0 <= c < |layoffs| && layoffs[c].date == ll;
    var d :| 0 <= d < |hires| && hires[d].date == lh;
    assert all[c].date == ll && all[|layoffs| + d].date == lh;
    forall i | 0 <= i < |all| ensures !Before(hi.value, all[i].date) {
      if i < |layoffs| {
        assert all[i] == layoffs[i] && !Before(ll, layoffs[i].date);
      } else {
        assert all[i] == hires[i - |layoffs|] && !Before(lh, hires[i - |layoffs|].date);
      }
    }
  }

  /** With both tables non-empty the range runs from the earliest to the
      latest date of either table, and its start is not after its end. */
  lemma DateRangeSpec(layoffs: seq<Event>, hires: seq<Event>)
    requires layoffs != [] && hires != []
    ensures var (lo, hi) := DateRange(layoffs, hires);
      && lo.Some? && hi.Some?
      && (exists i :: 0 <= i < |layoffs + hires| && (layoffs + hires)[i].date == lo.value)
      && (forall i :: 0 <= i < |layoffs + hires| ==> !Before((layoffs + hires)[i].date, lo.value))
      && (exists i :: 0 <= i < |layoffs + hires| && (layoffs + hires)[i].date == hi.value)
      && (forall i :: 0 <= i < |layoffs + hires| ==> !Before(hi.value, (layoffs + hires)[i].date))
      && !Before(hi.value, lo.value)
  {
    DateRangeStart(layoffs, hires);
    DateRangeEnd(layoffs, hires);
    var all := layoffs + hires;
    var lo := DateRange(layoffs, hires).0;
    var i :| 0 <= i < |all| && all[i].date == lo.value;
  }

  /** An empty layoffs table makes both ends NaT; an empty hiring table
      leaves the layoffs table's own range. */
  lemma DateRangeEmptySide(layoffs: seq<Event>, hires: seq<Event>)
    ensures layoffs == [] ==> DateRange(layoffs, hires) == (None, None)
    ensures hires == [] ==> DateRange(layoffs, hires) == (EarliestDate(layoffs), LatestDate(layoffs))
  {
  }
}
