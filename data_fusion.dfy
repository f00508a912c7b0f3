/** The fusion and statistics layer: the monthly per-company outer join of
    the layoffs and hiring tables, the per-industry yearly trends, the
    summary bundle and the dashboard filter. */
module DataFusion {
  import opened Options
  import opened Calendar
  import opened Grouping
  import opened Ranking
  import opened Records
  import opened Statistics

  // ---------------------------------------------------------------------
  // Fusion
  // ---------------------------------------------------------------------

  /** One group of `groupby(['company', 'year', 'month']).agg(...)` with the
      count summed and the industry and location of the group's first row. */
  datatype Agg = Agg(total: nat, industry: string, location: string)

  function Aggregate(rows: seq<Event>): (a: map<MonthKey, Agg>)
    ensures forall k :: k in a <==> Occurs(rows, EventKey, k)
    decreases |rows|
  {
    if rows == [] then map[]
    else
      var a := Aggregate(rows[1..]);
      var r := rows[0];
      var k := EventKey(r);
      assert forall k' :: Occurs(rows, EventKey, k') <==> k' == k || Occurs(rows[1..], EventKey, k') by {
        forall k' ensures Occurs(rows, EventKey, k') <==> k' == k || Occurs(rows[1..], EventKey, k') {
          OccursTail(rows, EventKey, k');
        }
      }
      a[k := Agg(r.count + (if k in a then a[k].total else 0), r.industry, r.location)]
  }

  /** Each group sums the counts of its rows and keeps the industry and
      location of the first row with its key. */
  lemma {:induction false} AggregateSpec(rows: seq<Event>, k: MonthKey)
    ensures k in Aggregate(rows) ==>
      && Aggregate(rows)[k].total == Sum(Select(rows, EventKey, k), EventCount)
      && Select(rows, EventKey, k) != []
      && Aggregate(rows)[k].industry == Select(rows, EventKey, k)[0].industry
      && Aggregate(rows)[k].location == Select(rows, EventKey, k)[0].location
    decreases |rows|
  {
    if rows != [] {
      AggregateSpec(rows[1..], k);
      SelectHead(rows[1..], EventKey, k);
    }
  }

  /** The fused row of key k: a side missing from the join counts zero, and
      the industry and location come from the layoffs side when it has the
      key. */
  function FusedRowFor(k: MonthKey, l: map<MonthKey, Agg>, h: map<MonthKey, Agg>): (r: FusedRow)
    requires k in l || k in h
    ensures r.netChange == r.hires - r.layoffs
    ensures r.employmentRatio * (r.layoffs + 1) as real == r.hires as real
  {
    var layoffs := if k in l then l[k].total else 0;
    var hires := if k in h then h[k].total else 0;
    var industry := if k in l then l[k].industry else h[k].industry;
    var location := if k in l then l[k].location else h[k].location;
    var ratio := hires as real / (layoffs + 1) as real;
    assert ratio * (layoffs + 1) as real == hires as real;
    FusedRow(k.company, k.year, k.month, layoffs, hires, industry, location,
             hires - layoffs, ratio, FirstOfMonth(k.year, k.month))
  }

  function JoinRows(ks: seq<MonthKey>, l: map<MonthKey, Agg>, h: map<MonthKey, Agg>): (rows: seq<FusedRow>)
    requires forall i :: 0 <= i < |ks| ==> ks[i] in l || ks[i] in h
    ensures |rows| == |ks|
    ensures forall i :: 0 <= i < |ks| ==> rows[i] == FusedRowFor(ks[i], l, h)
    decreases |ks|
  {
    if ks == [] then [] else [FusedRowFor(ks[0], l, h)] + JoinRows(ks[1..], l, h)
  }

  /** `fuse_employment_data`: the full outer join on (company, year, month)
      of the two pre-aggregated tables. */
  function Fuse(layoffs: seq<Event>, hires: seq<Event>): (r: seq<FusedRow>)
    ensures |r| == |KeysOf(layoffs + hires, EventKey)|
    ensures forall i :: 0 <= i < |r| ==> r[i].netChange == r[i].hires - r[i].layoffs
  {
    var l := Aggregate(layoffs);
    var h := Aggregate(hires);
    var ks := KeysOf(layoffs + hires, EventKey);
    assert forall i :: 0 <= i < |ks| ==> ks[i] in l || ks[i] in h by {
      forall i | 0 <= i < |ks| ensures ks[i] in l || ks[i] in h {
        OccursAppend(layoffs, hires, EventKey, ks[i]);
      }
    }
    var r := JoinRows(ks, l, h);
    assert forall i :: 0 <= i < |r| ==> r[i] == FusedRowFor(ks[i], l, h);
    r
  }

  /** The fused table has one row per (company, year, month) present in
      either table, and no other rows. */
  lemma FuseKeys(layoffs: seq<Event>, hires: seq<Event>)
    ensures forall i, j :: 0 <= i < j < |Fuse(layoffs, hires)| ==>
      RowKey(Fuse(layoffs, hires)[i]) != RowKey(Fuse(layoffs, hires)[j])
    ensures forall k :: Occurs(Fuse(layoffs, hires), RowKey, k) <==>
      Occurs(layoffs, EventKey, k) || Occurs(hires, EventKey, k)
  {
    var f := Fuse(layoffs, hires);
    var ks := KeysOf(layoffs + hires, EventKey);
    assert forall i :: 0 <= i < |f| ==> RowKey(f[i]) == ks[i];
    forall k ensures Occurs(f, RowKey, k) <==> Occurs(layoffs, EventKey, k) || Occurs(hires, EventKey, k) {
      OccursAppend(layoffs, hires, EventKey, k);
      if k in ks {
        var i :| 0 <= i < |ks| && ks[i] == k;
        assert RowKey(f[i]) == k;
      }
    }
  }

  /** The fused row of a key present on either side holds the summed
      layoffs and hires of that key (zero for a side without it), the
      industry and location of the first layoffs row of the key or else of
      the first hiring row, the net change, the employment ratio
      hires / (layoffs + 1), and the first day of its month. */
  lemma FusedRowForSpec(k: MonthKey, layoffs: seq<Event>, hires: seq<Event>)
    requires k in Aggregate(layoffs) || k in Aggregate(hires)
    ensures var r := FusedRowFor(k, Aggregate(layoffs), Aggregate(hires));
      && RowKey(r) == k
      && r.layoffs == Sum(Select(layoffs, EventKey, k), EventCount)
      && r.hires == Sum(Select(hires, EventKey, k), EventCount)
      && (Occurs(layoffs, EventKey, k) ==>
            Select(layoffs, EventKey, k) != [] &&
            r.industry == Select(layoffs, EventKey, k)[0].industry &&
            r.location == Select(layoffs, EventKey, k)[0].location)
      && (!Occurs(layoffs, EventKey, k) ==>
            Select(hires, EventKey, k) != [] &&
            r.industry == Select(hires, EventKey, k)[0].industry &&
            r.location == Select(hires, EventKey, k)[0].location)
      && r.netChange == r.hires - r.layoffs
      && r.date == FirstOfMonth(r.year, r.month)
  {
    AggregateSpec(layoffs, k);
    AggregateSpec(hires, k);
    SelectHead(layoffs, EventKey, k);
    SelectHead(hires, EventKey, k);
  }

  /** Every row of the fused table is the fused row of its own key. */
  lemma FuseRow(layoffs: seq<Event>, hires: seq<Event>, i: nat)
    requires i < |Fuse(layoffs, hires)|
    ensures RowKey(Fuse(layoffs, hires)[i]) in Aggregate(layoffs) || RowKey(Fuse(layoffs, hires)[i]) in Aggregate(hires)
    ensures Fuse(layoffs, hires)[i] == FusedRowFor(RowKey(Fuse(layoffs, hires)[i]), Aggregate(layoffs), Aggregate(hires))
  {
    var ks := KeysOf(layoffs + hires, EventKey);
    OccursAppend(layoffs, hires, EventKey, ks[i]);
  }

  /** The employment ratio is non-negative, and reaches 1 exactly when the
      company-month gained more hires than it lost. */
  lemma EmploymentRatioSpec(k: MonthKey, l: map<MonthKey, Agg>, h: map<MonthKey, Agg>)
    requires k in l || k in h
    ensures FusedRowFor(k, l, h).employmentRatio >= 0.0
    ensures FusedRowFor(k, l, h).employmentRatio >= 1.0 <==> FusedRowFor(k, l, h).netChange > 0
  {
    var r := FusedRowFor(k, l, h);
    RatioBounds(r.employmentRatio, r.layoffs, r.hires);
  }

  lemma RatioBounds(q: real, l: nat, h: nat)
    requires q * (l + 1) as real == h as real
    ensures q >= 0.0
    ensures q >= 1.0 <==> h > l
  {
    var d := (l + 1) as real;
    if q >= 1.0 {
      assert q * d >= d;
    } else if q >= 0.0 {
      ProductPositive(1.0 - q, d);
      assert (1.0 - q) * d == d - q * d;
      assert (h as real) < (l + 1) as real;
    }
  }

  lemma {:induction false} JoinRowsSums(ks: seq<MonthKey>, layoffs: seq<Event>, hires: seq<Event>)
    requires forall i :: 0 <= i < |ks| ==> ks[i] in Aggregate(layoffs) || ks[i] in Aggregate(hires)
    ensures Sum(JoinRows(ks, Aggregate(layoffs), Aggregate(hires)), RowLayoffs) == SumByKey(layoffs, EventKey, EventCount, ks)
    ensures Sum(JoinRows(ks, Aggregate(layoffs), Aggregate(hires)), RowHires) == SumByKey(hires, EventKey, EventCount, ks)
    decreases |ks|
  {
    if ks != [] {
      var l, h := Aggregate(layoffs), Aggregate(hires);
      var rows := JoinRows(ks, l, h);
      assert rows[1..] == JoinRows(ks[1..], l, h);
      JoinRowsSums(ks[1..], layoffs, hires);
      AggregateSpec(layoffs, ks[0]);
      AggregateSpec(hires, ks[0]);
      SelectHead(layoffs, EventKey, ks[0]);
      SelectHead(hires, EventKey, ks[0]);
    }
  }

  /** Fusion neither loses nor invents a layoff or a hire: the fused columns
      add up to the totals of the two tables. */
  lemma FuseTotals(layoffs: seq<Event>, hires: seq<Event>)
    ensures Sum(Fuse(layoffs, hires), RowLayoffs) == Sum(layoffs, EventCount)
    ensures Sum(Fuse(layoffs, hires), RowHires) == Sum(hires, EventCount)
  {
    var ks := KeysOf(layoffs + hires, EventKey);
    forall i | 0 <= i < |ks| ensures ks[i] in Aggregate(layoffs) || ks[i] in Aggregate(hires) {
      OccursAppend(layoffs, hires, EventKey, ks[i]);
    }
    JoinRowsSums(ks, layoffs, hires);
    forall i | 0 <= i < |layoffs| ensures EventKey(layoffs[i]) in ks {
      OccursAppend(layoffs, hires, EventKey, EventKey(layoffs[i]));
    }
    forall i | 0 <= i < |hires| ensures EventKey(hires[i]) in ks {
      OccursAppend(layoffs, hires, EventKey, EventKey(hires[i]));
    }
    SumByKeyIsTotal(layoffs, EventKey, EventCount, ks);
    SumByKeyIsTotal(hires, EventKey, EventCount, ks);
  }

  /** A company-month with 100 layoffs and 40 hires fuses into one row whose
      net change is 40 - 100 = -60 and whose ratio is 40/101. */
  lemma FuseExampleBothSides()
    ensures var l := Event(Date(2022, 1, 10), "A", 100, "X", "Austin", 2022, 1, "Q1");
      var h := Event(Date(2022, 1, 20), "A", 40, "X", "Austin", 2022, 1, "Q1");
      Fuse([l], [h]) == [FusedRow("A", 2022, 1, 100, 40, "X", "Austin", -60, 40.0 / 101.0, Date(2022, 1, 1))]
  {
    var l := Event(Date(2022, 1, 10), "A", 100, "X", "Austin", 2022, 1, "Q1");
    var h := Event(Date(2022, 1, 20), "A", 40, "X", "Austin", 2022, 1, "Q1");
    var k := MonthKey("A", 2022, 1);
    assert [l][1..] == [] && [h][1..] == [] && [l, h][1..] == [h];
    assert Aggregate([l]) == map[k := Agg(100, "X", "Austin")];
    assert Aggregate([h]) == map[k := Agg(40, "X", "Austin")];
    assert KeysOf([l] + [h], EventKey) == [k] by {
      assert [l] + [h] == [l, h];
      assert KeysOf([h], EventKey) == [k];
    }
  }

  /** With an empty layoffs table, a single hiring row becomes a single
      fused row with 0 layoffs and its own hires as net change. */
  lemma FuseExampleHiresOnly()
    ensures var h := Event(Date(2021, 3, 5), "B", 10, "Y", "Boston", 2021, 3, "Q1");
      Fuse([], [h]) == [FusedRow("B", 2021, 3, 0, 10, "Y", "Boston", 10, 10.0, Date(2021, 3, 1))]
  {
    var h := Event(Date(2021, 3, 5), "B", 10, "Y", "Boston", 2021, 3, "Q1");
    var k := MonthKey("B", 2021, 3);
    assert [h][1..] == [] && [] + [h] == [h];
    assert Aggregate([h]) == map[k := Agg(10, "Y", "Boston")];
    assert KeysOf([h], EventKey) == [k];
  }

  // ---------------------------------------------------------------------
  // Industry trends
  // ---------------------------------------------------------------------

  /** One row of `calculate_industry_trends`. */
  datatype TrendRow = TrendRow(industry: string, year: int, layoffs: int, hires: int, netChange: int)

  function TrendKey(t: TrendRow): IndustryYear { IndustryYear(t.industry, t.year) }

  /** The outer join on (industry, year) of the yearly layoffs and hires of
      each industry, a missing side filled with 0. */
  function IndustryTrends(layoffs: seq<Event>, hires: seq<Event>): (t: seq<TrendRow>)
    ensures |t| == |KeysOf(layoffs + hires, EventIndustryYear)|
    ensures forall i :: 0 <= i < |t| ==> t[i].netChange == t[i].hires - t[i].layoffs
  {
    var gl := GroupSum(layoffs, EventIndustryYear, EventCount);
    var gh := GroupSum(hires, EventIndustryYear, EventCount);
    var ks := KeysOf(layoffs + hires, EventIndustryYear);
    seq(|ks|, i requires 0 <= i < |ks| =>
      TrendRow(ks[i].industry, ks[i].year, Get(gl, ks[i]), Get(gh, ks[i]), Get(gh, ks[i]) - Get(gl, ks[i])))
  }

  /** One row per (industry, year) present in either table and no other;
      each row sums its group on both sides (0 for a side without it) and
      nets hires against layoffs. */
  lemma IndustryTrendsSpec(layoffs: seq<Event>, hires: seq<Event>)
    ensures var t := IndustryTrends(layoffs, hires);
      && (forall i, j :: 0 <= i < j < |t| ==> TrendKey(t[i]) != TrendKey(t[j]))
      && (forall k :: Occurs(t, TrendKey, k) <==>
            Occurs(layoffs, EventIndustryYear, k) || Occurs(hires, EventIndustryYear, k))
      && (forall i :: 0 <= i < |t| ==>
            && t[i].layoffs == Sum(Select(layoffs, EventIndustryYear, TrendKey(t[i])), EventCount)
            && t[i].hires == Sum(Select(hires, EventIndustryYear, TrendKey(t[i])), EventCount)
            && t[i].netChange == t[i].hires - t[i].layoffs)
  {
    var t := IndustryTrends(layoffs, hires);
    var ks := KeysOf(layoffs + hires, EventIndustryYear);
    assert forall i :: 0 <= i < |t| ==> TrendKey(t[i]) == ks[i];
    forall k ensures Occurs(t, TrendKey, k) <==>
      Occurs(layoffs, EventIndustryYear, k) || Occurs(hires, EventIndustryYear, k)
    {
      OccursAppend(layoffs, hires, EventIndustryYear, k);
      if k in ks {
        var i :| 0 <= i < |ks| && ks[i] == k;
        assert TrendKey(t[i]) == k;
      }
    }
    forall i | 0 <= i < |t|
      ensures t[i].layoffs == Sum(Select(layoffs, EventIndustryYear, TrendKey(t[i])), EventCount)
      ensures t[i].hires == Sum(Select(hires, EventIndustryYear, TrendKey(t[i])), EventCount)
    {
      GroupSumSpec(layoffs, EventIndustryYear, EventCount, ks[i]);
      GroupSumSpec(hires, EventIndustryYear, EventCount, ks[i]);
    }
  }

  /** A side that has no row for an (industry, year) contributes 0. */
  lemma IndustryTrendsZeroFill(layoffs: seq<Event>, hires: seq<Event>, i: nat)
    requires i < |IndustryTrends(layoffs, hires)|
    ensures var t := IndustryTrends(layoffs, hires)[i];
      && (!Occurs(layoffs, EventIndustryYear, TrendKey(t)) ==> t.layoffs == 0 && t.netChange == t.hires)
      && (!Occurs(hires, EventIndustryYear, TrendKey(t)) ==> t.hires == 0 && t.netChange == -t.layoffs)
  {
    var t := IndustryTrends(layoffs, hires)[i];
    IndustryTrendsSpec(layoffs, hires);
    SelectHead(layoffs, EventIndustryYear, TrendKey(t));
    SelectHead(hires, EventIndustryYear, TrendKey(t));
  }

  // ---------------------------------------------------------------------
  // Summary statistics
  // ---------------------------------------------------------------------

  /** The bundle returned by `get_summary_statistics`. */
  datatype Summary = Summary(
    totalLayoffs: int,
    totalHires: int,
    netEmploymentChange: int,
    topLayoffCompanies: seq<Entry<string>>,
    topHiringCompanies: seq<Entry<string>>,
    monthlyLayoffs: map<YearMonth, int>,
    monthlyHires: map<YearMonth, int>,
    industryImpact: seq<Entry<string>>)

  const TopCompanies: nat := 10

  /** `get_summary_statistics`; the fused table it also receives is not
      read. */
  function SummaryStatistics(layoffs: seq<Event>, hires: seq<Event>, fused: seq<FusedRow>): (s: Summary)
    ensures s.netEmploymentChange == s.totalHires - s.totalLayoffs
    ensures |s.topLayoffCompanies| <= TopCompanies && |s.topHiringCompanies| <= TopCompanies
    ensures |s.industryImpact| == |KeysOf(layoffs, EventIndustry)|
  {
    SortDescLength(Series(layoffs, EventIndustry, EventCount));
    var totalLayoffs := Sum(layoffs, EventCount);
    var totalHires := Sum(hires, EventCount);
    Summary(
      totalLayoffs,
      totalHires,
      totalHires - totalLayoffs,
      TopN(Series(layoffs, EventCompany, EventCount), TopCompanies),
      TopN(Series(hires, EventCompany, EventCount), TopCompanies),
      GroupSum(layoffs, EventYearMonth, EventCount),
      GroupSum(hires, EventYearMonth, EventCount),
      SortDesc(Series(layoffs, EventIndustry, EventCount)))
  }

  /** r is the head(n) of the descending ranking of the groups of a table:
      at most n entries with distinct keys (fewer only when there are fewer
      groups), in
      non-increasing order, each a group of the table with its own total,
      and no group left out has a larger total than a listed one. */
  ghost predicate IsTopGroups<R, K(!new)>(r: seq<Entry<K>>, rows: seq<R>, key: R -> K, val: R -> int, n: nat) {
    && |r| == Min(n, |KeysOf(rows, key)|)
    && KeysDistinct(r)
    && NonIncreasing(r)
    && (forall e :: e in r ==> Occurs(rows, key, e.key) && e.total == Sum(Select(rows, key, e.key), val))
    && (forall k, x :: Occurs(rows, key, k) && x in r && (forall y :: y in r ==> y.key != k) ==>
          Sum(Select(rows, key, k), val) <= x.total)
  }

  /** Every entry of the first n of the ranked series is a group of the
      table with its total. */
  lemma TopEntriesAreGroups<R, K(!new)>(rows: seq<R>, key: R -> K, val: R -> int, n: nat)
    ensures forall e :: e in TopN(Series(rows, key, val), n) ==>
      Occurs(rows, key, e.key) && e.total == Sum(Select(rows, key, e.key), val)
  {
    var s := Series(rows, key, val);
    var r := TopN(s, n);
    SeriesSpec(rows, key, val);
    TopNSpec(s, n);
    forall e | e in r ensures Occurs(rows, key, e.key) && e.total == Sum(Select(rows, key, e.key), val) {
      assert e in multiset(r);
    }
  }

  /** No group left out of the first n of the ranked series has a larger
      total than a listed one. */
  lemma TopEntriesDominate<R, K(!new)>(rows: seq<R>, key: R -> K, val: R -> int, n: nat)
    ensures var r := TopN(Series(rows, key, val), n);
      forall k, x :: Occurs(rows, key, k) && x in r && (forall y :: y in r ==> y.key != k) ==>
        Sum(Select(rows, key, k), val) <= x.total
  {
    var s := Series(rows, key, val);
    var r := TopN(s, n);
    SeriesSpec(rows, key, val);
    TopNSpec(s, n);
    forall k, x | Occurs(rows, key, k) && x in r && (forall y :: y in r ==> y.key != k)
      ensures Sum(Select(rows, key, k), val) <= x.total
    {
      var e := Entry(k, Sum(Select(rows, key, k), val));
      assert e in s && e !in r;
    }
  }

  lemma TopOfSeries<R, K(!new)>(rows: seq<R>, key: R -> K, val: R -> int, n: nat)
    ensures IsTopGroups(TopN(Series(rows, key, val), n), rows, key, val, n)
  {
    var s := Series(rows, key, val);
    var r := TopN(s, n);
    SeriesSpec(rows, key, val);
    TopNSpec(s, n);
    var t := SortDesc(s);
    PermutationKeysDistinct(s, t);
    assert forall i :: 0 <= i < |r| ==> r[i] == t[i];
    TopEntriesAreGroups(rows, key, val, n);
    TopEntriesDominate(rows, key, val, n);
  }

  /** The summary's totals and net change. */
  lemma SummaryTotalsSpec(layoffs: seq<Event>, hires: seq<Event>, fused: seq<FusedRow>)
    ensures var s := SummaryStatistics(layoffs, hires, fused);
      && s.totalLayoffs == Sum(layoffs, EventCount) >= 0
      && s.totalHires == Sum(hires, EventCount) >= 0
      && s.netEmploymentChange == s.totalHires - s.totalLayoffs
  {
    SumNonNegative(layoffs, EventCount);
    SumNonNegative(hires, EventCount);
  }

  /** The two top-10 company lists rank the companies by their summed counts. */
  lemma SummaryTopSpec(layoffs: seq<Event>, hires: seq<Event>, fused: seq<FusedRow>)
    ensures IsTopGroups(SummaryStatistics(layoffs, hires, fused).topLayoffCompanies, layoffs, EventCompany, EventCount, TopCompanies)
    ensures IsTopGroups(SummaryStatistics(layoffs, hires, fused).topHiringCompanies, hires, EventCompany, EventCount, TopCompanies)
  {
    TopOfSeries(layoffs, EventCompany, EventCount, TopCompanies);
    TopOfSeries(hires, EventCompany, EventCount, TopCompanies);
  }

  /** The monthly series has a (year, month) exactly when the table has a
      row in it, with that month's summed count. */
  lemma SummaryMonthlySpec(layoffs: seq<Event>, hires: seq<Event>, fused: seq<FusedRow>)
    ensures var s := SummaryStatistics(layoffs, hires, fused);
      && (forall ym :: ym in s.monthlyLayoffs <==> Occurs(layoffs, EventYearMonth, ym))
      && (forall ym :: Get(s.monthlyLayoffs, ym) == Sum(Select(layoffs, EventYearMonth, ym), EventCount))
      && (forall ym :: ym in s.monthlyHires <==> Occurs(hires, EventYearMonth, ym))
      && (forall ym :: Get(s.monthlyHires, ym) == Sum(Select(hires, EventYearMonth, ym), EventCount))
  {
    var s := SummaryStatistics(layoffs, hires, fused);
    assert s.monthlyLayoffs == GroupSum(layoffs, EventYearMonth, EventCount);
    assert s.monthlyHires == GroupSum(hires, EventYearMonth, EventCount);
    GroupSumAll(layoffs, EventYearMonth, EventCount);
    GroupSumAll(hires, EventYearMonth, EventCount);
  }

  /** The industry impact lists every industry's layoff total once, largest
      first. */
  lemma SummaryIndustrySpec(layoffs: seq<Event>, hires: seq<Event>, fused: seq<FusedRow>)
    ensures var r := SummaryStatistics(layoffs, hires, fused).industryImpact;
      && NonIncreasing(r)
      && IsGrouping(r, layoffs, EventIndustry, EventCount)
  {
    var r := SummaryStatistics(layoffs, hires, fused).industryImpact;
    var s := Series(layoffs, EventIndustry, EventCount);
    SeriesSpec(layoffs, EventIndustry, EventCount);
    forall e ensures e in r <==> e in s {
      assert e in r <==> e in multiset(r);
    }
    PermutationKeysDistinct(s, r);
  }

  // ---------------------------------------------------------------------
  // Filter
  // ---------------------------------------------------------------------

  /** The four filterable columns of a row of any of the three tables. */
  datatype Dims = Dims(company: string, year: int, month: int, industry: string)

  /** The selections passed to `filter_data`; each may be `None`. */
  datatype Filters = Filters(
    companies: Option<seq<string>>,
    years: Option<seq<int>>,
    months: Option<seq<int>>,
    industries: Option<seq<string>>)

  /** A selection narrows the table only when it is given and non-empty
      (Python's truth value of a list). */
  predicate Active<T>(o: Option<seq<T>>) { o.Some? && |o.value| > 0 }

  datatype Column = Company | Year | Month | Industry

  predicate Constrains(c: Column, f: Filters) {
    match c
    case Company => Active(f.companies)
    case Year => Active(f.years)
    case Month => Active(f.months)
    case Industry => Active(f.industries)
  }

  /** The `isin` test of one column; meaningful when the column is constrained. */
  predicate IsIn(c: Column, f: Filters, d: Dims) {
    match c
    case Company => f.companies.Some? && d.company in f.companies.value
    case Year => f.years.Some? && d.year in f.years.value
    case Month => f.months.Some? && d.month in f.months.value
    case Industry => f.industries.Some? && d.industry in f.industries.value
  }

  /** A row passes the whole filter when it lies in every given, non-empty
      selection. */
  predicate Admits(f: Filters, d: Dims) {
    && (Active(f.companies) ==> d.company in f.companies.value)
    && (Active(f.years) ==> d.year in f.years.value)
    && (Active(f.months) ==> d.month in f.months.value)
    && (Active(f.industries) ==> d.industry in f.industries.value)
  }

  /** The rows whose column `c` lies in its selection, in table order. */
  function KeepIn<R>(rows: seq<R>, dims: R -> Dims, c: Column, f: Filters): (r: seq<R>)
    ensures |r| <= |rows|
    ensures forall x :: x in r ==> x in rows && IsIn(c, f, dims(x))
  {
    if rows == [] then []
    else (if IsIn(c, f, dims(rows[0])) then [rows[0]] else []) + KeepIn(rows[1..], dims, c, f)
  }

  /** One `if selection: df = df[df[col].isin(selection)]` step. */
  function Narrow<R>(rows: seq<R>, dims: R -> Dims, c: Column, f: Filters): (r: seq<R>)
    ensures |r| <= |rows|
    ensures forall x :: x in r ==> x in rows && (Constrains(c, f) ==> IsIn(c, f, dims(x)))
  {
    if Constrains(c, f) then KeepIn(rows, dims, c, f) else rows
  }

  /** `filter_data`: the four steps in the order company, year, month, industry. */
  function FilterData<R>(rows: seq<R>, dims: R -> Dims, f: Filters): (r: seq<R>)
    ensures |r| <= |rows|
    ensures forall x :: x in r ==> x in rows && Admits(f, dims(x))
  {
    Narrow(Narrow(Narrow(Narrow(rows, dims, Company, f), dims, Year, f), dims, Month, f), dims, Industry, f)
  }

  /** Reference definition: a single pass keeping the admitted rows. */
  function Matching<R>(rows: seq<R>, dims: R -> Dims, f: Filters): seq<R> {
    if rows == [] then []
    else (if Admits(f, dims(rows[0])) then [rows[0]] else []) + Matching(rows[1..], dims, f)
  }

  lemma KeepInAppend<R>(a: seq<R>, b: seq<R>, dims: R -> Dims, c: Column, f: Filters)
    ensures KeepIn(a + b, dims, c, f) == KeepIn(a, dims, c, f) + KeepIn(b, dims, c, f)
  {
    if a == [] {
      assert a + b == b;
    } else {
      assert (a + b)[1..] == a[1..] + b;
      KeepInAppend(a[1..], b, dims, c, f);
    }
  }

  lemma NarrowAppend<R>(a: seq<R>, b: seq<R>, dims: R -> Dims, c: Column, f: Filters)
    ensures Narrow(a + b, dims, c, f) == Narrow(a, dims, c, f) + Narrow(b, dims, c, f)
  {
    KeepInAppend(a, b, dims, c, f);
  }

  lemma NarrowEmpty<R>(dims: R -> Dims, c: Column, f: Filters)
    ensures Narrow([], dims, c, f) == []
  {
  }

  lemma FilterDataAppend<R>(a: seq<R>, b: seq<R>, dims: R -> Dims, f: Filters)
    ensures FilterData(a + b, dims, f) == FilterData(a, dims, f) + FilterData(b, dims, f)
  {
    NarrowAppend(a, b, dims, Company, f);
    var a1, b1 := Narrow(a, dims, Company, f), Narrow(b, dims, Company, f);
    NarrowAppend(a1, b1, dims, Year, f);
    var a2, b2 := Narrow(a1, dims, Year, f), Narrow(b1, dims, Year, f);
    NarrowAppend(a2, b2, dims, Month, f);
    var a3, b3 := Narrow(a2, dims, Month, f), Narrow(b2, dims, Month, f);
    NarrowAppend(a3, b3, dims, Industry, f);
  }

  lemma NarrowSingle<R>(x: R, dims: R -> Dims, c: Column, f: Filters)
    ensures Narrow([x], dims, c, f) == if !Constrains(c, f) || IsIn(c, f, dims(x)) then [x] else []
  {
    assert [x][0] == x && [x][1..] == [];
    assert KeepIn([x], dims, c, f) == (if IsIn(c, f, dims(x)) then [x] else []) + KeepIn([], dims, c, f);
  }

  /** On a single row the four steps keep it exactly when it is admitted. */
  lemma FilterDataSingle<R>(x: R, dims: R -> Dims, f: Filters)
    ensures FilterData([x], dims, f) == if Admits(f, dims(x)) then [x] else []
  {
    NarrowSingle(x, dims, Company, f);
    NarrowSingle(x, dims, Year, f);
    NarrowSingle(x, dims, Month, f);
    NarrowSingle(x, dims, Industry, f);
  }

  /** The chain of four steps removes exactly the rows the filter does not
      admit, keeping the order of the others. */
  lemma {:induction false} FilterDataSpec<R>(rows: seq<R>, dims: R -> Dims, f: Filters)
    ensures FilterData(rows, dims, f) == Matching(rows, dims, f)
  {
    if rows == [] {
      NarrowEmpty(dims, Company, f);
      NarrowEmpty(dims, Year, f);
      NarrowEmpty(dims, Month, f);
      NarrowEmpty(dims, Industry, f);
    } else {
      assert rows == [rows[0]] + rows[1..];
      FilterDataAppend([rows[0]], rows[1..], dims, f);
      FilterDataSingle(rows[0], dims, f);
      FilterDataSpec(rows[1..], dims, f);
    }
  }

  /** A row of the table is kept, as often as it occurs, exactly when the
      filter admits it; nothing else appears. */
  lemma {:induction false} MatchingSpec<R>(rows: seq<R>, dims: R -> Dims, f: Filters)
    ensures var m := Matching(rows, dims, f);
      && |m| <= |rows|
      && (forall r :: r in m <==> r in rows && Admits(f, dims(r)))
      && (forall r :: multiset(m)[r] == if Admits(f, dims(r)) then multiset(rows)[r] else 0)
  {
    if rows != [] {
      MatchingSpec(rows[1..], dims, f);
      assert rows == [rows[0]] + rows[1..];
    }
  }

  /** a can be obtained from b by deleting rows, keeping the order of the
      others. */
  ghost predicate IsSubsequence<R>(a: seq<R>, b: seq<R>)
    decreases |b|
  {
    if a == [] then true
    else if b == [] then false
    else (a[0] == b[0] && IsSubsequence(a[1..], b[1..])) || IsSubsequence(a, b[1..])
  }

  /** The filtered table keeps its rows in their original order. */
  lemma {:induction false} MatchingIsSubsequence<R>(rows: seq<R>, dims: R -> Dims, f: Filters)
    ensures IsSubsequence(Matching(rows, dims, f), rows)
  {
    if rows != [] {
      MatchingIsSubsequence(rows[1..], dims, f);
      var t := Matching(rows[1..], dims, f);
      if Admits(f, dims(rows[0])) {
        assert Matching(rows, dims, f) == [rows[0]] + t;
        assert ([rows[0]] + t)[0] == rows[0] && ([rows[0]] + t)[1..] == t;
      } else {
        assert Matching(rows, dims, f) == t;
      }
    }
  }

  /** With no given, non-empty selection the table is returned unchanged. */
  lemma FilterUnconstrained<R>(rows: seq<R>, dims: R -> Dims, f: Filters)
    requires !Active(f.companies) && !Active(f.years) && !Active(f.months) && !Active(f.industries)
    ensures FilterData(rows, dims, f) == rows
  {
  }

  lemma {:induction false} MatchingIdempotent<R>(rows: seq<R>, dims: R -> Dims, f: Filters)
    ensures Matching(Matching(rows, dims, f), dims, f) == Matching(rows, dims, f)
  {
    if rows != [] {
      MatchingIdempotent(rows[1..], dims, f);
      var t := Matching(rows[1..], dims, f);
      if Admits(f, dims(rows[0])) {
        assert Matching(rows, dims, f) == [rows[0]] + t;
        assert ([rows[0]] + t)[0] == rows[0] && ([rows[0]] + t)[1..] == t;
        assert Matching([rows[0]] + t, dims, f) == [rows[0]] + Matching(t, dims, f);
      } else {
        assert [] + t == t;
      }
    }
  }

  /** Filtering an already filtered table with the same selections changes
      nothing. */
  lemma FilterIdempotent<R>(rows: seq<R>, dims: R -> Dims, f: Filters)
    ensures FilterData(FilterData(rows, dims, f), dims, f) == FilterData(rows, dims, f)
  {
    FilterDataSpec(rows, dims, f);
    FilterDataSpec(FilterData(rows, dims, f), dims, f);
    MatchingIdempotent(rows, dims, f);
  }

  /** Re-filtering with selections that admit every row the first filter
      kept changes nothing. */
  lemma {:induction false} MatchingWider<R>(rows: seq<R>, dims: R -> Dims, f1: Filters, f2: Filters)
    requires forall x :: x in rows && Admits(f1, dims(x)) ==> Admits(f2, dims(x))
    ensures Matching(Matching(rows, dims, f1), dims, f2) == Matching(rows, dims, f1)
  {
    if rows != [] {
      MatchingWider(rows[1..], dims, f1, f2);
      var t := Matching(rows[1..], dims, f1);
      if Admits(f1, dims(rows[0])) {
        assert Matching(rows, dims, f1) == [rows[0]] + t;
        assert ([rows[0]] + t)[0] == rows[0] && ([rows[0]] + t)[1..] == t;
        assert Matching([rows[0]] + t, dims, f2) == [rows[0]] + Matching(t, dims, f2);
      } else {
        assert [] + t == t;
      }
    }
  }

  /** Filtering a filtered table again with wider selections changes nothing.
      "Wider" means admitting every row the first filter admits: a larger
      list is not enough, since an empty first selection does not filter. */
  lemma FilterWider<R>(rows: seq<R>, dims: R -> Dims, f1: Filters, f2: Filters)
    requires forall x :: x in rows && Admits(f1, dims(x)) ==> Admits(f2, dims(x))
    ensures FilterData(FilterData(rows, dims, f1), dims, f2) == FilterData(rows, dims, f1)
  {
    FilterDataSpec(rows, dims, f1);
    FilterDataSpec(FilterData(rows, dims, f1), dims, f2);
    MatchingWider(rows, dims, f1, f2);
  }

  /** A company selection [] followed by the larger selection ["A"]: the
      first step keeps the row of company "B", the second drops it. */
  lemma FilterLargerListNarrows()
    ensures var d := Dims("B", 2022, 1, "Technology");
      var f1 := Filters(Some([]), None, None, None);
      var f2 := Filters(Some(["A"]), None, None, None);
      && FilterData([d], (x: Dims) => x, f1) == [d]
      && FilterData(FilterData([d], (x: Dims) => x, f1), (x: Dims) => x, f2) == []
  {
    var d := Dims("B", 2022, 1, "Technology");
    var f1 := Filters(Some([]), None, None, None);
    var f2 := Filters(Some(["A"]), None, None, None);
    FilterDataSingle(d, (x: Dims) => x, f1);
    FilterDataSingle(d, (x: Dims) => x, f2);
  }
}
