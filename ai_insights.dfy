/** The rule-based "AI" insights of the dashboard: narrative findings about
    the layoffs, hiring and fused tables, trend predictions from the fused
    table, and the fixed recommendations. Each narrative line is modelled
    by the facts it reports, not by its text. */
module AiInsights {
  import opened Options
  import opened Calendar
  import opened Grouping
  import opened Ranking
  import opened Statistics
  import opened Records

  // ---------------------------------------------------------------------
  // Peaks and leaders of a grouping
  // ---------------------------------------------------------------------

  /** e is a group of the table with its total, no group has a larger
      total, and no group with an equal total has a smaller key (the
      `idxmax` of a Series indexed in ascending key order). */
  ghost predicate IsPeak<R>(e: Entry<int>, rows: seq<R>, key: R -> int, val: R -> int) {
    && Occurs(rows, key, e.key)
    && e.total == Sum(Select(rows, key, e.key), val)
    && (forall k :: Occurs(rows, key, k) ==> Sum(Select(rows, key, k), val) <= e.total)
    && (forall k :: Occurs(rows, key, k) && Sum(Select(rows, key, k), val) == e.total ==> e.key <= k)
  }

  /** e is a group of the table with its total and no group has a larger
      total (the head of `sort_values(ascending=False)`). */
  ghost predicate IsLeader<R, K(!new)>(e: Entry<K>, rows: seq<R>, key: R -> K, val: R -> int) {
    && Occurs(rows, key, e.key)
    && e.total == Sum(Select(rows, key, e.key), val)
    && (forall k :: Occurs(rows, key, k) ==> Sum(Select(rows, key, k), val) <= e.total)
  }

  lemma PeakOfSeries<R>(rows: seq<R>, key: R -> int, val: R -> int)
    requires rows != []
    ensures Series(rows, key, val) != []
    ensures IsPeak(PeakEntry(Series(rows, key, val)), rows, key, val)
  {
    var s := Series(rows, key, val);
    SeriesSpec(rows, key, val);
    var p := PeakEntry(s);
    forall k | Occurs(rows, key, k) ensures Sum(Select(rows, key, k), val) <= p.total {
      assert Entry(k, Sum(Select(rows, key, k), val)) in s;
    }
    forall k | Occurs(rows, key, k) && Sum(Select(rows, key, k), val) == p.total ensures p.key <= k {
      assert Entry(k, Sum(Select(rows, key, k), val)) in s;
    }
  }

  lemma LeaderOfSeries<R, K(!new)>(rows: seq<R>, key: R -> K, val: R -> int)
    requires rows != []
    ensures |SortDesc(Series(rows, key, val))| > 0
    ensures IsLeader(SortDesc(Series(rows, key, val))[0], rows, key, val)
  {
    var s := Series(rows, key, val);
    SeriesSpec(rows, key, val);
    SortDescLength(s);
    SortDescHead(s);
    forall k | Occurs(rows, key, k) ensures Sum(Select(rows, key, k), val) <= SortDesc(s)[0].total {
      assert Entry(k, Sum(Select(rows, key, k), val)) in s;
    }
  }

  /** The groups' totals, in the order of the series. */
  function Totals<K>(s: seq<Entry<K>>): (t: seq<int>)
    ensures |t| == |s|
    ensures forall i :: 0 <= i < |s| ==> t[i] == s[i].total
  {
    seq(|s|, i requires 0 <= i < |s| => s[i].total)
  }

  /** The most recent year of a table: Python's `max` over its year groups. */
  function LatestYear<R>(rows: seq<R>, year: R -> int): (y: int)
    requires rows != []
    ensures Occurs(rows, year, y)
    ensures forall k :: Occurs(rows, year, k) ==> k <= y
  {
    Max(KeysOf(rows, year))
  }

  // ---------------------------------------------------------------------
  // generate_ai_insights
  // ---------------------------------------------------------------------

  /** The facts each narrative line reports. */
  datatype Insight =
    | PeakLayoffs(year: int, total: int)
    | PeakHiring(year: int, total: int)
    | MostAffectedIndustry(industry: string, total: int)
    | TopNetHirer(company: string, netChange: int)
    | SeasonalPattern(month: int)
    | RecoverySignal(year: int, net: int)
    | ContinuedChallenges(year: int, net: int)
    | MarketVolatility
    | MarketStability

  /** The recovery indicator for the latest hiring year. */
  function RecoveryRule(layoffs: seq<Event>, hires: seq<Event>): (r: seq<Insight>)
    requires hires != []
    ensures |r| <= 1
  {
    var yl := GroupSum(layoffs, EventYear, EventCount);
    var yh := GroupSum(hires, EventYear, EventCount);
    var recent := LatestYear(hires, EventYear);
    if recent in yh && recent in yl then
      var net := yh[recent] - yl[recent];
      if net > 0 then [RecoverySignal(recent, net)] else [ContinuedChallenges(recent, net)]
    else []
  }

  /** The recovery line is present exactly when the layoffs table has the
      latest hiring year too; it reports that year's hires minus layoffs and
      is framed positively exactly when the net is above zero. */
  lemma RecoveryRuleSpec(layoffs: seq<Event>, hires: seq<Event>)
    requires hires != []
    ensures var r := RecoveryRule(layoffs, hires);
      var y := LatestYear(hires, EventYear);
      var net := Sum(Select(hires, EventYear, y), EventCount) - Sum(Select(layoffs, EventYear, y), EventCount);
      && (r != [] <==> Occurs(layoffs, EventYear, y))
      && (r != [] ==> r[0] == if net > 0 then RecoverySignal(y, net) else ContinuedChallenges(y, net))
  {
    var y := LatestYear(hires, EventYear);
    GroupSumSpec(layoffs, EventYear, EventCount, y);
    GroupSumSpec(hires, EventYear, EventCount, y);
  }

  /** The spread of a table's yearly totals, defined exactly when the table
      spans at least two years. */
  function YearlySpread(rows: seq<Event>): (s: Spread)
    ensures s.Defined? <==> |KeysOf(rows, EventYear)| >= 2
  {
    SampleSpread(Totals(Series(rows, EventYear, EventCount)))
  }

  /** The volatility comparison of the yearly totals' sample deviations:
      layoffs are reported more volatile exactly when both deviations are
      defined and the layoffs' is the larger, and stability otherwise. */
  function VolatilityRule(layoffs: seq<Event>, hires: seq<Event>): (r: Insight)
    ensures var a, b := YearlySpread(layoffs), YearlySpread(hires);
      && (r == MarketVolatility <==> a.Defined? && b.Defined? && a.variance > b.variance)
      && (r != MarketVolatility ==> r == MarketStability)
  {
    if SpreadExceeds(YearlySpread(layoffs), YearlySpread(hires)) then MarketVolatility else MarketStability
  }

  /** The year of the most layoffs, with its total. */
  function PeakLayoffsRule(layoffs: seq<Event>): (r: Insight)
    requires layoffs != []
    ensures r.PeakLayoffs? && Occurs(layoffs, EventYear, r.year)
  {
    PeakOfSeries(layoffs, EventYear, EventCount);
    var p := PeakEntry(Series(layoffs, EventYear, EventCount));
    PeakLayoffs(p.key, p.total)
  }

  /** The reported year has the largest yearly layoff total, which it
      reports, and is the earliest such year. */
  lemma PeakLayoffsRuleSpec(layoffs: seq<Event>)
    requires layoffs != []
    ensures var r := PeakLayoffsRule(layoffs);
      r.PeakLayoffs? && IsPeak(Entry(r.year, r.total), layoffs, EventYear, EventCount)
  {
    PeakOfSeries(layoffs, EventYear, EventCount);
    var p := PeakEntry(Series(layoffs, EventYear, EventCount));
    assert Entry(p.key, p.total) == p;
  }

  /** The year of the most hires, with its total. */
  function PeakHiringRule(hires: seq<Event>): (r: Insight)
    requires hires != []
    ensures r.PeakHiring? && Occurs(hires, EventYear, r.year)
  {
    PeakOfSeries(hires, EventYear, EventCount);
    var p := PeakEntry(Series(hires, EventYear, EventCount));
    PeakHiring(p.key, p.total)
  }

  /** The reported year has the largest yearly hiring total, which it
      reports, and is the earliest such year. */
  lemma PeakHiringRuleSpec(hires: seq<Event>)
    requires hires != []
    ensures var r := PeakHiringRule(hires);
      r.PeakHiring? && IsPeak(Entry(r.year, r.total), hires, EventYear, EventCount)
  {
    PeakOfSeries(hires, EventYear, EventCount);
    var p := PeakEntry(Series(hires, EventYear, EventCount));
    assert Entry(p.key, p.total) == p;
  }

  /** The industry of the most layoffs, with its total. */
  function IndustryRule(layoffs: seq<Event>): (r: Insight)
    requires layoffs != []
    ensures r.MostAffectedIndustry? && Occurs(layoffs, EventIndustry, r.industry)
  {
    LeaderOfSeries(layoffs, EventIndustry, EventCount);
    var e := SortDesc(Series(layoffs, EventIndustry, EventCount))[0];
    MostAffectedIndustry(e.key, e.total)
  }

  /** The reported industry has a layoff total, which it reports, that no
      industry exceeds. */
  lemma IndustryRuleSpec(layoffs: seq<Event>)
    requires layoffs != []
    ensures var r := IndustryRule(layoffs);
      r.MostAffectedIndustry? && IsLeader(Entry(r.industry, r.total), layoffs, EventIndustry, EventCount)
  {
    LeaderOfSeries(layoffs, EventIndustry, EventCount);
    var e := SortDesc(Series(layoffs, EventIndustry, EventCount))[0];
    assert Entry(e.key, e.total) == e;
  }

  /** The company of the largest summed net change in the fused table. */
  function CompanyRule(fused: seq<FusedRow>): (r: Insight)
    requires fused != []
    ensures r.TopNetHirer? && Occurs(fused, RowCompany, r.company)
  {
    LeaderOfSeries(fused, RowCompany, RowNetChange);
    var e := SortDesc(Series(fused, RowCompany, RowNetChange))[0];
    TopNetHirer(e.key, e.total)
  }

  /** The reported company has a summed net change, which it reports, that
      no company exceeds. */
  lemma CompanyRuleSpec(fused: seq<FusedRow>)
    requires fused != []
    ensures var r := CompanyRule(fused);
      r.TopNetHirer? && IsLeader(Entry(r.company, r.netChange), fused, RowCompany, RowNetChange)
  {
    LeaderOfSeries(fused, RowCompany, RowNetChange);
    var e := SortDesc(Series(fused, RowCompany, RowNetChange))[0];
    assert Entry(e.key, e.total) == e;
  }

  /** The calendar month of the most layoffs over all years. */
  function PeakMonth(layoffs: seq<Event>): (e: Entry<int>)
    requires layoffs != []
    ensures Occurs(layoffs, EventMonth, e.key)
  {
    PeakOfSeries(layoffs, EventMonth, EventCount);
    PeakEntry(Series(layoffs, EventMonth, EventCount))
  }

  /** The month's layoff total, summed over all years, is the largest, and
      the month is the earliest such month. */
  lemma PeakMonthSpec(layoffs: seq<Event>)
    requires layoffs != []
    ensures IsPeak(PeakMonth(layoffs), layoffs, EventMonth, EventCount)
  {
    PeakOfSeries(layoffs, EventMonth, EventCount);
  }

  /** The five insights every successful call starts with. */
  function LeadingInsights(layoffs: seq<Event>, hires: seq<Event>, fused: seq<FusedRow>): (r: seq<Insight>)
    requires layoffs != [] && hires != [] && fused != []
    ensures |r| == 5
  {
    [PeakLayoffsRule(layoffs), PeakHiringRule(hires), IndustryRule(layoffs),
     CompanyRule(fused), SeasonalPattern(PeakMonth(layoffs).key)]
  }

  /** `generate_ai_insights`. `None` stands for the exceptions the source
      raises: `idxmax`/`max` of an empty series, `index[0]` of an empty
      fused table, and the month lookup for a month outside 1..12. */
  function GenerateInsights(layoffs: seq<Event>, hires: seq<Event>, fused: seq<FusedRow>): (r: Option<seq<Insight>>)
    ensures r.Some? ==> layoffs != [] && hires != [] && fused != []
    ensures r.Some? ==> |r.value| >= 6
  {
    if layoffs == [] || hires == [] || fused == [] then None
    else
      var month := PeakMonth(layoffs).key;
      if !(1 <= month <= 12) then None
      else
        Some(LeadingInsights(layoffs, hires, fused) + RecoveryRule(layoffs, hires) + [VolatilityRule(layoffs, hires)])
  }

  /** The insights exist exactly when all three tables are non-empty, the
      month lookup never failing on rows whose month comes from a date. */
  lemma InsightsDefined(layoffs: seq<Event>, hires: seq<Event>, fused: seq<FusedRow>)
    requires forall i :: 0 <= i < |layoffs| ==> WellFormed(layoffs[i])
    ensures GenerateInsights(layoffs, hires, fused).Some? <==> layoffs != [] && hires != [] && fused != []
  {
    if layoffs != [] && hires != [] && fused != [] {
      PeakMonthSpec(layoffs);
      var m := PeakMonth(layoffs).key;
      var i :| 0 <= i < |layoffs| && EventMonth(layoffs[i]) == m;
      assert WellFormed(layoffs[i]);
    }
  }

  // Which rule fills each leading position, one position at a time.

  lemma FirstInsight(layoffs: seq<Event>, hires: seq<Event>, fused: seq<FusedRow>)
    requires layoffs != [] && hires != [] && fused != []
    ensures LeadingInsights(layoffs, hires, fused)[0] == PeakLayoffsRule(layoffs)
  {
  }

  lemma SecondInsight(layoffs: seq<Event>, hires: seq<Event>, fused: seq<FusedRow>)
    requires layoffs != [] && hires != [] && fused != []
    ensures LeadingInsights(layoffs, hires, fused)[1] == PeakHiringRule(hires)
  {
  }

  lemma ThirdInsight(layoffs: seq<Event>, hires: seq<Event>, fused: seq<FusedRow>)
    requires layoffs != [] && hires != [] && fused != []
    ensures LeadingInsights(layoffs, hires, fused)[2] == IndustryRule(layoffs)
  {
  }

  lemma FourthInsight(layoffs: seq<Event>, hires: seq<Event>, fused: seq<FusedRow>)
    requires layoffs != [] && hires != [] && fused != []
    ensures LeadingInsights(layoffs, hires, fused)[3] == CompanyRule(fused)
  {
  }

  lemma FifthInsight(layoffs: seq<Event>, hires: seq<Event>, fused: seq<FusedRow>)
    requires layoffs != [] && hires != [] && fused != []
    ensures LeadingInsights(layoffs, hires, fused)[4] == SeasonalPattern(PeakMonth(layoffs).key)
  {
  }

  /** The first leading insight: the peak layoff year. */
  lemma InsightsLayoffPeak(layoffs: seq<Event>, hires: seq<Event>, fused: seq<FusedRow>)
    requires layoffs != [] && hires != [] && fused != []
    ensures var x := LeadingInsights(layoffs, hires, fused)[0];
      x.PeakLayoffs? && IsPeak(Entry(x.year, x.total), layoffs, EventYear, EventCount)
  {
    FirstInsight(layoffs, hires, fused);
    PeakLayoffsRuleSpec(layoffs);
  }

  /** The second leading insight: the peak hiring year. */
  lemma InsightsHiringPeak(layoffs: seq<Event>, hires: seq<Event>, fused: seq<FusedRow>)
    requires layoffs != [] && hires != [] && fused != []
    ensures var x := LeadingInsights(layoffs, hires, fused)[1];
      x.PeakHiring? && IsPeak(Entry(x.year, x.total), hires, EventYear, EventCount)
  {
    SecondInsight(layoffs, hires, fused);
    PeakHiringRuleSpec(hires);
  }

  /** The third leading insight: the most affected industry. */
  lemma InsightsIndustry(layoffs: seq<Event>, hires: seq<Event>, fused: seq<FusedRow>)
    requires layoffs != [] && hires != [] && fused != []
    ensures var x := LeadingInsights(layoffs, hires, fused)[2];
      x.MostAffectedIndustry? && IsLeader(Entry(x.industry, x.total), layoffs, EventIndustry, EventCount)
  {
    ThirdInsight(layoffs, hires, fused);
    IndustryRuleSpec(layoffs);
  }

  /** The fourth leading insight: the top net hirer. */
  lemma InsightsCompany(layoffs: seq<Event>, hires: seq<Event>, fused: seq<FusedRow>)
    requires layoffs != [] && hires != [] && fused != []
    ensures var x := LeadingInsights(layoffs, hires, fused)[3];
      x.TopNetHirer? && IsLeader(Entry(x.company, x.netChange), fused, RowCompany, RowNetChange)
  {
    FourthInsight(layoffs, hires, fused);
    CompanyRuleSpec(fused);
  }

  /** The fifth leading insight: the calendar month of the most layoffs. */
  lemma InsightsSeason(layoffs: seq<Event>, hires: seq<Event>, fused: seq<FusedRow>)
    requires layoffs != [] && hires != [] && fused != []
    ensures var x := LeadingInsights(layoffs, hires, fused)[4];
      x.SeasonalPattern? && exists t :: IsPeak(Entry(x.month, t), layoffs, EventMonth, EventCount)
  {
    FifthInsight(layoffs, hires, fused);
    PeakMonthSpec(layoffs);
    var p := PeakMonth(layoffs);
    assert Entry(p.key, p.total) == p;
  }

  /** A successful call is the leading block, the recovery line if any and
      the volatility line. */
  lemma InsightsShape(layoffs: seq<Event>, hires: seq<Event>, fused: seq<FusedRow>)
    requires GenerateInsights(layoffs, hires, fused).Some?
    ensures layoffs != [] && hires != [] && fused != []
    ensures GenerateInsights(layoffs, hires, fused).value ==
      LeadingInsights(layoffs, hires, fused) + RecoveryRule(layoffs, hires) + [VolatilityRule(layoffs, hires)]
  {
  }

  /** Where the optional line and the last line sit after a block of five. */
  lemma BlockTail(a: seq<Insight>, r: seq<Insight>, v: Insight)
    requires |a| == 5 && |r| <= 1
    ensures var xs := a + r + [v];
      && (|xs| == 6 || |xs| == 7)
      && (|xs| == 7 <==> r != [])
      && (|xs| == 7 ==> [xs[5]] == r)
      && xs[|xs| - 1] == v
  {
    var xs := a + r + [v];
    if r != [] {
      assert xs[5] == r[0] && r == [r[0]];
    }
  }

  /** Six insights, or seven exactly when the latest hiring year also has
      layoffs. */
  lemma InsightsCount(layoffs: seq<Event>, hires: seq<Event>, fused: seq<FusedRow>)
    requires GenerateInsights(layoffs, hires, fused).Some?
    ensures var xs := GenerateInsights(layoffs, hires, fused).value;
      && (|xs| == 6 || |xs| == 7)
      && (|xs| == 7 <==> Occurs(layoffs, EventYear, LatestYear(hires, EventYear)))
  {
    InsightsShape(layoffs, hires, fused);
    RecoveryRuleSpec(layoffs, hires);
    BlockTail(LeadingInsights(layoffs, hires, fused), RecoveryRule(layoffs, hires), VolatilityRule(layoffs, hires));
  }

  /** The sixth of seven insights is the recovery line. */
  lemma InsightsRecoveryLine(layoffs: seq<Event>, hires: seq<Event>, fused: seq<FusedRow>)
    requires GenerateInsights(layoffs, hires, fused).Some?
    ensures var xs := GenerateInsights(layoffs, hires, fused).value;
      |xs| == 7 ==> [xs[5]] == RecoveryRule(layoffs, hires)
  {
    InsightsShape(layoffs, hires, fused);
    BlockTail(LeadingInsights(layoffs, hires, fused), RecoveryRule(layoffs, hires), VolatilityRule(layoffs, hires));
  }

  /** The last insight is always the volatility line. */
  lemma InsightsVolatilityLine(layoffs: seq<Event>, hires: seq<Event>, fused: seq<FusedRow>)
    requires GenerateInsights(layoffs, hires, fused).Some?
    ensures var xs := GenerateInsights(layoffs, hires, fused).value;
      |xs| >= 6 && xs[|xs| - 1] == VolatilityRule(layoffs, hires)
  {
    InsightsShape(layoffs, hires, fused);
    BlockTail(LeadingInsights(layoffs, hires, fused), RecoveryRule(layoffs, hires), VolatilityRule(layoffs, hires));
  }

  /** With a layoffs table spanning a single year the layoffs' deviation is
      undefined, and the stability line is reported. */
  lemma SingleYearIsStable(layoffs: seq<Event>, hires: seq<Event>)
    requires layoffs != []
    requires forall i :: 0 <= i < |layoffs| ==> layoffs[i].year == layoffs[0].year
    ensures VolatilityRule(layoffs, hires) == MarketStability
  {
    KeysOfConstant(layoffs, EventYear, layoffs[0].year);
  }

  /** Tables with yearly layoffs {2021: 100, 2022: 500} and yearly hires
      {2021: 300, 2022: 200}. */
  function ExampleLayoffs(): seq<Event> {
    [Event(Date(2021, 5, 1), "A", 100, "X", "Austin", 2021, 5, "Q2"),
     Event(Date(2022, 5, 1), "A", 500, "X", "Austin", 2022, 5, "Q2")]
  }

  function ExampleHires(): seq<Event> {
    [Event(Date(2021, 6, 1), "A", 300, "X", "Austin", 2021, 6, "Q2"),
     Event(Date(2022, 6, 1), "A", 200, "X", "Austin", 2022, 6, "Q2")]
  }

  lemma ExampleYears()
    ensures KeysOf(ExampleLayoffs(), EventYear) == [2021, 2022]
    ensures KeysOf(ExampleHires(), EventYear) == [2021, 2022]
    ensures GroupSum(ExampleLayoffs(), EventYear, EventCount) == map[2022 := 500][2021 := 100]
    ensures GroupSum(ExampleHires(), EventYear, EventCount) == map[2022 := 200][2021 := 300]
  {
    var ls, hs := ExampleLayoffs(), ExampleHires();
    assert ls[1..] == [ls[1]] && [ls[1]][1..] == [] && hs[1..] == [hs[1]] && [hs[1]][1..] == [];
    assert GroupSum([ls[1]], EventYear, EventCount) == map[2022 := 500];
    assert GroupSum([hs[1]], EventYear, EventCount) == map[2022 := 200];
  }

  lemma ExampleSeries()
    ensures Series(ExampleLayoffs(), EventYear, EventCount) == [Entry(2021, 100), Entry(2022, 500)]
    ensures Series(ExampleHires(), EventYear, EventCount) == [Entry(2021, 300), Entry(2022, 200)]
  {
    ExampleYears();
  }

  /** The layoff peak of the example is 2022 with 500. */
  lemma PeakLayoffsExample()
    ensures PeakLayoffsRule(ExampleLayoffs()) == PeakLayoffs(2022, 500)
  {
    ExampleSeries();
    var s := [Entry(2021, 100), Entry(2022, 500)];
    assert s[1..] == [Entry(2022, 500)];
  }

  /** The latest hiring year 2022 nets 200 - 500 = -300: continued
      challenges. */
  lemma RecoveryExample()
    ensures RecoveryRule(ExampleLayoffs(), ExampleHires()) == [ContinuedChallenges(2022, -300)]
  {
    ExampleYears();
    assert [2021, 2022][1..] == [2022];
  }

  /** The yearly layoffs vary more (sample variance 80000) than the yearly
      hires (5000): market volatility. */
  lemma VolatilityExample()
    ensures VolatilityRule(ExampleLayoffs(), ExampleHires()) == MarketVolatility
  {
    ExampleSeries();
    assert Totals([Entry(2021, 100), Entry(2022, 500)]) == [100, 500];
    assert Totals([Entry(2021, 300), Entry(2022, 200)]) == [300, 200];
    SpreadOfTwo(100, 500);
    SpreadOfTwo(300, 200);
  }

  // ---------------------------------------------------------------------
  // predict_trends
  // ---------------------------------------------------------------------

  datatype Prediction =
    | LayoffsDecreasing
    | LayoffsIncreasing
    | HiringStrong
    | HiringDeclining
    | IndustryMomentum(industry: string)

  /** The years of ys below y. */
  function YearsBefore(ys: seq<int>, y: int): (r: seq<int>)
    ensures forall k :: k in r <==> k in ys && k < y
    decreases |ys|
  {
    if ys == [] then []
    else (if ys[0] < y then [ys[0]] else []) + YearsBefore(ys[1..], y)
  }

  /** The year before the latest one in a table with at least two years:
      the second-to-last index of the year-ordered group-by. */
  function PreviousYear(fused: seq<FusedRow>): (y: int)
    requires |KeysOf(fused, RowYear)| >= 2
    ensures Occurs(fused, RowYear, y) && y < LatestYear(fused, RowYear)
    ensures forall k :: Occurs(fused, RowYear, k) && k < LatestYear(fused, RowYear) ==> k <= y
  {
    var ys := KeysOf(fused, RowYear);
    var latest := LatestYear(fused, RowYear);
    assert ys[0] != ys[1] && ys[0] in ys && ys[1] in ys;
    assert ys[0] < latest || ys[1] < latest;
    assert ys[0] in YearsBefore(ys, latest) || ys[1] in YearsBefore(ys, latest);
    Max(YearsBefore(ys, latest))
  }

  /** The layoff rule on a pair of yearly totals: a drop of more than 10%
      first, else a rise of more than 10%. */
  function LayoffRule(cur: int, prev: int): (r: seq<Prediction>)
    ensures |r| <= 1
    ensures forall p :: p in r ==> p.LayoffsDecreasing? || p.LayoffsIncreasing?
  {
    var g := PctChange(cur, prev);
    if Below(g, -0.1) then [LayoffsDecreasing]
    else if Above(g, 0.1) then [LayoffsIncreasing]
    else []
  }

  /** The hiring rule on a pair of yearly totals: a rise of more than 10%
      first, else a drop of more than 10%. */
  function HiringRule(cur: int, prev: int): (r: seq<Prediction>)
    ensures |r| <= 1
    ensures forall p :: p in r ==> p.HiringStrong? || p.HiringDeclining?
  {
    var g := PctChange(cur, prev);
    if Above(g, 0.1) then [HiringStrong]
    else if Below(g, -0.1) then [HiringDeclining]
    else []
  }

  /** The year-over-year rules on the yearly layoff and hiring totals. */
  function TrendRules(fused: seq<FusedRow>): (r: seq<Prediction>)
    ensures |r| <= 2
  {
    if |KeysOf(fused, RowYear)| < 2 then []
    else
      var layoffs := GroupSum(fused, RowYear, RowLayoffs);
      var hires := GroupSum(fused, RowYear, RowHires);
      var latest := LatestYear(fused, RowYear);
      var previous := PreviousYear(fused);
      LayoffRule(Get(layoffs, latest), Get(layoffs, previous))
      + HiringRule(Get(hires, latest), Get(hires, previous))
  }

  /** The rows of the table from year y on, each as often as it occurs
      (a boolean mask keeps duplicates). */
  function FromYear(fused: seq<FusedRow>, y: int): (r: seq<FusedRow>)
    ensures forall x :: x in r <==> x in fused && x.year >= y
    ensures forall x :: multiset(r)[x] == if x.year >= y then multiset(fused)[x] else 0
    decreases |fused|
  {
    if fused == [] then []
    else
      assert fused == [fused[0]] + fused[1..];
      (if fused[0].year >= y then [fused[0]] else []) + FromYear(fused[1..], y)
  }

  /** The rows of the two most recent years (none for an empty table, where
      the maximum year is NaN). */
  function RecentWindow(fused: seq<FusedRow>): (r: seq<FusedRow>)
    ensures forall x :: x in r ==> x in fused
    ensures r == [] <==> fused == []
  {
    if fused == [] then []
    else
      var y := LatestYear(fused, RowYear);
      var i :| 0 <= i < |fused| && fused[i].year == y;
      var r := FromYear(fused, y - 1);
      assert fused[i] in r;
      r
  }

  /** The industry with the largest summed net change over the recent
      window, if the window has any industry. */
  function MomentumRule(fused: seq<FusedRow>): (r: seq<Prediction>)
    ensures |r| <= 1
  {
    var momentum := SortDesc(Series(RecentWindow(fused), RowIndustry, RowNetChange));
    if |momentum| > 0 then [IndustryMomentum(momentum[0].key)] else []
  }

  /** `predict_trends`: at most one layoff line, one hiring line and one
      momentum line, and nothing for an empty table. */
  function PredictTrends(fused: seq<FusedRow>): (r: seq<Prediction>)
    ensures |r| <= 3
    ensures fused == [] ==> r == []
  {
    assert fused == [] ==> MomentumRule(fused) == [] by { MomentumSpec(fused); }
    TrendRules(fused) + MomentumRule(fused)
  }

  /** The yearly layoff and hiring totals of the latest and the previous
      year of a table with at least two years. */
  function LatestLayoffs(fused: seq<FusedRow>): int
    requires fused != []
  {
    Sum(Select(fused, RowYear, LatestYear(fused, RowYear)), RowLayoffs)
  }

  function PreviousLayoffs(fused: seq<FusedRow>): int
    requires |KeysOf(fused, RowYear)| >= 2
  {
    Sum(Select(fused, RowYear, PreviousYear(fused)), RowLayoffs)
  }

  function LatestHires(fused: seq<FusedRow>): int
    requires fused != []
  {
    Sum(Select(fused, RowYear, LatestYear(fused, RowYear)), RowHires)
  }

  function PreviousHires(fused: seq<FusedRow>): int
    requires |KeysOf(fused, RowYear)| >= 2
  {
    Sum(Select(fused, RowYear, PreviousYear(fused)), RowHires)
  }

  lemma SelectNonNegative(fused: seq<FusedRow>, y: int)
    ensures Sum(Select(fused, RowYear, y), RowLayoffs) >= 0
    ensures Sum(Select(fused, RowYear, y), RowHires) >= 0
  {
    SumNonNegative(Select(fused, RowYear, y), RowLayoffs);
    SumNonNegative(Select(fused, RowYear, y), RowHires);
  }

  /** On non-negative totals the layoff rule, in whole numbers: a drop of
      more than 10% predicts decreasing layoffs; a rise of more than 10%,
      or any layoffs after a year of none, predicts increasing layoffs. */
  lemma LayoffRuleSpec(cur: int, prev: int)
    requires cur >= 0 && prev >= 0
    ensures var r := LayoffRule(cur, prev);
      && (LayoffsDecreasing in r <==> prev > 0 && 10 * cur < 9 * prev)
      && (LayoffsIncreasing in r <==> (prev > 0 && 10 * cur > 11 * prev) || (prev == 0 && cur > 0))
      && !(LayoffsDecreasing in r && LayoffsIncreasing in r)
  {
    BelowMinusTenPercent(cur, prev);
    AboveTenPercent(cur, prev);
  }

  /** On non-negative totals the hiring rule, in whole numbers: a rise of
      more than 10%, or any hires after a year of none, predicts strong
      hiring; a drop of more than 10% predicts declining hiring. */
  lemma HiringRuleSpec(cur: int, prev: int)
    requires cur >= 0 && prev >= 0
    ensures var r := HiringRule(cur, prev);
      && (HiringStrong in r <==> (prev > 0 && 10 * cur > 11 * prev) || (prev == 0 && cur > 0))
      && (HiringDeclining in r <==> prev > 0 && 10 * cur < 9 * prev)
      && !(HiringStrong in r && HiringDeclining in r)
  {
    BelowMinusTenPercent(cur, prev);
    AboveTenPercent(cur, prev);
  }

  /** With two or more years the trend lines are the layoff rule on the
      latest and previous yearly layoff totals followed by the hiring rule
      on the yearly hiring totals, all of them non-negative. */
  lemma TrendRulesSplit(fused: seq<FusedRow>)
    requires |KeysOf(fused, RowYear)| >= 2
    ensures LatestLayoffs(fused) >= 0 && PreviousLayoffs(fused) >= 0
    ensures LatestHires(fused) >= 0 && PreviousHires(fused) >= 0
    ensures TrendRules(fused) == LayoffRule(LatestLayoffs(fused), PreviousLayoffs(fused))
                                 + HiringRule(LatestHires(fused), PreviousHires(fused))
  {
    var latest, previous := LatestYear(fused, RowYear), PreviousYear(fused);
    GroupSumSpec(fused, RowYear, RowLayoffs, latest);
    GroupSumSpec(fused, RowYear, RowLayoffs, previous);
    GroupSumSpec(fused, RowYear, RowHires, latest);
    GroupSumSpec(fused, RowYear, RowHires, previous);
    SelectNonNegative(fused, latest);
    SelectNonNegative(fused, previous);
  }

  /** The layoff trend in whole numbers: a drop of more than 10% from the
      previous year predicts decreasing layoffs; otherwise a rise of more
      than 10%, or any layoffs after a year of none, predicts increasing
      layoffs; with fewer than two years there is no trend. */
  lemma LayoffTrendSpec(fused: seq<FusedRow>)
    ensures var r := TrendRules(fused);
      && (|KeysOf(fused, RowYear)| < 2 ==> r == [])
      && (|KeysOf(fused, RowYear)| >= 2 ==>
            var cur, prev := LatestLayoffs(fused), PreviousLayoffs(fused);
            && (LayoffsDecreasing in r <==> prev > 0 && 10 * cur < 9 * prev)
            && (LayoffsIncreasing in r <==> (prev > 0 && 10 * cur > 11 * prev) || (prev == 0 && cur > 0))
            && !(LayoffsDecreasing in r && LayoffsIncreasing in r))
  {
    if |KeysOf(fused, RowYear)| >= 2 {
      TrendRulesSplit(fused);
      var a := LayoffRule(LatestLayoffs(fused), PreviousLayoffs(fused));
      var b := HiringRule(LatestHires(fused), PreviousHires(fused));
      LayoffRuleSpec(LatestLayoffs(fused), PreviousLayoffs(fused));
      assert LayoffsDecreasing !in b && LayoffsIncreasing !in b;
      assert forall p :: p in a + b <==> p in a || p in b;
    }
  }

  /** The hiring trend in whole numbers: a rise of more than 10%, or any
      hires after a year of none, predicts strong hiring; otherwise a drop
      of more than 10% predicts declining hiring. */
  lemma HiringTrendSpec(fused: seq<FusedRow>)
    ensures var r := TrendRules(fused);
      |KeysOf(fused, RowYear)| >= 2 ==>
        var cur, prev := LatestHires(fused), PreviousHires(fused);
        && (HiringStrong in r <==> (prev > 0 && 10 * cur > 11 * prev) || (prev == 0 && cur > 0))
        && (HiringDeclining in r <==> prev > 0 && 10 * cur < 9 * prev)
        && !(HiringStrong in r && HiringDeclining in r)
  {
    if |KeysOf(fused, RowYear)| >= 2 {
      TrendRulesSplit(fused);
      var a := LayoffRule(LatestLayoffs(fused), PreviousLayoffs(fused));
      var b := HiringRule(LatestHires(fused), PreviousHires(fused));
      HiringRuleSpec(LatestHires(fused), PreviousHires(fused));
      assert HiringStrong !in a && HiringDeclining !in a;
      assert forall p :: p in a + b <==> p in a || p in b;
    }
  }

  /** The momentum line is reported exactly when the fused table has rows,
      and names an industry of the two most recent years with the largest
      net change summed over those years. */
  lemma MomentumSpec(fused: seq<FusedRow>)
    ensures var r := MomentumRule(fused);
      && (r != [] <==> fused != [])
      && |r| <= 1
      && (r != [] ==>
            && r[0].IndustryMomentum?
            && exists t :: IsLeader(Entry(r[0].industry, t), RecentWindow(fused), RowIndustry, RowNetChange))
  {
    var w := RecentWindow(fused);
    if fused != [] {
      var y := LatestYear(fused, RowYear);
      var i :| 0 <= i < |fused| && RowYear(fused[i]) == y;
      assert fused[i] in w;
      LeaderOfSeries(w, RowIndustry, RowNetChange);
      var e := SortDesc(Series(w, RowIndustry, RowNetChange))[0];
      assert Entry(e.key, e.total) == e;
    } else {
      SortDescLength(Series(w, RowIndustry, RowNetChange));
    }
  }

  /** The window holds exactly the rows of the latest year and the one
      before it, each as many times as the table does. */
  lemma RecentWindowSpec(fused: seq<FusedRow>)
    requires fused != []
    ensures forall x :: x in RecentWindow(fused) <==> x in fused && x.year >= LatestYear(fused, RowYear) - 1
    ensures forall x ::
              multiset(RecentWindow(fused))[x] == if x.year >= LatestYear(fused, RowYear) - 1 then multiset(fused)[x] else 0
    ensures forall x :: x in RecentWindow(fused) ==> x.year <= LatestYear(fused, RowYear)
  {
    var y := LatestYear(fused, RowYear);
    forall x | x in RecentWindow(fused) ensures x.year <= y {
      var i :| 0 <= i < |fused| && fused[i] == x;
      assert Occurs(fused, RowYear, RowYear(fused[i]));
    }
  }

  // ---------------------------------------------------------------------
  // generate_recommendations
  // ---------------------------------------------------------------------

  /** The four fixed advisories, one per audience. */
  datatype Recommendation = ForJobSeekers | ForEmployers | ForInvestors | ForPolicymakers

  /** `generate_recommendations`: its arguments are not read. */
  function GenerateRecommendations(insights: seq<Insight>, predictions: seq<Prediction>): (r: seq<Recommendation>)
    ensures |r| == 4
    ensures forall i, j :: 0 <= i < j < |r| ==> r[i] != r[j]
  {
    [ForJobSeekers, ForEmployers, ForInvestors, ForPolicymakers]
  }

  /** The advisories do not depend on the insights or the predictions. */
  lemma RecommendationsConstant(i1: seq<Insight>, p1: seq<Prediction>, i2: seq<Insight>, p2: seq<Prediction>)
    ensures GenerateRecommendations(i1, p1) == GenerateRecommendations(i2, p2)
  {
  }
}
