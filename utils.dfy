/** The helpers of the integration that the window selection depends on:
    the derived `hour` and `days_ahead` columns of the forecast dataframe
    and the year-keyed classification of a carbon intensity. */
module Utils {
  import opened Results

  const MinutesPerDay := 1440
  const MinutesPerHour := 60

  /** One half-hour record of the forecast payload. The `from` and `to`
      timestamps are already parsed, as whole minutes since
      1970-01-01T00:00 UTC; `forecast` is the forecast intensity in gCO2/kWh. */
  datatype Slot = Slot(from: int, to: int, forecast: int)

  /** One row of the dataframe that `json_to_df` builds from the payload. */
  datatype Row = Row(from: int, to: int, forecast: real, hour: real, daysAhead: int)

  /** Minutes elapsed since midnight of the timestamp's day. */
  function MinuteOfDay(t: int): (m: int)
    ensures 0 <= m < MinutesPerDay
    ensures (t - m) % MinutesPerDay == 0
  {
    t % MinutesPerDay
  }

  /** The `hour` column: hour of the day plus the minute as a fraction of an hour. */
  function Hour(t: int): (h: real)
    ensures 0.0 <= h < 24.0
    ensures h * 60.0 == MinuteOfDay(t) as real
  {
    var m := MinuteOfDay(t);
    (m / MinutesPerHour) as real + (m % MinutesPerHour) as real / 60.0
  }

  /** The `days_ahead` column: the calendar day of the timestamp minus the
      calendar day `today` (both counted in days since 1970-01-01). */
  function DaysAhead(t: int, today: int): (d: int)
    ensures (today + d) * MinutesPerDay <= t < (today + d + 1) * MinutesPerDay
  {
    t / MinutesPerDay - today
  }

  /** The day count is the only one that places `t` inside that calendar day:
      0 for a slot today, 1 for a slot tomorrow, and so on. */
  lemma DaysAheadIff(t: int, today: int, d: int)
    ensures DaysAhead(t, today) == d <==> (today + d) * MinutesPerDay <= t < (today + d + 1) * MinutesPerDay
  {
    var e := DaysAhead(t, today);
    if e < d {
      assert (today + e + 1) * MinutesPerDay <= (today + d) * MinutesPerDay;
    } else if e > d {
      assert (today + d + 1) * MinutesPerDay <= (today + e) * MinutesPerDay;
    }
  }

  /** `json_to_df`: one row per slot, with the forecast as a float and the
      derived `hour` and `days_ahead` columns. */
  function ToFrame(series: seq<Slot>, today: int): (frame: seq<Row>)
    ensures |frame| == |series|
    ensures forall i :: 0 <= i < |series| ==>
      frame[i].from == series[i].from && frame[i].to == series[i].to &&
      frame[i].forecast == series[i].forecast as real &&
      0.0 <= frame[i].hour < 24.0 &&
      frame[i].hour * 60.0 == MinuteOfDay(series[i].from) as real &&
      frame[i].daysAhead == DaysAhead(series[i].from, today)
  {
    seq(|series|, i requires 0 <= i < |series| =>
      Row(series[i].from, series[i].to, series[i].forecast as real,
          Hour(series[i].from), DaysAhead(series[i].from, today)))
  }

  /** The five categories `get_index` returns. */
  datatype Label = VeryLow | Low | Moderate | High | VeryHigh {

    /** The string the integration reports for the category. */
    function Name(): (s: string)
      ensures s in ["very low", "low", "moderate", "high", "very high"]
    {
      match this
      case VeryLow => "very low"
      case Low => "low"
      case Moderate => "moderate"
      case High => "high"
      case VeryHigh => "very high"
    }

    /** The rank the `INTENSITY` table gives the category. */
    function Rank(): (r: nat)
      ensures r <= 4
    {
      match this
      case VeryLow => 0
      case Low => 1
      case Moderate => 2
      case High => 3
      case VeryHigh => 4
    }
  }

  /** The `INTENSITY` table: the rank of each category string. */
  const Intensity: map<string, nat> :=
    map["very low" := 0, "low" := 1, "moderate" := 2, "high" := 3, "very high" := 4]

  /** The rank of a category is the rank `INTENSITY` gives its name. */
  lemma RankIsIntensityOfName(category: Label)
    ensures category.Name() in Intensity && Intensity[category.Name()] == category.Rank()
  {
  }

  /** The rank of a category determines it, and so does its name. */
  lemma RankAndNameIdentify(a: Label, b: Label)
    ensures a.Rank() == b.Rank() <==> a == b
    ensures a.Name() == b.Name() <==> a == b
  {
  }

  const FirstYear := 2021
  const LastYear := 2030

  /** The threshold table of `get_index`: four boundaries per year, or no
      entry (the dictionary lookup raises `KeyError`). */
  function Thresholds(year: int): (r: Option<seq<int>>)
    ensures r.Some? <==> FirstYear <= year <= LastYear
    ensures r.Some? ==> |r.value| == 4 && 0 < r.value[0] < r.value[1] < r.value[2] < r.value[3]
  {
    if year == 2021 then Some([50, 140, 220, 330])
    else if year == 2022 then Some([45, 130, 210, 310])
    else if year == 2023 then Some([40, 120, 200, 290])
    else if year == 2024 then Some([35, 110, 190, 270])
    else if year == 2025 then Some([30, 100, 180, 250])
    else if year == 2026 then Some([25, 90, 170, 230])
    else if year == 2027 then Some([20, 80, 160, 210])
    else if year == 2028 then Some([15, 70, 150, 190])
    else if year == 2029 then Some([10, 60, 140, 170])
    else if year == 2030 then Some([5, 50, 130, 150])
    else None
  }

  /** Every column of the table falls by a fixed step each year. */
  function LinearThresholds(year: int): (t: seq<int>)
    ensures |t| == 4
  {
    var d := year - FirstYear;
    [50 - 5 * d, 140 - 10 * d, 220 - 10 * d, 330 - 20 * d]
  }

  lemma ThresholdsAreLinear(year: int)
    requires FirstYear <= year <= LastYear
    ensures Thresholds(year) == Some(LinearThresholds(year))
  {
  }

  /** Each threshold is no higher in a later year than in an earlier one. */
  lemma ThresholdsFall(y1: int, y2: int)
    requires FirstYear <= y1 <= y2 <= LastYear
    ensures forall k :: 0 <= k < 4 ==> Thresholds(y2).value[k] <= Thresholds(y1).value[k]
  {
    ThresholdsAreLinear(y1);
    ThresholdsAreLinear(y2);
  }

  /** `get_index`: the category of an intensity in a given year. */
  function GetIndex(intensity: real, year: int): (r: Option<Label>)
    ensures r.Some? <==> FirstYear <= year <= LastYear
  {
    match Thresholds(year)
    case None => None
    case Some(t) =>
      Some(if intensity < t[0] as real then VeryLow
           else if intensity < t[1] as real then Low
           else if intensity < t[2] as real then Moderate
           else if intensity < t[3] as real then High
           else VeryHigh)
  }

  /** The half-open interval of intensities that a category stands for,
      between the thresholds on either side of its rank. */
  predicate InCategory(intensity: real, category: Label, t: seq<int>)
    requires |t| == 4
  {
    (category.Rank() == 0 || t[category.Rank() - 1] as real <= intensity) &&
    (category.Rank() == 4 || intensity < t[category.Rank()] as real)
  }

  /** An intensity gets exactly the category whose interval holds it. */
  lemma GetIndexIff(intensity: real, year: int, category: Label)
    requires Thresholds(year).Some?
    ensures GetIndex(intensity, year) == Some(category) <==> InCategory(intensity, category, Thresholds(year).value)
  {
  }

  /** The comparisons are strict: an intensity equal to a threshold already
      falls in the category above it. */
  lemma GetIndexAtThreshold(year: int, k: nat)
    requires Thresholds(year).Some? && k < 4
    ensures GetIndex(Thresholds(year).value[k] as real, year).value.Rank() == k + 1
    ensures Thresholds(year).value[k] > 0 ==>
      GetIndex((Thresholds(year).value[k] - 1) as real, year).value.Rank() == k
  {
  }

  /** For a fixed year a higher intensity never gets a lower category. */
  lemma GetIndexMonotone(i1: real, i2: real, year: int)
    requires FirstYear <= year <= LastYear
    requires i1 <= i2
    ensures GetIndex(i1, year).value.Rank() <= GetIndex(i2, year).value.Rank()
  {
  }

  /** For a fixed intensity a later year never gives a lower category. */
  lemma GetIndexRisesByYear(intensity: real, y1: int, y2: int)
    requires FirstYear <= y1 <= y2 <= LastYear
    ensures GetIndex(intensity, y1).value.Rank() <= GetIndex(intensity, y2).value.Rank()
  {
    ThresholdsFall(y1, y2);
  }
}
