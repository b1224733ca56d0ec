/** `generate_response`: turns a half-hourly carbon-intensity forecast into
    the current intensity, its category, and the lowest-carbon start slot in
    the early-morning band within 24 and within 48 hours, with the saving
    against the current slot. */
module Client {
  import opened Results
  import opened Utils

  // The load-shifting parameters: a run of `RunLength` hours may start
  // from `StartTime` on and must end by `EndTime` (hours of the day).
  const StartTime: real := 1.5
  const EndTime: real := 6.5
  const RunLength: nat := 1
  /** Slots covered by the forward-looking mean: two half-hours per hour of run. */
  const WindowSize: nat := 2 * RunLength
  /** At most 48 hours of half-hour slots are kept, and at least 24 hours are needed. */
  const MaxSlots: nat := 96
  const MinSlots: nat := 48

  /** The evaluation time, which the integration reads from the system clock:
      the UTC time in microseconds since 1970-01-01, the local calendar day
      (days since 1970-01-01) and the local calendar year. */
  datatype Clock = Clock(utcMicros: int, localDay: int, year: int)

  /** What the integration raises instead of returning a result. */
  datatype Exception =
    | IndexError       // an element of an empty list or selection is read
    | KeyError(year: int)  // the year has no row in the threshold table

  /** A chosen start slot: its `from` time and its smoothed intensity. */
  datatype Window = Window(start: int, co2: real)

  /** The dictionary `generate_response` returns. */
  datatype Response =
    | MalformedData    // {"error": "malformed data"}
    | Report(currentCo2: real, currentIndex: Label,
             next24: Window, next24Saving: Option<real>,
             next48: Window, next48Saving: Option<real>)

  // ---------------------------------------------------------------------
  // Sanitising the series
  // ---------------------------------------------------------------------

  /** The list `json_response["data"]["data"]`, which the sanitiser pops
      slots from in place. */
  class Payload {
    var slots: seq<Slot>

    constructor (slots: seq<Slot>)
      ensures this.slots == slots
    {
      this.slots := slots;
    }
  }

  const MicrosPerMinute := 60 * 1000000

  /** A slot whose end lies strictly before the current UTC time. */
  predicate IsStale(s: Slot, utcMicros: int) {
    s.to * MicrosPerMinute < utcMicros
  }

  /** The series after the first slot is dropped when it is stale. */
  function DropStale(raw: seq<Slot>, utcMicros: int): (kept: seq<Slot>)
    requires raw != []
    ensures |kept| == |raw| - 1 <==> IsStale(raw[0], utcMicros)
    ensures |kept| == |raw| - 1 || |kept| == |raw|
    ensures kept == raw[|raw| - |kept|..]
  {
    if IsStale(raw[0], utcMicros) then raw[1..] else raw
  }

  /** How sanitising ends: with a usable series, with too few slots (the
      integration returns its error dictionary) or on an empty payload
      (reading `data[0]` raises `IndexError`). */
  datatype Trimmed = Usable(series: seq<Slot>) | TooShort | NoSlots

  /** The series the sanitiser leaves in its local `data`. */
  function Sanitised(raw: seq<Slot>, utcMicros: int): (t: Trimmed)
    ensures t.NoSlots? <==> raw == []
    ensures t.TooShort? <==> raw != [] && |DropStale(raw, utcMicros)| < MinSlots
    ensures t.Usable? ==>
      MinSlots <= |t.series| <= MaxSlots && |t.series| % 2 == 0 &&
      t.series <= DropStale(raw, utcMicros)
    ensures t.Usable? ==>
      |t.series| == MaxSlots || |t.series| + 1 >= |DropStale(raw, utcMicros)|
  {
    if raw == [] then NoSlots
    else
      var kept := DropStale(raw, utcMicros);
      var capped := if |kept| > MaxSlots then kept[..MaxSlots] else kept;
      if |capped| < MinSlots then TooShort
      else if |capped| % 2 == 1 then Usable(capped[..|capped| - 1])
      else Usable(capped)
  }

  /** The list the payload itself holds once sanitising is over: this is the
      series `json_to_df(json_response)` reads. Popping a slot shortens this
      list, but truncating to 96 slots only rebinds the local `data` to a
      copy, so the payload keeps every slot past the 96th. */
  function FedSeries(raw: seq<Slot>, utcMicros: int): (fed: seq<Slot>)
    ensures raw != [] && |DropStale(raw, utcMicros)| <= MaxSlots && Sanitised(raw, utcMicros).Usable? ==>
      fed == Sanitised(raw, utcMicros).series
    ensures raw != [] && |DropStale(raw, utcMicros)| > MaxSlots ==>
      fed == DropStale(raw, utcMicros)
    ensures Sanitised(raw, utcMicros).TooShort? ==> fed == DropStale(raw, utcMicros)
    ensures raw == [] ==> fed == []
  {
    if raw == [] then raw
    else
      var kept := DropStale(raw, utcMicros);
      if MinSlots <= |kept| <= MaxSlots && |kept| % 2 == 1 then kept[..|kept| - 1] else kept
  }

  /** The sanitising steps of `generate_response`, on the payload's own list.
      `data` starts as an alias of that list; the pops change both, the
      truncation makes `data` a copy. */
  method Sanitise(payload: Payload, utcMicros: int) returns (t: Trimmed)
    modifies payload
    ensures t == Sanitised(old(payload.slots), utcMicros)
    ensures payload.slots == FedSeries(old(payload.slots), utcMicros)
  {
    if |payload.slots| == 0 {
      return NoSlots;
    }
    if IsStale(payload.slots[0], utcMicros) {
      payload.slots := payload.slots[1..];
    }
    var data := payload.slots;
    var aliased := true;
    if |data| > MaxSlots {
      data := data[..MaxSlots];
      aliased := false;
    }
    if |data| < MinSlots {
      return TooShort;
    }
    if |data| % 2 == 1 {
      data := data[..|data| - 1];
      if aliased {
        payload.slots := data;
      }
    }
    return Usable(data);
  }

  // ---------------------------------------------------------------------
  // The forward-looking mean
  // ---------------------------------------------------------------------

  function Min(a: int, b: int): int {
    if a <= b then a else b
  }

  function Sum(s: seq<real>): real {
    if s == [] then 0.0 else s[0] + Sum(s[1..])
  }

  function Mean(s: seq<real>): real
    requires s != []
  {
    Sum(s) / |s| as real
  }

  /** The mean over the slots `[i, i + WindowSize)`, cut short at the end of the
      column (a rolling mean with a forward window and `min_periods=1`). */
  function ForwardMean(column: seq<real>, i: nat): real
    requires i < |column|
  {
    Mean(column[i..Min(i + WindowSize, |column|)])
  }

  /** The smoothed column, one forward mean per slot: wherever the whole
      window fits, the mean of the slot and the slot after it; at the last
      slot, whose window holds only itself, its own value. */
  function Smooth(column: seq<real>): (smoothed: seq<real>)
    ensures |smoothed| == |column|
    ensures forall i :: 0 <= i && i + WindowSize <= |column| ==>
      smoothed[i] == (column[i] + column[i + 1]) / 2.0
    ensures column != [] ==> smoothed[|column| - 1] == column[|column| - 1]
  {
    ForwardMeanValues(column);
    seq(|column|, i requires 0 <= i < |column| => ForwardMean(column, i))
  }

  lemma ForwardMeanValues(column: seq<real>)
    ensures forall i :: 0 <= i && i + WindowSize <= |column| ==>
      ForwardMean(column, i) == (column[i] + column[i + 1]) / 2.0
    ensures column != [] ==> ForwardMean(column, |column| - 1) == column[|column| - 1]
  {
    forall i | 0 <= i && i + WindowSize <= |column|
      ensures ForwardMean(column, i) == (column[i] + column[i + 1]) / 2.0
    {
      ForwardMeanFullWindow(column, i);
    }
    if column != [] {
      ForwardMeanLast(column);
    }
  }

  lemma {:induction false} SumOfConstant(s: seq<real>, c: real)
    requires forall i :: 0 <= i < |s| ==> s[i] == c
    ensures Sum(s) == |s| as real * c
  {
    if s != [] {
      SumOfConstant(s[1..], c);
    }
  }

  lemma {:induction false} SumOfPair(a: real, b: real)
    ensures Sum([a, b]) == a + b
  {
    assert [a, b][1..] == [b];
    assert [b][1..] == [];
    assert Sum([b]) == b;
  }

  lemma {:induction false} SumBounds(s: seq<real>, lo: real, hi: real)
    requires forall i :: 0 <= i < |s| ==> lo <= s[i] <= hi
    ensures |s| as real * lo <= Sum(s) <= |s| as real * hi
  {
    if s != [] {
      SumBounds(s[1..], lo, hi);
    }
  }

  /** A mean lies between any lower and upper bound of the values it averages. */
  lemma MeanBounds(s: seq<real>, lo: real, hi: real)
    requires s != []
    requires forall i :: 0 <= i < |s| ==> lo <= s[i] <= hi
    ensures lo <= Mean(s) <= hi
  {
    SumBounds(s, lo, hi);
    var n := |s| as real;
    var m := Mean(s);
    assert m * n == Sum(s);
    assert (m - lo) * n >= 0.0;
    assert (hi - m) * n >= 0.0;
  }

  /** Every smoothed value lies between the least and the greatest raw
      forecast of the slots its window covers. */
  lemma SmoothWithinWindow(column: seq<real>, i: nat, lo: real, hi: real)
    requires i < |column|
    requires forall j :: i <= j < i + WindowSize && j < |column| ==> lo <= column[j] <= hi
    ensures lo <= Smooth(column)[i] <= hi
  {
    var w := column[i..Min(i + WindowSize, |column|)];
    assert forall j :: 0 <= j < |w| ==> w[j] == column[i + j];
    MeanBounds(w, lo, hi);
  }

  /** A column of one repeated value is left unchanged by smoothing. */
  lemma SmoothConstant(column: seq<real>, c: real)
    requires forall i :: 0 <= i < |column| ==> column[i] == c
    ensures forall i :: 0 <= i < |column| ==> Smooth(column)[i] == c
  {
    forall i | 0 <= i < |column|
      ensures Smooth(column)[i] == c
    {
      var w := column[i..Min(i + WindowSize, |column|)];
      SumOfConstant(w, c);
    }
  }

  /** The last slot has a window of one and keeps its own value. */
  lemma ForwardMeanLast(column: seq<real>)
    requires column != []
    ensures ForwardMean(column, |column| - 1) == column[|column| - 1]
  {
    var n := |column|;
    assert column[n - 1..Min(n - 1 + WindowSize, n)] == [column[n - 1]];
    assert [column[n - 1]][1..] == [];
    assert Sum([column[n - 1]]) == column[n - 1];
  }

  /** Wherever the whole window fits, the smoothed value is the mean of the
      slot and the slot after it. */
  lemma ForwardMeanFullWindow(column: seq<real>, i: nat)
    requires i + WindowSize <= |column|
    ensures ForwardMean(column, i) == (column[i] + column[i + 1]) / 2.0
  {
    assert column[i..Min(i + WindowSize, |column|)] == [column[i], column[i + 1]];
    SumOfPair(column[i], column[i + 1]);
  }

  /** The raw forecast column of a series. */
  function Forecasts(series: seq<Slot>): (column: seq<real>)
    ensures |column| == |series|
  {
    seq(|series|, i requires 0 <= i < |series| => series[i].forecast as real)
  }

  /** The forecast column of the series after smoothing. */
  function SmoothedSeries(series: seq<Slot>): (smoothed: seq<real>)
    ensures |smoothed| == |series|
  {
    Smooth(Forecasts(series))
  }

  /** The forecast column of a dataframe. */
  function ForecastColumn(frame: seq<Row>): (column: seq<real>)
    ensures |column| == |frame|
  {
    seq(|frame|, i requires 0 <= i < |frame| => frame[i].forecast)
  }

  /** Line 66 of the client: the forecast column replaced by its forward
      mean, every other column left as it was. */
  function SmoothForecastColumn(frame: seq<Row>): (smoothed: seq<Row>)
    ensures |smoothed| == |frame|
    ensures forall i :: 0 <= i < |frame| ==>
      smoothed[i].from == frame[i].from && smoothed[i].to == frame[i].to &&
      smoothed[i].hour == frame[i].hour && smoothed[i].daysAhead == frame[i].daysAhead
    ensures ForecastColumn(smoothed) == Smooth(ForecastColumn(frame))
  {
    var column := Smooth(ForecastColumn(frame));
    var smoothed := seq(|frame|, i requires 0 <= i < |frame| => frame[i].(forecast := column[i]));
    assert ForecastColumn(smoothed) == column;
    smoothed
  }

  /** The dataframe the selection runs on. */
  function Frame(series: seq<Slot>, today: int): (frame: seq<Row>)
    ensures |frame| == |series|
    ensures forall i :: 0 <= i < |series| ==>
      frame[i].from == series[i].from &&
      frame[i].hour == Hour(series[i].from) &&
      frame[i].daysAhead == DaysAhead(series[i].from, today) &&
      frame[i].forecast == SmoothedSeries(series)[i]
  {
    var raw := ToFrame(series, today);
    assert ForecastColumn(raw) == Forecasts(series);
    var smoothed := SmoothForecastColumn(raw);
    assert forall i :: 0 <= i < |smoothed| ==> smoothed[i].forecast == ForecastColumn(smoothed)[i];
    smoothed
  }

  // ---------------------------------------------------------------------
  // The band and the two minimum searches
  // ---------------------------------------------------------------------

  /** A start time whose run still ends inside the off-peak band. */
  predicate InBand(hour: real) {
    StartTime <= hour < EndTime - RunLength as real
  }

  /** The band is the minutes 90 to 329 of the day (01:30 to 05:29). */
  lemma InBandIff(t: int)
    ensures InBand(Hour(t)) <==> 90 <= MinuteOfDay(t) < 330
  {
  }

  /** A slot may be chosen for the 48-hour horizon when it starts in the
      band, and for the 24-hour horizon when it is also at most one
      calendar day ahead. */
  predicate Eligible(s: Slot, today: int, within24: bool) {
    InBand(Hour(s.from)) && (within24 ==> DaysAhead(s.from, today) < 2)
  }

  /** `off_peak`: the rows whose hour lies in the band. */
  function OffPeak(frame: seq<Row>): (rows: seq<Row>)
    ensures forall row :: row in rows <==> row in frame && InBand(row.hour)
  {
    if frame == [] then []
    else
      assert frame == [frame[0]] + frame[1..];
      (if InBand(frame[0].hour) then [frame[0]] else []) + OffPeak(frame[1..])
  }

  /** The rows at most one calendar day ahead. */
  function NextDay(frame: seq<Row>): (rows: seq<Row>)
    ensures forall row :: row in rows <==> row in frame && row.daysAhead < 2
  {
    if frame == [] then []
    else
      assert frame == [frame[0]] + frame[1..];
      (if frame[0].daysAhead < 2 then [frame[0]] else []) + NextDay(frame[1..])
  }

  /** `sort_values('intensity.forecast').head(1)`: a row of least smoothed
      intensity. The sort is not stable, so only membership and minimality
      are promised; this model takes the first such row. */
  function Lowest(rows: seq<Row>): (best: Option<Row>)
    ensures best.None? <==> rows == []
    ensures best.Some? ==> best.value in rows
    ensures best.Some? ==> forall row :: row in rows ==> best.value.forecast <= row.forecast
  {
    if rows == [] then None
    else
      assert rows == [rows[0]] + rows[1..];
      match Lowest(rows[1..])
      case None => Some(rows[0])
      case Some(rest) => if rest.forecast < rows[0].forecast then Some(rest) else Some(rows[0])
  }

  /** The rows a horizon selects from: `off_peak`, restricted to
      `days_ahead < 2` for the 24-hour horizon. */
  function Candidates(frame: seq<Row>, within24: bool): (rows: seq<Row>)
    ensures forall row :: row in rows <==>
      row in frame && InBand(row.hour) && (within24 ==> row.daysAhead < 2)
  {
    if within24 then NextDay(OffPeak(frame)) else OffPeak(frame)
  }

  /** A row of the frame survives the filters of a horizon exactly when its
      slot is eligible for that horizon, and every surviving row is one. */
  lemma CandidatesAreEligible(series: seq<Slot>, today: int, within24: bool)
    ensures forall i :: 0 <= i < |series| ==>
      (Frame(series, today)[i] in Candidates(Frame(series, today), within24) <==> Eligible(series[i], today, within24))
    ensures forall row :: row in Candidates(Frame(series, today), within24) ==>
      exists i :: 0 <= i < |series| && Frame(series, today)[i] == row && Eligible(series[i], today, within24)
  {
  }

  /** The saving against the current slot, in percent. Dividing by a zero
      current intensity gives no number (numpy's inf or nan). */
  function Saving(current: real, optimal: real): (saving: Option<real>)
    ensures saving.None? <==> current == 0.0
    ensures saving.Some? ==> saving.value * current == (current - optimal) * 100.0
  {
    if current == 0.0 then None
    else
      var ratio := (current - optimal) / current;
      assert ratio * current == current - optimal;
      Some(ratio * 100.0)
  }

  /** With a positive current intensity a lower optimum saves at least as much. */
  lemma SavingOrder(current: real, lower: real, higher: real)
    requires current > 0.0 && lower <= higher
    ensures Saving(current, lower).value >= Saving(current, higher).value
  {
    var s1, s2 := Saving(current, lower).value, Saving(current, higher).value;
    assert (s1 - s2) * current == (higher - lower) * 100.0;
  }

  // ---------------------------------------------------------------------
  // Assembling the response
  // ---------------------------------------------------------------------

  /** The selection and assembly steps of `generate_response` on the series
      `json_to_df` reads. */
  function Respond(series: seq<Slot>, clock: Clock): (r: Result<Response, Exception>)
    ensures r.Success? ==> r.value.Report? && series != []
    ensures r.Success? ==> r.value.currentCo2 == SmoothedSeries(series)[0]
    ensures r.Success? ==> GetIndex(r.value.currentCo2, clock.year) == Some(r.value.currentIndex)
    ensures r.Success? ==> r.value.next48.co2 <= r.value.next24.co2
    ensures r.Success? ==> (r.value.currentCo2 == 0.0 <==> r.value.next24Saving.None? || r.value.next48Saving.None?)
    ensures r.Success? ==>
      r.value.next24Saving == Saving(r.value.currentCo2, r.value.next24.co2) &&
      r.value.next48Saving == Saving(r.value.currentCo2, r.value.next48.co2)
    ensures r.Success? && r.value.currentCo2 > 0.0 ==> r.value.next48Saving.value >= r.value.next24Saving.value
  {
    if series == [] then Failure(IndexError)
    else
      var frame := Frame(series, clock.localDay);
      var current := frame[0].forecast;
      match Lowest(Candidates(frame, true))
      case None => Failure(IndexError)
      case Some(best24) =>
        match Lowest(Candidates(frame, false))
        case None => Failure(IndexError)
        case Some(best48) =>
          match GetIndex(current, clock.year)
          case None => Failure(KeyError(clock.year))
          case Some(index) =>
            assert best24 in Candidates(frame, false);
            SavingOrder(if current > 0.0 then current else 1.0, best48.forecast, best24.forecast);
            Success(Report(current, index,
                           Window(best24.from, best24.forecast), Saving(current, best24.forecast),
                           Window(best48.from, best48.forecast), Saving(current, best48.forecast)))
  }

  /** `Respond` raises `IndexError` exactly when no slot is eligible for the
      24-hour horizon (the empty selection read at line 81), and `KeyError`
      exactly when there is one but the year has no thresholds. */
  lemma RespondFailsIff(series: seq<Slot>, clock: Clock)
    ensures Respond(series, clock) == Failure(IndexError) <==>
      !exists i :: 0 <= i < |series| && Eligible(series[i], clock.localDay, true)
    ensures Respond(series, clock) == Failure(KeyError(clock.year)) <==>
      (exists i :: 0 <= i < |series| && Eligible(series[i], clock.localDay, true)) &&
      !(FirstYear <= clock.year <= LastYear)
    ensures Respond(series, clock).Failure? ==>
      Respond(series, clock) == Failure(IndexError) || Respond(series, clock) == Failure(KeyError(clock.year))
  {
    RespondByCandidates(series, clock);
    HasCandidateIff(series, clock.localDay, true);
  }

  /** How `Respond` fails, read off the 24-hour selection of its frame. */
  lemma RespondByCandidates(series: seq<Slot>, clock: Clock)
    ensures Respond(series, clock) == Failure(IndexError) <==>
      series == [] || Candidates(Frame(series, clock.localDay), true) == []
    ensures Respond(series, clock) == Failure(KeyError(clock.year)) <==>
      series != [] && Candidates(Frame(series, clock.localDay), true) != [] &&
      !(FirstYear <= clock.year <= LastYear)
    ensures Respond(series, clock).Failure? ==>
      Respond(series, clock) == Failure(IndexError) || Respond(series, clock) == Failure(KeyError(clock.year))
  {
    if series != [] {
      NextDayInWider(Frame(series, clock.localDay));
    }
  }

  /** Some slot is eligible exactly when the filtered frame has a row. */
  lemma HasCandidateIff(series: seq<Slot>, today: int, within24: bool)
    ensures Candidates(Frame(series, today), within24) != [] <==>
      exists i :: 0 <= i < |series| && Eligible(series[i], today, within24)
    ensures Candidates(Frame(series, today), true) != [] ==> Candidates(Frame(series, today), false) != []
  {
    if exists i :: 0 <= i < |series| && Eligible(series[i], today, within24) {
      var i :| 0 <= i < |series| && Eligible(series[i], today, within24);
      CandidateOfEligible(series, today, within24, i);
    }
    var rows := Candidates(Frame(series, today), within24);
    if rows != [] {
      EligibleOfCandidate(series, today, within24, rows[0]);
    }
    NextDayInWider(Frame(series, today));
  }

  /** Every 24-hour candidate is a 48-hour candidate. */
  lemma NextDayInWider(frame: seq<Row>)
    ensures Candidates(frame, true) != [] ==> Candidates(frame, false) != []
  {
    if Candidates(frame, true) != [] {
      assert Candidates(frame, true)[0] in Candidates(frame, false);
    }
  }

  lemma CandidateOfEligible(series: seq<Slot>, today: int, within24: bool, i: nat)
    requires i < |series| && Eligible(series[i], today, within24)
    ensures Frame(series, today)[i] in Candidates(Frame(series, today), within24)
  {
    var frame := Frame(series, today);
    assert frame[i] in frame;
  }

  lemma EligibleOfCandidate(series: seq<Slot>, today: int, within24: bool, row: Row)
    requires row in Candidates(Frame(series, today), within24)
    ensures exists i :: 0 <= i < |series| && Frame(series, today)[i] == row && Eligible(series[i], today, within24)
  {
    var frame := Frame(series, today);
    assert row in frame;
    var i :| 0 <= i < |frame| && frame[i] == row;
    assert Eligible(series[i], today, within24);
  }

  /** A chosen window is an eligible slot's start and smoothed intensity, and
      no eligible slot has a lower smoothed intensity. */
  predicate Optimal(series: seq<Slot>, today: int, w: Window, within24: bool) {
    (exists i :: 0 <= i < |series| && Eligible(series[i], today, within24) &&
                 series[i].from == w.start && SmoothedSeries(series)[i] == w.co2) &&
    (forall i :: 0 <= i < |series| && Eligible(series[i], today, within24) ==>
                 w.co2 <= SmoothedSeries(series)[i])
  }

  lemma SelectionOptimal(series: seq<Slot>, today: int, within24: bool)
    requires Lowest(Candidates(Frame(series, today), within24)).Some?
    ensures var best := Lowest(Candidates(Frame(series, today), within24)).value;
      Optimal(series, today, Window(best.from, best.forecast), within24)
  {
    var frame := Frame(series, today);
    var best := Lowest(Candidates(frame, within24)).value;
    EligibleOfCandidate(series, today, within24, best);
    forall i | 0 <= i < |series| && Eligible(series[i], today, within24)
      ensures best.forecast <= SmoothedSeries(series)[i]
    {
      CandidateOfEligible(series, today, within24, i);
    }
  }

  /** The 24-hour window is optimal among the slots at most a day ahead,
      the 48-hour window among all slots in the band. */
  lemma RespondOptimal(series: seq<Slot>, clock: Clock)
    requires Respond(series, clock).Success?
    ensures Optimal(series, clock.localDay, Respond(series, clock).value.next24, true)
    ensures Optimal(series, clock.localDay, Respond(series, clock).value.next48, false)
  {
    SelectionOptimal(series, clock.localDay, true);
    SelectionOptimal(series, clock.localDay, false);
  }

  /** `generate_response` as written, on the payload's list before sanitising:
      the selection runs on `FedSeries`, the list the payload holds
      afterwards, not on the truncated `data`. */
  function ResponseFor(raw: seq<Slot>, clock: Clock): (r: Result<Response, Exception>)
    ensures raw == [] ==> r == Failure(IndexError)
    ensures r == Success(MalformedData) <==> raw != [] && |DropStale(raw, clock.utcMicros)| < MinSlots
    ensures Sanitised(raw, clock.utcMicros).Usable? ==>
      MinSlots <= |FedSeries(raw, clock.utcMicros)| &&
      Sanitised(raw, clock.utcMicros).series <= FedSeries(raw, clock.utcMicros) &&
      r == Respond(FedSeries(raw, clock.utcMicros), clock)
  {
    match Sanitised(raw, clock.utcMicros)
    case NoSlots => Failure(IndexError)
    case TooShort => Success(MalformedData)
    case Usable(_) => Respond(FedSeries(raw, clock.utcMicros), clock)
  }

  /** `generate_response` with the selection run on the sanitised series, as
      the truncation to 96 slots evidently intends: both windows start at
      one of the first 96 slots still ahead. */
  function ResponseIntended(raw: seq<Slot>, clock: Clock): (r: Result<Response, Exception>)
    ensures raw == [] ==> r == Failure(IndexError)
    ensures r == Success(MalformedData) <==> raw != [] && |DropStale(raw, clock.utcMicros)| < MinSlots
    ensures r.Success? && r.value.Report? ==> raw != []
    ensures r.Success? && r.value.Report? ==>
      exists i :: 0 <= i < MaxSlots && i < |DropStale(raw, clock.utcMicros)| &&
                  DropStale(raw, clock.utcMicros)[i].from == r.value.next24.start
    ensures r.Success? && r.value.Report? ==>
      exists i :: 0 <= i < MaxSlots && i < |DropStale(raw, clock.utcMicros)| &&
                  DropStale(raw, clock.utcMicros)[i].from == r.value.next48.start
  {
    match Sanitised(raw, clock.utcMicros)
    case NoSlots => Failure(IndexError)
    case TooShort => Success(MalformedData)
    case Usable(series) =>
      var r := Respond(series, clock);
      if r.Success? then
        RespondOptimal(series, clock);
        r
      else r
  }

  /** `generate_response`: sanitises the payload's list in place, then
      builds the dataframe from that list (`json_to_df(json_response)`),
      which never saw the truncation. */
  method GenerateResponse(payload: Payload, clock: Clock) returns (r: Result<Response, Exception>)
    modifies payload
    ensures payload.slots == FedSeries(old(payload.slots), clock.utcMicros)
    ensures r == ResponseFor(old(payload.slots), clock)
  {
    var trimmed := Sanitise(payload, clock.utcMicros);
    match trimmed {
      case NoSlots =>
        r := Failure(IndexError);
      case TooShort =>
        r := Success(MalformedData);
      case Usable(_) =>
        r := Respond(payload.slots, clock);
    }
  }

  // ---------------------------------------------------------------------
  // The payload longer than 96 slots
  // ---------------------------------------------------------------------

  /** 98 fresh slots from 01:30 on day 0, all at 100 except the 97th, which
      starts at 01:30 on day 2 and reads 0. */
  function PastCapPayload(): seq<Slot> {
    seq(98, k => Slot(90 + 30 * k, 120 + 30 * k, if k == 96 then 0 else 100))
  }

  lemma PastCapFed()
    ensures Sanitised(PastCapPayload(), 0).Usable?
    ensures FedSeries(PastCapPayload(), 0) == PastCapPayload()
    ensures DropStale(PastCapPayload(), 0) == PastCapPayload()
  {
  }

  lemma PastCapSmoothed()
    ensures |SmoothedSeries(PastCapPayload())| == 98
    ensures forall i :: 0 <= i < 95 ==> SmoothedSeries(PastCapPayload())[i] == 100.0
    ensures SmoothedSeries(PastCapPayload())[96] == 50.0
    ensures SmoothedSeries(PastCapPayload())[97] == 100.0
  {
    var column := Forecasts(PastCapPayload());
    forall i | 0 <= i < 95
      ensures Smooth(column)[i] == 100.0
    {
      assert Smooth(column)[i] == (column[i] + column[i + 1]) / 2.0;
    }
    assert Smooth(column)[96] == (column[96] + column[97]) / 2.0;
  }

  lemma PastCapBand()
    ensures Eligible(PastCapPayload()[0], 0, true)
    ensures !Eligible(PastCapPayload()[95], 0, false)
    ensures Eligible(PastCapPayload()[96], 0, false)
    ensures DaysAhead(PastCapPayload()[96].from, 0) == 2
  {
    InBandIff(PastCapPayload()[0].from);
    InBandIff(PastCapPayload()[95].from);
    InBandIff(PastCapPayload()[96].from);
  }

  /** A 48-hour selection forced onto one slot: every other slot in the band
      has a higher smoothed intensity. */
  lemma ForcedChoice(series: seq<Slot>, clock: Clock, k: nat)
    requires Respond(series, clock).Success?
    requires k < |series| && Eligible(series[k], clock.localDay, false)
    requires forall i :: 0 <= i < |series| && i != k && Eligible(series[i], clock.localDay, false) ==>
      SmoothedSeries(series)[k] < SmoothedSeries(series)[i]
    ensures Respond(series, clock).value.next48 == Window(series[k].from, SmoothedSeries(series)[k])
  {
    RespondOptimal(series, clock);
  }

  /** In a 98-slot series whose smoothed values are those of the payload
      above, slot 96 is the only slot of least smoothed intensity in the band. */
  lemma PastCapUniqueMinimum(raw: seq<Slot>, today: int)
    requires |raw| == 98
    requires forall i :: 0 <= i < 95 ==> SmoothedSeries(raw)[i] == 100.0
    requires !Eligible(raw[95], today, false)
    requires SmoothedSeries(raw)[96] == 50.0 && SmoothedSeries(raw)[97] == 100.0
    ensures forall i :: 0 <= i < |raw| && i != 96 && Eligible(raw[i], today, false) ==>
      SmoothedSeries(raw)[96] < SmoothedSeries(raw)[i]
  {
  }

  /** The selection on that payload, read off the optimality of `Respond`. */
  lemma PastCapRespond()
    ensures Respond(PastCapPayload(), Clock(0, 0, 2026)).Success?
    ensures Respond(PastCapPayload(), Clock(0, 0, 2026)).value.next48.start == 90 + 30 * 96
  {
    var raw := PastCapPayload();
    var clock := Clock(0, 0, 2026);
    PastCapBand();
    RespondFailsIff(raw, clock);
    PastCapSmoothed();
    PastCapUniqueMinimum(raw, 0);
    ForcedChoice(raw, clock, 96);
  }

  /** The intended response only picks among the first 96 slots ahead. */
  lemma IntendedStartsBefore(raw: seq<Slot>, clock: Clock, limit: int)
    requires raw != [] && DropStale(raw, clock.utcMicros) == raw
    requires forall i :: 0 <= i < MaxSlots && i < |raw| ==> raw[i].from < limit
    ensures ResponseIntended(raw, clock).Success? && ResponseIntended(raw, clock).value.Report? ==>
      ResponseIntended(raw, clock).value.next48.start < limit
  {
  }

  /** The first 96 slots of the payload still hold an eligible 24-hour slot. */
  lemma PastCapIntendedSucceeds()
    ensures Respond(PastCapPayload()[..MaxSlots], Clock(0, 0, 2026)).Success?
  {
    var capped := PastCapPayload()[..MaxSlots];
    PastCapBand();
    assert capped[0] == PastCapPayload()[0];
    RespondFailsIff(capped, Clock(0, 0, 2026));
  }

  lemma PastCapStarts()
    ensures forall i :: 0 <= i < MaxSlots && i < |PastCapPayload()| ==> PastCapPayload()[i].from < 90 + 30 * 96
  {
  }

  /** On that payload the code as written picks the slot on day 2 (past the
      48-hour cap) as its 48-hour window. */
  lemma PastCapWindow()
    ensures ResponseFor(PastCapPayload(), Clock(0, 0, 2026)).Success?
    ensures ResponseFor(PastCapPayload(), Clock(0, 0, 2026)).value.next48.start == 90 + 30 * 96
    ensures DaysAhead(90 + 30 * 96, 0) == 2
  {
    PastCapFed();
    PastCapRespond();
    ResponseForUntrimmed(PastCapPayload(), Clock(0, 0, 2026));
  }

  /** When the payload keeps its whole list, the response is `Respond` on it. */
  lemma ResponseForUntrimmed(raw: seq<Slot>, clock: Clock)
    requires Sanitised(raw, clock.utcMicros).Usable? && FedSeries(raw, clock.utcMicros) == raw
    ensures ResponseFor(raw, clock) == Respond(raw, clock)
  {
  }

  /** The intended response succeeds on that payload and cannot pick that slot. */
  lemma PastCapIntended()
    ensures ResponseIntended(PastCapPayload(), Clock(0, 0, 2026)).Success?
    ensures ResponseIntended(PastCapPayload(), Clock(0, 0, 2026)).Success? &&
            ResponseIntended(PastCapPayload(), Clock(0, 0, 2026)).value.Report? ==>
      ResponseIntended(PastCapPayload(), Clock(0, 0, 2026)).value.next48.start != 90 + 30 * 96
  {
    PastCapFed();
    PastCapIntendedSucceeds();
    PastCapStarts();
    IntendedStartsBefore(PastCapPayload(), Clock(0, 0, 2026), 90 + 30 * 96);
  }
}
