# Octopus Go Scheduler: carbon-intensity window selection

This is a Dafny model of the decision logic of the Octopus Go Scheduler Home Assistant integration.
The integration reads a half-hourly regional carbon-intensity forecast. It reports the current
intensity and its category ("very low" … "very high"). For a one-hour load that should start in the
early-morning band (01:30–05:30 UTC, since the hour of day is read from the UTC `from` time), it also
reports two start slots, each with its saving against now. Each is the band slot whose one-hour forward
mean (the mean of the slot and the next one) is lowest. The first is chosen among band slots dated today
or tomorrow, so it may lie more than 24 hours ahead. The second is chosen among all band slots of the
payload's list, which can reach beyond 48 hours (see Findings).

The model covers `generate_response` in `client.py` and these parts of `utils.py`: `get_index`, its
threshold table, and the `hour` and `days_ahead` columns of `json_to_df`.

- `results.dfy` (module `Results`): the `Option` and `Result` values used for missing numbers and raised exceptions.
- `utils.dfy` (module `Utils`):
  - the parsed forecast slot (`Slot`) and the dataframe row (`Row`);
  - `Hour`, `DaysAhead` and `ToFrame`;
  - the categories (`Label`), the year-keyed `Thresholds` and `GetIndex`.
- `client.dfy` (module `Client`):
  - the payload list as a class whose `slots` the sanitiser pops in place (`Payload`, `Sanitise`), with the functions that specify it (`DropStale`, `Sanitised`, `FedSeries`);
  - the forward-looking mean (`Smooth`);
  - the band and day filters (`OffPeak`, `NextDay`);
  - the minimum search (`Lowest`) and the saving (`Saving`);
  - the assembled response (`Respond`, `ResponseFor`, `GenerateResponse`).

Conventions:
- Timestamps are whole minutes since 1970-01-01T00:00 UTC, already parsed.
- The evaluation time is an explicit `Clock` with three parts:
  - the UTC time in microseconds, used by the strict stale test;
  - the local calendar day, used by `days_ahead`;
  - the local year, used by `get_index`.
- Raw intensities are integers. Smoothed values and savings are reals.
- Where the code raises, the model returns `Failure(IndexError)` or `Failure(KeyError(year))`. Where it returns `{"error": "malformed data"}`, the model returns `Success(MalformedData)`.

Behaviour the model takes from the code, where a reader might expect otherwise:
- `current_co2` is the smoothed value of slot 0, not the raw reading. Line 66 of `client.py` overwrites the forecast column before line 77 reads it.
- An empty 24-hour or 48-hour selection raises `IndexError` at `client.py:81` or `client.py:85`. It does not yield an absent field.
- A zero current intensity does not raise. numpy yields inf or nan, which the model represents as `None`.
- An empty payload raises `IndexError` at `data[0]` (`client.py:51`).
- Ties between equal minima are not broken stably: pandas' default sort is not stable. `Lowest` takes the first minimum, but every property is stated as membership plus minimality only.
- The dataframe is built from the payload's own list, which never sees the truncation to 96 slots (see Findings).

## Model

| member | source | states |
|---|---|---|
| `Client.Payload.constructor` | custom_components/octopus_go_scheduler/client.py:42 | the payload object holds exactly the given list of slots |
| `Client.DropStale` | custom_components/octopus_go_scheduler/client.py:51-52 | the first slot is removed exactly when its `to` time is strictly before now; otherwise the series is unchanged |
| `Client.Sanitised` | custom_components/octopus_go_scheduler/client.py:50-58 | empty payload, too-short and usable outcomes; too short exactly when fewer than 48 slots remain after the stale drop; a usable series has even length in [48, 96], is a prefix of the series after the stale drop, and only the 96-slot cap or one odd slot is cut |
| `Client.FedSeries` | custom_components/octopus_go_scheduler/client.py:52-61 | the list `json_to_df` reads: without truncation it is the sanitised series, with more than 96 fresh slots it is the whole untruncated series; on the too-short error path it has still lost its stale first slot; an empty payload stays empty |
| `Client.Sanitise` | custom_components/octopus_go_scheduler/client.py:50-58 | the in-place sanitiser returns `Sanitised` of the old payload and leaves the payload holding `FedSeries` (pops reach it, the truncating copy does not) |
| `Client.SumOfConstant` | custom_components/octopus_go_scheduler/client.py:65-66 | the sum of n copies of c is n·c (used for constant series) |
| `Client.SumBounds` | custom_components/octopus_go_scheduler/client.py:65-66 | a sum of n values within [lo, hi] lies within [n·lo, n·hi] |
| `Client.MeanBounds` | custom_components/octopus_go_scheduler/client.py:66 | a mean lies between any bounds of the values it averages |
| `Client.SmoothWithinWindow` | custom_components/octopus_go_scheduler/client.py:65-66 | each smoothed value lies between the least and greatest raw forecast of the slots `[i, i+2)` clipped to the series end |
| `Client.SmoothConstant` | custom_components/octopus_go_scheduler/client.py:65-66 | a constant forecast column stays constant after the forward mean |
| `Client.Smooth` | custom_components/octopus_go_scheduler/client.py:65-66 | one smoothed value per slot: the average of the slot and the next one wherever the two-slot window fits, and the raw value at the last slot, whose window holds only itself (`min_periods=1`) |
| `Client.ForwardMeanFullWindow` | custom_components/octopus_go_scheduler/client.py:65-66 | where the two-slot window fits, the forward mean is the average of the slot and the next one |
| `Client.ForwardMeanLast` | custom_components/octopus_go_scheduler/client.py:65-66 | the last slot's forward mean is its raw value |
| `Client.SmoothForecastColumn` | custom_components/octopus_go_scheduler/client.py:66 | the assignment replaces only the forecast column, by its smoothed values; `from`, `to`, `hour` and `days_ahead` are unchanged |
| `Client.Frame` | custom_components/octopus_go_scheduler/client.py:61-66 | each row of the dataframe carries its slot's start, hour of day, days ahead and smoothed forecast |
| `Client.Candidates` | custom_components/octopus_go_scheduler/client.py:69-72 | a row is selected for a horizon exactly when it is in the frame, its hour lies in the band and, for 24 hours, its `days_ahead` is below 2 |
| `Client.InBandIff` | custom_components/octopus_go_scheduler/client.py:46-48 | `1.5 <= hour < 6.5 - 1` holds exactly for minutes 90 to 329 of the day |
| `Client.OffPeak` | custom_components/octopus_go_scheduler/client.py:69 | a row is in `off_peak` if and only if it is in the frame and its hour lies in the band |
| `Client.NextDay` | custom_components/octopus_go_scheduler/client.py:72 | a row survives the 24-hour filter if and only if its `days_ahead` is below 2 |
| `Client.Lowest` | custom_components/octopus_go_scheduler/client.py:72-73 | no row exactly for an empty selection; otherwise a member of the selection whose smoothed intensity is at most every member's |
| `Client.CandidatesAreEligible` | custom_components/octopus_go_scheduler/client.py:69-73 | a frame row survives a horizon's filters exactly when its slot is eligible for that horizon |
| `Client.HasCandidateIff` | custom_components/octopus_go_scheduler/client.py:72-73 | a horizon's selection is non-empty exactly when some slot is eligible; a non-empty 24-hour selection makes the 48-hour one non-empty |
| `Client.SelectionOptimal` | custom_components/octopus_go_scheduler/client.py:72-73 | the chosen row is an eligible slot's start and smoothed intensity, at most that of every eligible slot |
| `Client.Saving` | custom_components/octopus_go_scheduler/client.py:82 | no number exactly when the current intensity is zero; otherwise saving · current = (current − optimal) · 100 |
| `Client.SavingOrder` | custom_components/octopus_go_scheduler/client.py:82-86 | with a positive current intensity, a lower optimum gives at least as large a saving |
| `Client.Respond` | custom_components/octopus_go_scheduler/client.py:61-100 | on success a report whose `current_co2` is slot 0's smoothed value, whose category is `get_index` of it, whose 48-hour intensity is at most the 24-hour one, whose savings are `Saving(current_co2, window intensity)` for each window, hence undefined exactly when `current_co2` is zero, and whose 48-hour saving is at least the 24-hour one when `current_co2` is positive |
| `Client.RespondFailsIff` | custom_components/octopus_go_scheduler/client.py:76-91 | `IndexError` exactly when no slot is eligible for 24 hours; `KeyError` exactly when one is but the year is outside the table; no other failure |
| `Client.RespondByCandidates` | custom_components/octopus_go_scheduler/client.py:72-91 | `IndexError` exactly when the series or its 24-hour selection is empty; `KeyError` exactly when that selection is non-empty and the year is outside the table; no other failure |
| `Client.RespondOptimal` | custom_components/octopus_go_scheduler/client.py:72-86 | the 24-hour window is optimal among band slots with `days_ahead < 2`, the 48-hour window among all band slots |
| `Client.ResponseFor` | custom_components/octopus_go_scheduler/client.py:40-100 | empty payload raises; the result is exactly the error dictionary when fewer than 48 slots remain after the stale drop; otherwise the selection runs on `FedSeries`, which extends the sanitised series |
| `Client.GenerateResponse` | custom_components/octopus_go_scheduler/client.py:40-100 | the method returns `ResponseFor` of the old payload and leaves the payload as `FedSeries` |
| `Client.ResponseIntended` | custom_components/octopus_go_scheduler/client.py:53-61 | with the selection on the sanitised series, both windows start at one of the first 96 slots still ahead |
| `Client.ForcedChoice` | custom_components/octopus_go_scheduler/client.py:73 | a band slot strictly below every other band slot is the 48-hour window |
| `Client.PastCapWindow` | custom_components/octopus_go_scheduler/client.py:54-61 | on 98 fresh slots the code as written picks the 97th slot, two calendar days ahead, as the 48-hour window |
| `Client.PastCapIntendedSucceeds` | custom_components/octopus_go_scheduler/client.py:53-58 | the selection on the 96 sanitised slots of that payload succeeds |
| `Client.PastCapIntended` | custom_components/octopus_go_scheduler/client.py:54-61 | on the same payload the intended response succeeds and cannot pick that slot |
| `Utils.MinuteOfDay` | custom_components/octopus_go_scheduler/utils.py:18 | minutes since midnight lie in [0, 1440) and differ from the timestamp by whole days |
| `Utils.Hour` | custom_components/octopus_go_scheduler/utils.py:18 | `hour + minute/60` lies in [0, 24) and is the minute of the day divided by 60 |
| `Utils.DaysAhead` | custom_components/octopus_go_scheduler/utils.py:20 | the timestamp falls within calendar day `today + days_ahead` |
| `Utils.DaysAheadIff` | custom_components/octopus_go_scheduler/utils.py:20 | `days_ahead` is d exactly when the timestamp falls within calendar day `today + d` (0 today, 1 tomorrow) |
| `Utils.ToFrame` | custom_components/octopus_go_scheduler/utils.py:15-20 | one row per slot with its times, the forecast as a real, an hour of day in [0, 24) and its days ahead |
| `Utils.Label.Name` | custom_components/octopus_go_scheduler/utils.py:68-77 | the category string is one of "very low", "low", "moderate", "high", "very high" |
| `Utils.Label.Rank` | custom_components/octopus_go_scheduler/const.py:31-37 | the `INTENSITY` rank lies in 0..4 |
| `Utils.RankIsIntensityOfName` | custom_components/octopus_go_scheduler/const.py:31-37 | each category's rank is the `INTENSITY` entry of its name |
| `Utils.RankAndNameIdentify` | custom_components/octopus_go_scheduler/const.py:31-37 | rank and name each identify the category |
| `Utils.Thresholds` | custom_components/octopus_go_scheduler/utils.py:53-66 | an entry exists exactly for 2021–2030, with four positive, strictly ascending thresholds |
| `Utils.ThresholdsAreLinear` | custom_components/octopus_go_scheduler/utils.py:53-64 | the table equals 50−5d, 140−10d, 220−10d, 330−20d for d = year − 2021 |
| `Utils.ThresholdsFall` | custom_components/octopus_go_scheduler/utils.py:54-63 | every threshold column falls, not necessarily strictly, from year to year |
| `Utils.GetIndex` | custom_components/octopus_go_scheduler/utils.py:66-77 | a category exactly for a year in the table (else the lookup raises `KeyError`) |
| `Utils.GetIndexIff` | custom_components/octopus_go_scheduler/utils.py:68-77 | the category is the one whose half-open threshold interval holds the intensity, in both directions |
| `Utils.GetIndexAtThreshold` | custom_components/octopus_go_scheduler/utils.py:68-77 | comparisons are strict: at threshold k the category has rank k+1, just below it rank k |
| `Utils.GetIndexMonotone` | custom_components/octopus_go_scheduler/utils.py:68-77 | for a fixed year a higher intensity never gets a lower rank |
| `Utils.GetIndexRisesByYear` | custom_components/octopus_go_scheduler/utils.py:53-77 | for a fixed intensity a later year never gives a lower rank |

## Left out

- Fetching the forecast over HTTP (`Client`, `async_raw_get_data`, `async_get_data`) is not modelled. It is network I/O.
- Wall-clock reads (`utcnow()`, `now()`, the current year) are not modelled. They are the fields of the `Clock` parameter. The model does not check that `localDay` and `year` agree with the calendar.
- Parsing the `%Y-%m-%dT%H:%MZ` timestamps is not modelled. Slots carry parsed minutes.
- The generation-mix pivot of `json_to_df` is not modelled, because no decision reads it.
- The `hours_ahead` column is not modelled, because it is never read.
- The `target` and `postcode` values are not modelled, because they are unused.
- Logging is not modelled.
- `format_datetimes_for_ha` is not modelled. It wraps the chosen start in a one-element list of minute-truncated UTC datetimes. The model keeps the start minute of each window.
- The 48-hour start time is returned under the misspelt key `optimal_offpeak_nxext_48_time` (`client.py:95`). `Report.next48` names the field by meaning, so the key's spelling is not reproduced.
- Client.Saving: computes the exact ratio `(current − optimal) / current · 100`. It omits the binary-float `round(…, 2)`, so the model's saving is not quantised to whole percent.
- Utils.Hour: is exact real arithmetic. The source computes `minute/60` in binary floating point. The band comparisons against 1.5 and 5.5 still come out the same. Both bounds are hit exactly, at minutes 90 and 330 (`1 + 30/60` and `5 + 30/60` are exact in binary). Every other minute of the day lies at least 1/60 hour from either bound, far beyond the rounding error of `minute/60`.
- Client.Lowest: takes the first minimum. The source's unstable sort may return any minimum, so no property depends on which one is taken.
- Four runtime defects of the source are not reproduced, so their failures are not modelled:
  - `pd` is used in `client.py` without being imported;
  - `timezone` is not imported in `utils.py`;
  - `datetime.now()` is called on the `datetime` module in `utils.py`;
  - `format_datetimes_for_ha` calls `datetime.strptime` on the module bound by `import datetime` (`utils.py:3`, `utils.py:44`), which raises `AttributeError`.

  The model gives the evidently intended semantics instead.

## Findings

| source | as written | input that shows it | evidently intended | confidence | as-written member | corrected member |
|---|---|---|---|---|---|---|
| custom_components/octopus_go_scheduler/client.py:54-61 | `data = data[0:96]` rebinds `data` to a copy, and `json_to_df(json_response)` reads the untruncated payload list. Beyond 96 fresh slots, the 48-hour search looks past 48 hours | 98 fresh slots from 01:30 on day 0, all 100 except the 97th slot (01:30 on day 2) at 0; clock at day 0, year 2026. The 48-hour window starts at 01:30 on day 2 | the selection runs on the sanitised series, so both windows start among the first 96 slots still ahead | medium (not executed) | `Client.PastCapWindow` | `Client.ResponseIntended` |
