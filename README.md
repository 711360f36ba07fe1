# Weather-market data logger, modelled in Dafny

`data_logger.py` collects, for one of seven cities and for today or
tomorrow, values from two sources: a single-model and an ensemble
temperature forecast for the daily high and the daily low, and the implied
prices of the prediction-market contracts that settle on that day. It
combines them into one observation record and appends the record to a JSON
log. An hour-indexed schedule table decides which cities are collected at
which hour of the reference clock. This project models that pipeline. The
three web services, the clock and the log file are replaced by plain
values.

Modules, one file each:

- `Wrappers` (wrappers.dfy): `Option` and `Result`. A Python exception that
  ends a task is an `Err`: a missing key, an index out of range, or a date
  past the last `datetime` value.
- `Seqs` (seqs.dfy): order-preserving selection. `Positions` gives the
  indices of the matching elements, and `Filter` keeps the matching
  elements themselves. Also `Contains`, which is Python's substring test
  `a in b` on strings.
- `Calendar` (calendar.dfy): Gregorian dates for years 1-9999, the next
  calendar day, and the `%y%b%d` token, upper-cased, that tickers embed.
- `Config` (config.dfy): the `high_series`, `low_series`,
  `meteo_ensembles` and `city_coords` tables, the `PARAMS_BY_HOUR`
  schedule, and the driver's schedule lookup.
- `Responses` (responses.dfy): the parsed service responses, the error
  kinds, and `Env`. `Env` holds the three services as functions from a
  query to its response, the current date, and the timestamp string.
- `Forecast` (forecast.dfy): the single-model and ensemble forecasts. The
  ensemble loop is modelled as a method proved against the function
  `Members`.
- `Market` (market.dfy): the eligible contracts of a series and the price
  taken from a contract's "no" book. The active-market loop and the price
  loop are methods proved against the functions `AvailableEvents` and
  `Prices`.
- `Logger` (logger.dfy): the observation record (`DataPoint`) and the log.
  The log is the class `DataLog`, whose `records` field
  `LogDataPoint` appends to.

Two behaviours of the code are easy to misread, and the model follows the
code in both:

- The market listing is read from the key `market`.
- An order-book response without `orderbook` makes the task fail. It does
  not give the sentinel price. The sentinel `-1` is used only when the
  "no" side is absent, null or empty, or when it has a null row or a row
  with a null leading price.

## Model

| member | source | states |
|---|---|---|
| Responses.Get | data_logger.py:66 | JSON object lookup: the value is present exactly when some entry has the key, and it is that entry's value |
| Seqs.Positions | data_logger.py:167-169 | the selected indices are in range and strictly increasing |
| Seqs.PositionsSound | data_logger.py:168-169 | every selected index holds an element that meets the condition |
| Seqs.PositionsComplete | data_logger.py:168-169 | every element that meets the condition has its index selected |
| Seqs.PositionsSnoc | data_logger.py:167-169 | one more loop step adds its own index exactly when its element meets the condition |
| Seqs.PositionsCount | data_logger.py:111-112 | as many indices are selected as there are elements meeting the condition |
| Seqs.Filter | data_logger.py:173 | the comprehension keeps the k-th matching element at position k, in the original order |
| Seqs.FilterMembership | data_logger.py:173 | x is kept exactly when x is in the input and meets the condition |
| Seqs.ContainsIffOccurrence | data_logger.py:112 | the substring test holds exactly when the pattern occurs at some offset |
| Seqs.Contains | data_logger.py:112 | Python's `t in s` on strings; characterised by Seqs.ContainsIffOccurrence (an occurrence at some offset) |
| Calendar.DaysInMonth | data_logger.py:171 | months have 28-31 days; February has 29 exactly in leap years |
| Calendar.NextDay | data_logger.py:171 | today plus one day is a valid date after today, and no valid date lies between them |
| Calendar.TargetDate | data_logger.py:171 | the target day is today with `today`, otherwise the next calendar day; only the day after the last representable date fails |
| Calendar.Upper | data_logger.py:171 | the upper-cased token has the same length, each character upper-cased |
| Calendar.Strftime | data_logger.py:171 | `%y%b%d` is seven characters: two-digit year, month abbreviation, two-digit day |
| Calendar.DateToken | data_logger.py:171 | the token has seven characters, each the upper-cased character of `%y%b%d`; Calendar.TokenRoundTrip and Calendar.TokenInjective state what it encodes |
| Calendar.TokenRoundTrip | data_logger.py:171 | the token has seven characters and reads back as two-digit year, month and day |
| Calendar.TokenInjective | data_logger.py:171 | two dates share a token exactly when year mod 100, month and day agree |
| Calendar.TodayTomorrowTokensDiffer | data_logger.py:171 | today's and tomorrow's tokens always differ |
| Calendar.TokenExample | data_logger.py:171 | 2024-03-05 gives 24MAR05; the day after 2024-02-28 gives 24FEB29; the day after 2023-12-31 gives 24JAN01 |
| Config.SevenCities | data_logger.py:11-19 | there are exactly seven distinct city codes |
| Config.TablesShareCities | data_logger.py:11-49 | all four configuration tables are keyed by exactly the seven cities |
| Config.ScheduledTasks | data_logger.py:275 | the schedule lookup has a value exactly for the hours in the table, and that value is the hour's entry |
| Config.TasksForHour | data_logger.py:275-283 | the tasks the driver runs (none where `if not params` exits); characterised by Config.ScheduledHours, Config.TasksAt and the schedule lemmas below |
| Config.ScheduledHours | data_logger.py:232-254 | nothing is scheduled exactly outside hours 0-16 and 20-23; so hours 17-19 run nothing |
| Config.TasksAt | data_logger.py:232-254 | the task list of every hour, read off the table |
| Config.MorningCoversAllCities | data_logger.py:237-250 | hours 0-13 list seven tasks, all with today set, covering all seven cities |
| Config.AllCitiesTodayCovers | data_logger.py:237 | the full hourly cycle names each of the seven cities |
| Config.AllCitiesDistinct | data_logger.py:237 | the full hourly cycle names no city twice |
| Config.EveningCities | data_logger.py:233-236 | the evening lists take the cities in cycle order, from the first |
| Config.AfternoonCities | data_logger.py:251-253 | the afternoon lists take the cities in cycle order, up to the last |
| Config.DayFlagByHour | data_logger.py:232-254 | hours 0-16 carry only today tasks; hours 20-23 carry only tomorrow tasks |
| Config.NoCityTwicePerHour | data_logger.py:232-254 | no hour lists a city twice |
| Config.ScheduledCitiesConfigured | data_logger.py:232-254 | every scheduled city is a key of all four configuration tables |
| Config.TodayWindow | data_logger.py:237-253 | a city is collected for today at hour h exactly when h runs from 0 to its last today hour (13 for ny, mia, phil; 14 for chi, aus; 15 for den; 16 for la) |
| Config.TomorrowWindow | data_logger.py:233-236 | a city is collected for tomorrow at hour h exactly when h runs from its first tomorrow hour (20 for ny, mia, phil; 22 for chi, aus; 23 for den; never for la) through 23 |
| Responses.CityEntry | data_logger.py:52 | `table[city]` gives the entry exactly for a configured city, and otherwise a KeyError naming the city |
| Forecast.TodayTomorrow | data_logger.py:66-67 | elements 0 and 1 of a series, or an IndexError exactly when it has fewer than two |
| Forecast.DailyOf | data_logger.py:66 | the `daily` object, or a KeyError exactly when it is absent |
| Forecast.SingleRequest | data_logger.py:52-61 | the query carries the city's coordinates and the max/min variable; it fails exactly for an unconfigured city |
| Forecast.SingleForecast | data_logger.py:51-89 | for a configured city the result is elements 0 and 1 of the requested variable's series in the response to the city's query; a missing `daily` or variable fails with its KeyError, a series shorter than two with IndexError, and an unconfigured city with its KeyError |
| Forecast.EnsembleRequest | data_logger.py:92-103 | the query adds the city's ensemble model; it fails exactly for a city missing from the coordinate or model table |
| Forecast.EnsembleForecast | data_logger.py:91-148 | an unconfigured city fails with its KeyError; otherwise the response to the city's ensemble query gives a KeyError without `daily`, and else the members of its `daily` object |
| Forecast.Members | data_logger.py:108-115 | on success two lists of equal length, one entry per member key; otherwise IndexError; Forecast.MembersShape states the entries |
| Forecast.GrabEnsemble | data_logger.py:91-148 | the result is Forecast.EnsembleForecast of the same inputs: the members of the `daily` object of the response to the city's ensemble query, or the KeyError of a missing table entry or `daily` |
| Forecast.CollectMembers | data_logger.py:108-115 | the loop's result is `Members` of the `daily` object |
| Forecast.CollectedSnoc | data_logger.py:111-115 | one loop step extends both lists by element 0 and element 1 of a member series, and leaves them alone for any other key |
| Forecast.MembersFromPositions | data_logger.py:108-115 | lists holding elements 0 and 1 of the member series, in key order, are the ensemble members |
| Forecast.MembersShape | data_logger.py:108-115 | the today and tomorrow lists have equal length, the number of keys containing "temperature"; the k-th entries are elements 0 and 1 of the k-th such key, in key order |
| Forecast.ShortMemberFails | data_logger.py:113-115 | a member series with fewer than two values raises IndexError |
| Forecast.ThreeMemberPositions | data_logger.py:111-112 | the `time` key is skipped and the three member keys are taken, in order |
| Forecast.ThreeMembers | data_logger.py:108-115 | `time` plus three members with values (a0,a1), (b0,b1), (c0,c1) give [a0,b0,c0] and [a1,b1,c1] |
| Market.Series | data_logger.py:151-162 | the high series with `high`, the low series otherwise; it fails exactly for an unconfigured city |
| Market.MarketsOf | data_logger.py:165 | the listing's `market` array, or a KeyError exactly when it is absent |
| Market.ActiveTickers | data_logger.py:166-169 | the tickers of the active markets in listing order; characterised by Market.ActiveTickersMembership and Seqs.PositionsSound/PositionsComplete |
| Market.WithToken | data_logger.py:173 | the tickers containing the token, in order; characterised by Seqs.Filter and Seqs.FilterMembership |
| Market.ActiveTickersMembership | data_logger.py:166-169 | a ticker is active exactly when some market with status "active" carries it |
| Market.TargetToken | data_logger.py:171 | today's token with `today`, otherwise tomorrow's; it fails only for tomorrow of the last date |
| Market.AvailableEvents | data_logger.py:150-174 | the eligible contracts; characterised by Market.AvailableEventsSpec, Market.AvailableEventsSucceeds and Market.NoActiveMarkets |
| Market.GrabAvailableEvents | data_logger.py:150-174 | the method's result is the eligible-contracts function of the same inputs |
| Market.EligibleMembership | data_logger.py:166-173 | a ticker is eligible exactly when it contains the token and an active market carries it |
| Market.AvailableEventsSpec | data_logger.py:150-174 | on success the city is configured and the date has a successor if needed; the events are the token filter of the active tickers in listing order, and a ticker is among them exactly when it contains the token and an active market of the series carries it |
| Market.AvailableEventsSucceeds | data_logger.py:150-174 | the eligible contracts are found exactly when the city is configured, its series listing has `market`, and the target day exists |
| Market.NoActiveMarkets | data_logger.py:166-197 | for a configured city whose listing has no active market, the contract list is empty and the price map is empty, neither an error |
| Market.MaxPrice | data_logger.py:193 | the maximum bounds every leading price and is one of them |
| Market.NoSidePrice | data_logger.py:188-193 | the price is -1 when the "no" side is absent or empty or has a null row or a null leading price; otherwise 100 minus a leading price that bounds all leading prices |
| Market.PriceInCentRange | data_logger.py:193 | leading prices in 1-99 give a price in 1-99, never the sentinel |
| Market.PriceExample | data_logger.py:193 | leading prices 30, 45 and 60 give 40 |
| Market.BookPrice | data_logger.py:187-193 | a book response gives its "no" side's price, or a KeyError exactly when `orderbook` is absent |
| Market.BookPricesSnoc | data_logger.py:181-195 | pricing one more ticker adds exactly that ticker's entry to the map |
| Market.PriceMap | data_logger.py:179-197 | the ticker-to-price map; characterised by Market.PriceMapSpec and Market.MissingBookFails |
| Market.Prices | data_logger.py:176-197 | the prices of the eligible contracts; characterised by Market.PricesSpec, Market.PricesSucceed and Market.NoActiveMarkets |
| Market.GrabPrices | data_logger.py:176-197 | the result is the prices function of the same inputs |
| Market.PriceLoop | data_logger.py:179-197 | the loop's result is the price map of the eligible tickers: each ticker's own book price, or a KeyError when any response lacks `orderbook` |
| Market.PriceMapSpec | data_logger.py:179-197 | the map's keys are exactly the eligible tickers, and each value is its own ticker's book price |
| Market.PricesSpec | data_logger.py:176-197 | a priced ticker is exactly one that contains the target token and is carried by an active market of the series; its value comes from its own book |
| Market.PricesSucceed | data_logger.py:176-197 | the prices are found exactly when the eligible contracts are and every eligible contract's book response has `orderbook` |
| Market.MissingBookFails | data_logger.py:187 | one eligible ticker without `orderbook` fails the whole map |
| Logger.DataLog.constructor | data_logger.py:221-224 | a log that does not exist yet is empty |
| Logger.DataPoint | data_logger.py:199-218 | the task's record; characterised by Logger.RecordForecastDay, Logger.RecordPricesDay and Logger.DataPointSucceeds |
| Logger.DataLog.LogDataPoint | data_logger.py:199-227 | the result is the observation of the task; with `dryRun`, or on failure, the log is unchanged; otherwise the new log is the old log followed by this one record |
| Logger.DataPointSucceeds | data_logger.py:199-207 | a task yields its record exactly when all six fetches succeed; a failing first fetch is the task's error |
| Logger.RecordForecastDay | data_logger.py:209-218 | a record holds the city and timestamp; its four forecast fields are element 0 of each forecast with `today` and element 1 otherwise; its price maps are the two price results unchanged |
| Logger.RecordPricesDay | data_logger.py:206-207 | a record's price keys contain today's token with `today` and tomorrow's otherwise; they are active tickers of the city's high and low series, each priced from its own book |

## Left out

- Network calls are left out: the HTTP requests, URLs, timeouts and JSON decoding. Each service is a function from the query's varying part to a parsed response. The fixed query parameters are not represented: forecast days, unit, time zone and status "open".
- The log file is left out: its existence check, reading, writing and JSON serialisation. The log is the `records` field, and a log file that does not exist yet is the constructor's empty log.
- Clock reads are not modelled as such. `now` is one date input shared by both price fetches of a task, although the code reads the clock in each call. A task that crosses midnight between the two calls is therefore outside the model.
- The time zone of the date behind the token is not modelled. The timestamp is an input string, and the hour is the argument of `Config.ScheduledTasks`.
- Temperatures are an opaque type that is only moved, never computed with. The conversion to a NumPy array is left out.
- The `print` diagnostics are left out.
- The driver loop after the schedule lookup is not modelled: running the tasks in order and stopping at the first failure. Only the lookup that decides what runs is modelled.
- Whether the schedule agrees with the comments on per-city local times is not modelled, because that needs time-zone arithmetic the code never performs. `Config.TodayWindow` and `Config.TomorrowWindow` state what the table itself contains.
- Some malformed inputs are assumed well formed, because the failures they cause are outside this model:
  - a "no" row with no element;
  - a market without `status` or `ticker`;
  - a series value that is not a list;
  - a leading price that is not an integer;
  - a JSON `null` for `orderbook`, `market` or `daily`. The model treats it as the key being absent, a KeyError, while Python raises AttributeError at `orderbook.get` or TypeError when subscripting or iterating `None`.
- A repeated ticker is fetched twice by the code. In the model its book price is the same both times, because a service is a function of its query.
- `%b` is taken in the C locale, and upper-casing is ASCII only. Those are the only characters a token holds.
- JSON objects are ordered key-value lists with distinct keys, which is how Python's `dict` keeps them. The ensemble members come out in that key order.
- Logger.DataLog.LogDataPoint: the model appends the record, as the code evidently intends. As written, the high ensemble lists are NumPy arrays (data_logger.py:117-118), so `json.dumps` at data_logger.py:227 raises TypeError before `write_text` runs. Every collection that is not a dry run therefore fails and leaves the log unchanged. The model does not capture this.
- Logger.DataLog.LogDataPoint returns the record, which the code's `log_data_point` does not: it returns nothing (data_logger.py:199-229). The returned record is added so the collected record is visible under `dryRun`, where the code only prints a confirmation.
