/** The record builder and the append-only log (log_data_point): one
    observation per city and run, holding the chosen day's forecasts and
    the prices of that day's high and low contracts. */
module Logger {
  import opened Wrappers
  import opened Responses
  import Config
  import Calendar
  import Forecast
  import Market
  import Seqs

  datatype Record = Record(
    city: string,
    timestamp: string,
    highSingle: Temp,
    highEnsemble: seq<Temp>,
    highPrices: map<string, int>,
    lowSingle: Temp,
    lowEnsemble: seq<Temp>,
    lowPrices: map<string, int>)

  /** The today value or the tomorrow value of a pair. */
  function Pick<T>(pair: (T, T), today: bool): T {
    if today then pair.0 else pair.1
  }

  /** The observation of one collection task, fetching in the code's order:
      high single, high ensemble, low single, low ensemble, high prices,
      low prices; the first failure aborts the task. */
  function DataPoint(city: string, today: bool, env: Env): Result<Record, Error> {
    var highSingle :- Forecast.SingleForecast(city, true, env.forecast);
    var highEnsemble :- Forecast.EnsembleForecast(city, true, env.forecast);
    var lowSingle :- Forecast.SingleForecast(city, false, env.forecast);
    var lowEnsemble :- Forecast.EnsembleForecast(city, false, env.forecast);
    var highPrices :- Market.Prices(city, today, true, env);
    var lowPrices :- Market.Prices(city, today, false, env);
    Ok(Record(city, env.timestamp,
              Pick(highSingle, today), Pick(highEnsemble, today), highPrices,
              Pick(lowSingle, today), Pick(lowEnsemble, today), lowPrices))
  }

  /** The persisted log: the sequence of records in insertion order. A
      missing log file is the empty log. */
  class DataLog {
    var records: seq<Record>

    constructor ()
      ensures records == []
    {
      records := [];
    }

    /** log_data_point: collect one observation and, unless `dryRun`,
        append it to the log. A failed collection leaves the log alone. */
    method LogDataPoint(city: string, today: bool, dryRun: bool, env: Env) returns (r: Result<Record, Error>)
      modifies this
      ensures r == DataPoint(city, today, env)
      ensures records == if r.Ok? && !dryRun then old(records) + [r.value] else old(records)
    {
      var highSingle :- Forecast.SingleForecast(city, true, env.forecast);
      var highEnsemble :- Forecast.GrabEnsemble(city, true, env.forecast);
      var lowSingle :- Forecast.SingleForecast(city, false, env.forecast);
      var lowEnsemble :- Forecast.GrabEnsemble(city, false, env.forecast);
      var highPrices :- Market.GrabPrices(city, today, true, env);
      var lowPrices :- Market.GrabPrices(city, today, false, env);
      var point := Record(city, env.timestamp,
                          if today then highSingle.0 else highSingle.1,
                          if today then highEnsemble.0 else highEnsemble.1,
                          highPrices,
                          if today then lowSingle.0 else lowSingle.1,
                          if today then lowEnsemble.0 else lowEnsemble.1,
                          lowPrices);
      if !dryRun {
        records := records + [point];
      }
      r := Ok(point);
    }
  }

  /** A task yields its record exactly when all six fetches succeed; a
      failing first fetch fails the task with its own error. */
  lemma DataPointSucceeds(city: string, today: bool, env: Env)
    ensures DataPoint(city, today, env).Ok? <==>
      && Forecast.SingleForecast(city, true, env.forecast).Ok?
      && Forecast.EnsembleForecast(city, true, env.forecast).Ok?
      && Forecast.SingleForecast(city, false, env.forecast).Ok?
      && Forecast.EnsembleForecast(city, false, env.forecast).Ok?
      && Market.Prices(city, today, true, env).Ok?
      && Market.Prices(city, today, false, env).Ok?
    ensures Forecast.SingleForecast(city, true, env.forecast).Err? ==>
      DataPoint(city, today, env) == Err(Forecast.SingleForecast(city, true, env.forecast).error)
  {
  }

  /** A record's forecast fields are element 0 of each forecast with
      `today` and element 1 otherwise; its price maps pass through
      unchanged. */
  lemma RecordForecastDay(city: string, today: bool, env: Env, rec: Record)
    requires DataPoint(city, today, env) == Ok(rec)
    ensures rec.city == city && rec.timestamp == env.timestamp
    ensures var hs := Forecast.SingleForecast(city, true, env.forecast);
            var ls := Forecast.SingleForecast(city, false, env.forecast);
            var he := Forecast.EnsembleForecast(city, true, env.forecast);
            var le := Forecast.EnsembleForecast(city, false, env.forecast);
            && hs.Ok? && ls.Ok? && he.Ok? && le.Ok?
            && (today ==> rec.highSingle == hs.value.0 && rec.lowSingle == ls.value.0
                          && rec.highEnsemble == he.value.0 && rec.lowEnsemble == le.value.0)
            && (!today ==> rec.highSingle == hs.value.1 && rec.lowSingle == ls.value.1
                           && rec.highEnsemble == he.value.1 && rec.lowEnsemble == le.value.1)
    ensures var hp := Market.Prices(city, today, true, env);
            var lp := Market.Prices(city, today, false, env);
            hp == Ok(rec.highPrices) && lp == Ok(rec.lowPrices)
  {
    var hs := Forecast.SingleForecast(city, true, env.forecast);
    var he := Forecast.EnsembleForecast(city, true, env.forecast);
    var ls := Forecast.SingleForecast(city, false, env.forecast);
    var le := Forecast.EnsembleForecast(city, false, env.forecast);
    var hp := Market.Prices(city, today, true, env);
    var lp := Market.Prices(city, today, false, env);
    assert hs.Ok? && he.Ok? && ls.Ok? && le.Ok? && hp.Ok? && lp.Ok?;
    assert rec == Record(city, env.timestamp,
                         Pick(hs.value, today), Pick(he.value, today), hp.value,
                         Pick(ls.value, today), Pick(le.value, today), lp.value);
  }

  /** A record correlates forecasts and prices for the same day: its price
      keys embed today's token with `today` and tomorrow's otherwise, are
      tickers of active markets of the city's high and low series, and
      each price comes from that ticker's own order book. */
  lemma RecordPricesDay(city: string, today: bool, env: Env, rec: Record)
    requires DataPoint(city, today, env) == Ok(rec)
    ensures city in Config.Cities
    ensures !today ==> env.now != Calendar.LastDate
    ensures var token := if today then Calendar.DateToken(env.now) else Calendar.DateToken(Calendar.NextDay(env.now));
            && (forall t :: t in rec.highPrices ==> Seqs.Contains(t, token))
            && (forall t :: t in rec.lowPrices ==> Seqs.Contains(t, token))
    ensures var high := env.listing(Config.HighSeries[city]).market;
            var low := env.listing(Config.LowSeries[city]).market;
            && high.Some? && low.Some?
            && (forall t :: t in rec.highPrices ==>
                  exists i :: 0 <= i < |high.value| && Market.IsActive(high.value[i]) && high.value[i].ticker == t)
            && (forall t :: t in rec.lowPrices ==>
                  exists i :: 0 <= i < |low.value| && Market.IsActive(low.value[i]) && low.value[i].ticker == t)
    ensures forall t :: t in rec.highPrices ==> Market.BookPrice(env.orderbook(t)) == Ok(rec.highPrices[t])
    ensures forall t :: t in rec.lowPrices ==> Market.BookPrice(env.orderbook(t)) == Ok(rec.lowPrices[t])
  {
    Config.TablesShareCities();
    RecordForecastDay(city, today, env, rec);
    Market.PricesSpec(city, today, true, env, rec.highPrices);
    Market.PricesSpec(city, today, false, env, rec.lowPrices);
  }
}
