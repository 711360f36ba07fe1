/** The forecast client: the single-model forecast (today's and tomorrow's
    value of one daily series) and the ensemble forecast (element 0 and
    element 1 of every member series whose name mentions "temperature").
    The high and low variants of each request differ only in the daily
    variable they ask for, selected here by `high`. */
module Forecast {
  import opened Wrappers
  import opened Seqs
  import opened Responses
  import Config

  /** The daily variable requested: the maximum or minimum temperature. */
  function Variable(high: bool): string {
    if high then "temperature_2m_max" else "temperature_2m_min"
  }

  /** `values[0], values[1]`: today's and tomorrow's value of a series. */
  function TodayTomorrow(values: seq<Temp>): (r: Result<(Temp, Temp), Error>)
    ensures r.Ok? <==> |values| >= 2
    ensures r.Ok? ==> r.value == (values[0], values[1])
    ensures r.Err? ==> r.error == IndexOutOfRange
  {
    if |values| < 2 then Err(IndexOutOfRange) else Ok((values[0], values[1]))
  }

  /** The `daily` object of a response, or KeyError when it is absent. */
  function DailyOf(resp: ForecastResponse): (r: Result<Daily, Error>)
    ensures r.Ok? <==> resp.daily.Some?
    ensures r.Ok? ==> r.value == resp.daily.value
    ensures r.Err? ==> r.error == MissingKey("daily")
  {
    if resp.daily.None? then Err(MissingKey("daily")) else Ok(resp.daily.value)
  }

  /** The single-model request asks for the city's coordinates and the
      daily variable. */
  function SingleRequest(city: string, high: bool): (q: Result<ForecastQuery, Error>)
    ensures q.Ok? <==> city in Config.CityCoords
    ensures q.Ok? ==> q.value == SingleQuery(Config.CityCoords[city], Variable(high))
  {
    var coords :- CityEntry(Config.CityCoords, city);
    Ok(SingleQuery(coords, Variable(high)))
  }

  /** Today's and tomorrow's single-model forecast (grab_high_single and
      grab_low_single): elements 0 and 1 of the requested series of the
      response to the city's request. */
  function SingleForecast(city: string, high: bool, forecast: ForecastQuery -> ForecastResponse)
    : (r: Result<(Temp, Temp), Error>)
    ensures r.Ok? ==> city in Config.CityCoords
    ensures r.Ok? ==>
      var resp := forecast(SingleQuery(Config.CityCoords[city], Variable(high)));
      && resp.daily.Some?
      && exists i :: 0 <= i < |resp.daily.value| && resp.daily.value[i].0 == Variable(high)
                     && |resp.daily.value[i].1| >= 2
                     && r.value == (resp.daily.value[i].1[0], resp.daily.value[i].1[1])
    ensures city !in Config.CityCoords ==> r == Err(MissingKey(city))
    ensures city in Config.CityCoords ==>
      var resp := forecast(SingleQuery(Config.CityCoords[city], Variable(high)));
      && (resp.daily.None? ==> r == Err(MissingKey("daily")))
      && (resp.daily.Some? && Get(resp.daily.value, Variable(high)).None? ==> r == Err(MissingKey(Variable(high))))
      && (resp.daily.Some? && Get(resp.daily.value, Variable(high)).Some? ==>
            var v := Get(resp.daily.value, Variable(high)).value;
            r == if |v| < 2 then Err(IndexOutOfRange) else Ok((v[0], v[1])))
  {
    var q :- SingleRequest(city, high);
    var daily :- DailyOf(forecast(q));
    var values :- match Get(daily, Variable(high))
                  case Some(v) => Ok(v)
                  case None => Err(MissingKey(Variable(high)));
    TodayTomorrow(values)
  }

  /** An entry of `daily` that is an ensemble member's series. */
  predicate IsMember(entry: (string, seq<Temp>)) {
    Contains(entry.0, "temperature")
  }

  /** The ensemble members of a `daily` object: for each member series, in
      key order, element 0 goes to the today list and element 1 to the
      tomorrow list; a member series with fewer than two values raises
      IndexError. */
  function Members(daily: seq<(string, seq<Temp>)>): (r: Result<(seq<Temp>, seq<Temp>), Error>)
    ensures r.Ok? ==> |r.value.0| == |r.value.1| == |Positions(daily, IsMember)|
    ensures r.Err? ==> r.error == IndexOutOfRange
  {
    var ix := Positions(daily, IsMember);
    if forall k :: 0 <= k < |ix| ==> |daily[ix[k]].1| >= 2 then
      Ok((seq(|ix|, k requires 0 <= k < |ix| => daily[ix[k]].1[0]),
          seq(|ix|, k requires 0 <= k < |ix| => daily[ix[k]].1[1])))
    else
      Err(IndexOutOfRange)
  }

  /** The ensemble request adds the city's ensemble model. */
  function EnsembleRequest(city: string, high: bool): (q: Result<ForecastQuery, Error>)
    ensures q.Ok? <==> city in Config.CityCoords && city in Config.MeteoEnsembles
    ensures q.Ok? ==>
      q.value == EnsembleQuery(Config.CityCoords[city], Variable(high), Config.MeteoEnsembles[city])
    ensures city !in Config.CityCoords ==> q == Err(MissingKey(city))
  {
    var coords :- CityEntry(Config.CityCoords, city);
    var model :- CityEntry(Config.MeteoEnsembles, city);
    Ok(EnsembleQuery(coords, Variable(high), model))
  }

  /** The ensemble forecast (grab_high_ensemble and grab_low_ensemble): the
      members of the `daily` object of the response to the city's ensemble
      query. */
  function EnsembleForecast(city: string, high: bool, forecast: ForecastQuery -> ForecastResponse)
    : (r: Result<(seq<Temp>, seq<Temp>), Error>)
    ensures city !in Config.CityCoords ==> r == Err(MissingKey(city))
    ensures city in Config.CityCoords && city !in Config.MeteoEnsembles ==> r == Err(MissingKey(city))
    ensures city in Config.CityCoords && city in Config.MeteoEnsembles ==>
      var resp := forecast(EnsembleQuery(Config.CityCoords[city], Variable(high), Config.MeteoEnsembles[city]));
      && (resp.daily.None? ==> r == Err(MissingKey("daily")))
      && (resp.daily.Some? ==> r == Members(resp.daily.value))
  {
    var q :- EnsembleRequest(city, high);
    var daily :- DailyOf(forecast(q));
    Members(daily)
  }

  /** The ensemble request of grab_high_ensemble and grab_low_ensemble. */
  method GrabEnsemble(city: string, high: bool, forecast: ForecastQuery -> ForecastResponse)
    returns (r: Result<(seq<Temp>, seq<Temp>), Error>)
    ensures r == EnsembleForecast(city, high, forecast)
  {
    var q :- EnsembleRequest(city, high);
    var daily :- DailyOf(forecast(q));
    r := CollectMembers(daily);
  }

  /** The loop over the keys of `daily` that appends element 0 and
      element 1 of every member series. */
  method CollectMembers(daily: seq<(string, seq<Temp>)>) returns (r: Result<(seq<Temp>, seq<Temp>), Error>)
    ensures r == Members(daily)
  {
    var todays, tomorrows := [], [];
    for i := 0 to |daily|
      invariant Collected(daily, i, todays, tomorrows)
    {
      var (key, temps) := daily[i];
      if Contains(key, "temperature") {
        if |temps| < 2 {
          ShortMemberFails(daily, i);
          return Err(IndexOutOfRange);
        }
        CollectedSnoc(daily, i, todays, tomorrows);
        todays := todays + [temps[0]];
        tomorrows := tomorrows + [temps[1]];
      } else {
        CollectedSnoc(daily, i, todays, tomorrows);
      }
    }
    assert daily[..|daily|] == daily;
    MembersFromPositions(daily, todays, tomorrows);
    r := Ok((todays, tomorrows));
  }

  /** The lists hold elements 0 and 1 of the member series among the first
      `n` entries of `daily`, in key order. */
  ghost predicate Collected(daily: seq<(string, seq<Temp>)>, n: nat, todays: seq<Temp>, tomorrows: seq<Temp>)
    requires n <= |daily|
  {
    var ix := Positions(daily[..n], IsMember);
    && |todays| == |ix| && |tomorrows| == |ix|
    && (forall k :: 0 <= k < |ix| ==> |daily[ix[k]].1| >= 2)
    && (forall k :: 0 <= k < |ix| ==> todays[k] == daily[ix[k]].1[0])
    && (forall k :: 0 <= k < |ix| ==> tomorrows[k] == daily[ix[k]].1[1])
  }

  /** One more entry: a member series with two values extends both lists,
      any other entry leaves them alone. */
  lemma CollectedSnoc(daily: seq<(string, seq<Temp>)>, i: nat, todays: seq<Temp>, tomorrows: seq<Temp>)
    requires i < |daily| && Collected(daily, i, todays, tomorrows)
    requires IsMember(daily[i]) ==> |daily[i].1| >= 2
    ensures IsMember(daily[i]) ==> Collected(daily, i + 1, todays + [daily[i].1[0]], tomorrows + [daily[i].1[1]])
    ensures !IsMember(daily[i]) ==> Collected(daily, i + 1, todays, tomorrows)
  {
    PositionsSnoc(daily, IsMember, i);
  }

  /** Lists built position by position are the members of `daily`. */
  lemma MembersFromPositions(daily: seq<(string, seq<Temp>)>, todays: seq<Temp>, tomorrows: seq<Temp>)
    requires var ix := Positions(daily, IsMember);
      && |todays| == |ix| && |tomorrows| == |ix|
      && (forall k :: 0 <= k < |ix| ==> |daily[ix[k]].1| >= 2)
      && (forall k :: 0 <= k < |ix| ==> todays[k] == daily[ix[k]].1[0])
      && (forall k :: 0 <= k < |ix| ==> tomorrows[k] == daily[ix[k]].1[1])
    ensures Members(daily) == Ok((todays, tomorrows))
  {
    var ix := Positions(daily, IsMember);
    var firsts := seq(|ix|, k requires 0 <= k < |ix| => daily[ix[k]].1[0]);
    var seconds := seq(|ix|, k requires 0 <= k < |ix| => daily[ix[k]].1[1]);
    assert Members(daily) == Ok((firsts, seconds));
    assert todays == firsts by {
      forall k | 0 <= k < |ix| ensures todays[k] == firsts[k] { }
    }
    assert tomorrows == seconds by {
      forall k | 0 <= k < |ix| ensures tomorrows[k] == seconds[k] { }
    }
  }

  /** The `i`-th entry of `daily` is a member series whose elements 0 and 1
      are `today` and `tomorrow`. */
  predicate MemberPair(daily: seq<(string, seq<Temp>)>, i: int, today: Temp, tomorrow: Temp) {
    0 <= i < |daily| && IsMember(daily[i]) && |daily[i].1| >= 2
    && today == daily[i].1[0] && tomorrow == daily[i].1[1]
  }

  /** The two member lists have one entry per member series: as many as
      the `daily` keys that contain "temperature", the k-th pair taken from
      the k-th member series in key order. */
  lemma MembersShape(daily: seq<(string, seq<Temp>)>, todays: seq<Temp>, tomorrows: seq<Temp>)
    requires Members(daily) == Ok((todays, tomorrows))
    ensures |todays| == |tomorrows| == |Hits(daily, IsMember)|
    ensures var ix := Positions(daily, IsMember);
      && |ix| == |todays|
      && (forall k, l :: 0 <= k < l < |ix| ==> ix[k] < ix[l])
      && (forall k :: 0 <= k < |ix| ==> MemberPair(daily, ix[k], todays[k], tomorrows[k]))
  {
    PositionsCount(daily, IsMember);
    PositionsSound(daily, IsMember);
    var ix := Positions(daily, IsMember);
    var firsts := seq(|ix|, k requires 0 <= k < |ix| => daily[ix[k]].1[0]);
    var seconds := seq(|ix|, k requires 0 <= k < |ix| => daily[ix[k]].1[1]);
    assert (todays, tomorrows) == (firsts, seconds);
    forall k | 0 <= k < |ix| ensures MemberPair(daily, ix[k], todays[k], tomorrows[k]) {
      assert todays[k] == firsts[k] && tomorrows[k] == seconds[k];
    }
  }

  /** A series without two values makes the ensemble request fail. */
  lemma ShortMemberFails(daily: seq<(string, seq<Temp>)>, i: int)
    requires 0 <= i < |daily| && IsMember(daily[i]) && |daily[i].1| < 2
    ensures Members(daily) == Err(IndexOutOfRange)
  {
    PositionsComplete(daily, IsMember, i);
    var ix := Positions(daily, IsMember);
    var k :| 0 <= k < |ix| && ix[k] == i;
  }

  /** A `daily` object holding the `time` key and three member series. */
  predicate ThreeMemberDaily(d: seq<(string, seq<Temp>)>) {
    |d| == 4 && d[0].0 == "time" && IsMember(d[1]) && IsMember(d[2]) && IsMember(d[3])
  }

  lemma ThreeMemberPositions(d: seq<(string, seq<Temp>)>)
    requires ThreeMemberDaily(d)
    ensures Positions(d, IsMember) == [1, 2, 3]
  {
    assert Positions(d[..1], IsMember) == [] by {
      assert d[..0] == [];
      assert !IsMember(d[0]);
      PositionsSnoc(d, IsMember, 0);
    }
    PositionsSnoc(d, IsMember, 1);
    PositionsSnoc(d, IsMember, 2);
    PositionsSnoc(d, IsMember, 3);
    assert d[..4] == d;
  }

  /** Three member series beside the `time` key give three values a day,
      in member order. */
  lemma ThreeMembers(d: seq<(string, seq<Temp>)>, times: seq<Temp>, m1: string, m2: string, m3: string,
                     a0: Temp, a1: Temp, b0: Temp, b1: Temp, c0: Temp, c1: Temp)
    requires Contains(m1, "temperature") && Contains(m2, "temperature") && Contains(m3, "temperature")
    requires d == [("time", times), (m1, [a0, a1]), (m2, [b0, b1]), (m3, [c0, c1])]
    ensures Members(d) == Ok(([a0, b0, c0], [a1, b1, c1]))
  {
    ThreeMemberPositions(d);
    MembersFromPositions(d, [a0, b0, c0], [a1, b1, c1]);
  }
}
