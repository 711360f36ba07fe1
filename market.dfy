/** The market client: the eligible contracts of a city's high or low
    series for a day, the price derived from a contract's "no" order book,
    and the ticker-to-price map of the eligible contracts. */
module Market {
  import opened Wrappers
  import opened Seqs
  import opened Responses
  import Config
  import Calendar
  import Forecast

  /** The series of the city's high or low contracts. */
  function Series(city: string, high: bool): (r: Result<string, Error>)
    ensures r.Ok? <==> city in Config.HighSeries && city in Config.LowSeries
    ensures high && r.Ok? ==> r.value == Config.HighSeries[city]
    ensures !high && r.Ok? ==> r.value == Config.LowSeries[city]
  {
    Config.TablesShareCities();
    CityEntry(if high then Config.HighSeries else Config.LowSeries, city)
  }

  predicate IsActive(m: Market) {
    m.status == "active"
  }

  /** The tickers of the active markets, in listing order. */
  function ActiveTickers(markets: seq<Market>): seq<string> {
    var ix := Positions(markets, IsActive);
    seq(|ix|, k requires 0 <= k < |ix| => markets[ix[k]].ticker)
  }

  /** A ticker is among the active tickers exactly when some market with
      status "active" carries it. */
  lemma ActiveTickersMembership(markets: seq<Market>, t: string)
    ensures t in ActiveTickers(markets) <==>
            exists i :: 0 <= i < |markets| && IsActive(markets[i]) && markets[i].ticker == t
  {
    var ix := Positions(markets, IsActive);
    var r := ActiveTickers(markets);
    PositionsSound(markets, IsActive);
    if t in r {
      var k :| 0 <= k < |r| && r[k] == t;
      assert IsActive(markets[ix[k]]) && markets[ix[k]].ticker == t;
    }
    if i :| 0 <= i < |markets| && IsActive(markets[i]) && markets[i].ticker == t {
      PositionsComplete(markets, IsActive, i);
      var k :| 0 <= k < |ix| && ix[k] == i;
      assert r[k] == t;
    }
  }

  /** The tickers that embed the date token. */
  function WithToken(tickers: seq<string>, token: string): seq<string> {
    Filter(tickers, t => Contains(t, token))
  }

  /** The markets of a listing, or KeyError when `market` is absent. */
  function MarketsOf(resp: ListingResponse): (r: Result<seq<Market>, Error>)
    ensures r.Ok? <==> resp.market.Some?
    ensures r.Ok? ==> r.value == resp.market.value
    ensures r.Err? ==> r.error == MissingKey("market")
  {
    if resp.market.None? then Err(MissingKey("market")) else Ok(resp.market.value)
  }

  /** The token of the day the collection is for. */
  function TargetToken(now: Calendar.ValidDate, today: bool): (r: Result<string, Error>)
    ensures r.Ok? <==> today || now != Calendar.LastDate
    ensures r.Ok? && today ==> r.value == Calendar.DateToken(now)
    ensures r.Ok? && !today ==> r.value == Calendar.DateToken(Calendar.NextDay(now))
    ensures r.Err? ==> r.error == DateOverflow
  {
    match Calendar.TargetDate(now, today)
    case Ok(d) => Ok(Calendar.DateToken(d))
    case Err(_) => Err(DateOverflow)
  }

  /** The eligible contracts (grab_available_events). */
  function AvailableEvents(city: string, today: bool, high: bool, env: Env): Result<seq<string>, Error> {
    var series :- Series(city, high);
    var markets :- MarketsOf(env.listing(series));
    var token :- TargetToken(env.now, today);
    Ok(WithToken(ActiveTickers(markets), token))
  }

  /** grab_available_events: the active-market loop, then the date filter. */
  method GrabAvailableEvents(city: string, today: bool, high: bool, env: Env)
    returns (r: Result<seq<string>, Error>)
    ensures r == AvailableEvents(city, today, high, env)
  {
    var series :- Series(city, high);
    var markets :- MarketsOf(env.listing(series));
    var active := [];
    ghost var ix := [];
    for i := 0 to |markets|
      invariant ix == Positions(markets[..i], IsActive)
      invariant |active| == |ix| && forall k :: 0 <= k < |ix| ==> active[k] == markets[ix[k]].ticker
    {
      PositionsSnoc(markets, IsActive, i);
      if markets[i].status == "active" {
        active := active + [markets[i].ticker];
        ix := ix + [i];
      }
    }
    assert markets[..|markets|] == markets;
    assert active == ActiveTickers(markets);
    var token :- TargetToken(env.now, today);
    r := Ok(WithToken(active, token));
  }

  /** A ticker is eligible exactly when it embeds the token and some
      active market carries it. */
  lemma EligibleMembership(markets: seq<Market>, token: string, t: string)
    ensures t in WithToken(ActiveTickers(markets), token) <==>
      (Contains(t, token) && exists i :: 0 <= i < |markets| && IsActive(markets[i]) && markets[i].ticker == t)
  {
    FilterMembership(ActiveTickers(markets), t => Contains(t, token), t);
    ActiveTickersMembership(markets, t);
  }

  /** The eligible contracts are exactly the tickers of the series' active
      markets that embed the target day's token; they keep the listing's
      order, being a filter of the active tickers. */
  lemma AvailableEventsSpec(city: string, today: bool, high: bool, env: Env, events: seq<string>)
    requires AvailableEvents(city, today, high, env) == Ok(events)
    ensures city in Config.HighSeries && city in Config.LowSeries
    ensures today || env.now != Calendar.LastDate
    ensures var listing := env.listing(if high then Config.HighSeries[city] else Config.LowSeries[city]);
      && listing.market.Some?
      && events == WithToken(ActiveTickers(listing.market.value), TargetToken(env.now, today).value)
      && forall t :: t in events <==>
           (Contains(t, TargetToken(env.now, today).value) &&
            exists i :: 0 <= i < |listing.market.value| && IsActive(listing.market.value[i])
                        && listing.market.value[i].ticker == t)
  {
    var markets := env.listing(if high then Config.HighSeries[city] else Config.LowSeries[city]).market.value;
    var token := TargetToken(env.now, today).value;
    assert events == WithToken(ActiveTickers(markets), token);
    forall t ensures t in events <==>
      (Contains(t, token) && exists i :: 0 <= i < |markets| && IsActive(markets[i]) && markets[i].ticker == t)
    {
      EligibleMembership(markets, token, t);
    }
  }

  /** The eligible contracts are found exactly when the city is
      configured, its series listing has `market`, and the target day
      exists. */
  lemma AvailableEventsSucceeds(city: string, today: bool, high: bool, env: Env)
    ensures AvailableEvents(city, today, high, env).Ok? <==>
      && city in Config.Cities
      && env.listing(if high then Config.HighSeries[city] else Config.LowSeries[city]).market.Some?
      && (today || env.now != Calendar.LastDate)
  {
    Config.TablesShareCities();
  }

  /** Where no market of the series is active, no contract is eligible:
      an empty contract list and an empty price map, not an error. */
  lemma NoActiveMarkets(city: string, today: bool, high: bool, env: Env)
    requires city in Config.Cities
    requires today || env.now != Calendar.LastDate
    requires var listing := env.listing(if high then Config.HighSeries[city] else Config.LowSeries[city]);
      && listing.market.Some?
      && forall m :: m in listing.market.value ==> !IsActive(m)
    ensures AvailableEvents(city, today, high, env) == Ok([])
    ensures Prices(city, today, high, env) == Ok(map[])
  {
    var series := if high then Config.HighSeries[city] else Config.LowSeries[city];
    var markets := env.listing(series).market.value;
    assert Series(city, high) == Ok(series);
    NoActiveNoTickers(markets);
    assert WithToken([], TargetToken(env.now, today).value) == [];
    assert AvailableEvents(city, today, high, env) == Ok([]);
    assert BookPrices([], env.orderbook) == map[];
  }

  /** No active market, no active ticker. */
  lemma NoActiveNoTickers(markets: seq<Market>)
    requires forall m :: m in markets ==> !IsActive(m)
    ensures ActiveTickers(markets) == []
  {
    PositionsCount(markets, IsActive);
    assert forall i :: 0 <= i < |markets| ==> markets[i] in markets;
    assert Hits(markets, IsActive) == {};
  }

  /** A row that is null or whose leading price is null. */
  predicate NullRow(row: Option<Level>) {
    row.None? || row.value.price.None?
  }

  predicate HasNullRow(rows: seq<Option<Level>>) {
    exists i :: 0 <= i < |rows| && NullRow(rows[i])
  }

  /** The highest leading price of rows that all carry one. */
  function MaxPrice(rows: seq<Option<Level>>): (m: int)
    requires |rows| > 0 && !HasNullRow(rows)
    ensures forall i :: 0 <= i < |rows| ==> rows[i].value.price.value <= m
    ensures exists i :: 0 <= i < |rows| && rows[i].value.price.value == m
  {
    var last := rows[|rows| - 1].value.price.value;
    if |rows| == 1 then last
    else
      var init := rows[..|rows| - 1];
      assert forall i :: 0 <= i < |init| ==> init[i] == rows[i];
      var m := MaxPrice(init);
      if m < last then last else m
  }

  /** The sentinel price of a contract whose "no" book gives no price. */
  const NoPrice := -1

  /** The price derived from the "no" side of an order book. */
  function NoSidePrice(no: Option<seq<Option<Level>>>): (p: int)
    ensures no.None? || no.value == [] || HasNullRow(no.value) ==> p == NoPrice
    ensures no.Some? && no.value != [] && !HasNullRow(no.value) ==>
      && (forall i :: 0 <= i < |no.value| ==> no.value[i].value.price.value <= 100 - p)
      && (exists i :: 0 <= i < |no.value| && no.value[i].value.price.value == 100 - p)
  {
    if no.None? || no.value == [] || HasNullRow(no.value) then NoPrice
    else 100 - MaxPrice(no.value)
  }

  /** Prices quoted in cents 1-99 give a price in 1-99, never the
      sentinel. */
  lemma PriceInCentRange(rows: seq<Option<Level>>)
    requires rows != [] && !HasNullRow(rows)
    requires forall i :: 0 <= i < |rows| ==> 1 <= rows[i].value.price.value <= 99
    ensures 1 <= NoSidePrice(Some(rows)) <= 99
  {
  }

  /** Levels 30, 45 and 60 give 100 - 60 = 40. */
  lemma PriceExample(s0: Option<int>, s1: Option<int>, s2: Option<int>)
    ensures NoSidePrice(Some([Some(Level(Some(30), s0)), Some(Level(Some(45), s1)), Some(Level(Some(60), s2))])) == 40
  {
    var rows := [Some(Level(Some(30), s0)), Some(Level(Some(45), s1)), Some(Level(Some(60), s2))];
    assert !HasNullRow(rows);
  }

  /** The "no" book of a book response, or KeyError when `orderbook` is
      absent. */
  function BookPrice(resp: BookResponse): (r: Result<int, Error>)
    ensures r.Ok? <==> resp.orderbook.Some?
    ensures r.Ok? ==> r.value == NoSidePrice(resp.orderbook.value.no)
    ensures r.Err? ==> r.error == MissingKey("orderbook")
  {
    if resp.orderbook.None? then Err(MissingKey("orderbook")) else Ok(NoSidePrice(resp.orderbook.value.no))
  }

  predicate AllBooks(tickers: seq<string>, orderbook: string -> BookResponse) {
    forall t :: t in tickers ==> orderbook(t).orderbook.Some?
  }

  /** Each ticker mapped to the price of its own book. */
  function BookPrices(tickers: seq<string>, orderbook: string -> BookResponse): map<string, int>
    requires AllBooks(tickers, orderbook)
  {
    map t | t in tickers :: NoSidePrice(orderbook(t).orderbook.value.no)
  }

  /** Pricing one more ticker adds exactly its entry. */
  lemma BookPricesSnoc(tickers: seq<string>, orderbook: string -> BookResponse, i: nat)
    requires i < |tickers| && AllBooks(tickers[..i + 1], orderbook)
    ensures AllBooks(tickers[..i], orderbook)
    ensures BookPrices(tickers[..i + 1], orderbook)
            == BookPrices(tickers[..i], orderbook)[tickers[i] := NoSidePrice(orderbook(tickers[i]).orderbook.value.no)]
  {
    assert tickers[..i + 1] == tickers[..i] + [tickers[i]];
  }

  /** The price of every ticker, each computed from that ticker's own book;
      a book response without `orderbook` fails the whole map. */
  function PriceMap(tickers: seq<string>, orderbook: string -> BookResponse): Result<map<string, int>, Error> {
    if AllBooks(tickers, orderbook) then Ok(BookPrices(tickers, orderbook)) else Err(MissingKey("orderbook"))
  }

  /** The prices of the eligible contracts (grab_prices). */
  function Prices(city: string, today: bool, high: bool, env: Env): Result<map<string, int>, Error> {
    var events :- AvailableEvents(city, today, high, env);
    PriceMap(events, env.orderbook)
  }

  /** grab_prices: the order-book loop filling the ticker-to-price map. */
  method GrabPrices(city: string, today: bool, high: bool, env: Env) returns (r: Result<map<string, int>, Error>)
    ensures r == Prices(city, today, high, env)
  {
    var events :- GrabAvailableEvents(city, today, high, env);
    r := PriceLoop(events, env.orderbook);
  }

  /** The loop over the eligible tickers that fetches each book and stores
      its price under the ticker. */
  method PriceLoop(events: seq<string>, orderbook: string -> BookResponse) returns (r: Result<map<string, int>, Error>)
    ensures r == PriceMap(events, orderbook)
  {
    var prices := map[];
    for i := 0 to |events|
      invariant AllBooks(events[..i], orderbook)
      invariant prices == BookPrices(events[..i], orderbook)
    {
      var ticker := events[i];
      var price := BookPrice(orderbook(ticker));
      if price.Err? {
        MissingBookFails(events, orderbook, i);
        return Err(price.error);
      }
      assert AllBooks(events[..i + 1], orderbook) by {
        assert events[..i + 1] == events[..i] + [ticker];
      }
      BookPricesSnoc(events, orderbook, i);
      prices := prices[ticker := price.value];
    }
    assert events[..|events|] == events;
    r := Ok(prices);
  }

  /** The map's keys are exactly the eligible tickers, and each price
      depends only on that ticker's own order book. */
  lemma PriceMapSpec(tickers: seq<string>, orderbook: string -> BookResponse, prices: map<string, int>)
    requires PriceMap(tickers, orderbook) == Ok(prices)
    ensures forall t :: t in prices <==> t in tickers
    ensures forall t :: t in prices ==> BookPrice(orderbook(t)) == Ok(prices[t])
  {
  }

  /** Every priced ticker is an eligible contract of the city's series for
      the target day, priced from its own order book. */
  lemma PricesSpec(city: string, today: bool, high: bool, env: Env, prices: map<string, int>)
    requires Prices(city, today, high, env) == Ok(prices)
    ensures city in Config.HighSeries && city in Config.LowSeries
    ensures today || env.now != Calendar.LastDate
    ensures var listing := env.listing(if high then Config.HighSeries[city] else Config.LowSeries[city]);
      && listing.market.Some?
      && forall t :: t in prices <==>
           (Contains(t, TargetToken(env.now, today).value) &&
            exists i :: 0 <= i < |listing.market.value| && IsActive(listing.market.value[i])
                        && listing.market.value[i].ticker == t)
    ensures forall t :: t in prices ==> BookPrice(env.orderbook(t)) == Ok(prices[t])
  {
    var events := AvailableEvents(city, today, high, env).value;
    AvailableEventsSpec(city, today, high, env, events);
    PriceMapSpec(events, env.orderbook, prices);
  }

  /** The prices are found exactly when the eligible contracts are and
      every eligible contract's book response has `orderbook`. */
  lemma PricesSucceed(city: string, today: bool, high: bool, env: Env)
    ensures Prices(city, today, high, env).Ok? <==>
      && AvailableEvents(city, today, high, env).Ok?
      && AllBooks(AvailableEvents(city, today, high, env).value, env.orderbook)
  {
  }

  /** A missing `orderbook` in any eligible ticker's response fails the
      whole map. */
  lemma MissingBookFails(tickers: seq<string>, orderbook: string -> BookResponse, i: int)
    requires 0 <= i < |tickers| && orderbook(tickers[i]).orderbook.None?
    ensures PriceMap(tickers, orderbook) == Err(MissingKey("orderbook"))
  {
    assert tickers[i] in tickers;
  }
}
