/** The parsed JSON responses of the forecast and market services, and the
    errors raised when a response lacks what the code indexes. The network
    itself is abstracted: each service is a function from a request to the
    response it returns. */
module Responses {
  import opened Wrappers
  import Config
  import Calendar

  /** A forecast temperature as the JSON parser yields it (a float or null);
      the code only moves these values around. */
  type Temp(==)

  /** A JSON object, in key order; keys of a parsed object are distinct. */
  predicate DistinctKeys<V>(o: seq<(string, V)>) {
    forall i, j :: 0 <= i < j < |o| ==> o[i].0 != o[j].0
  }

  /** The `daily` object of a forecast response: series name to values. */
  type Daily = o: seq<(string, seq<Temp>)> | DistinctKeys(o)

  /** Python's `obj[key]` on a JSON object: the value stored under `key`. */
  function Get<V>(o: seq<(string, V)>, key: string): (r: Option<V>)
    ensures r.Some? <==> exists i :: 0 <= i < |o| && o[i].0 == key
    ensures r.Some? ==> exists i :: 0 <= i < |o| && o[i] == (key, r.value)
  {
    if o == [] then None else if o[0].0 == key then Some(o[0].1) else Get(o[1..], key)
  }

  /** A forecast response; `daily` is None when the key is absent. */
  datatype ForecastResponse = ForecastResponse(daily: Option<Daily>)

  /** One forecast request: the single-model endpoint or the ensemble
      endpoint, for a location and a daily variable. */
  datatype ForecastQuery =
    | SingleQuery(coords: Config.Coords, variable: string)
    | EnsembleQuery(coords: Config.Coords, variable: string, model: string)

  /** One market of a series listing. */
  datatype Market = Market(status: string, ticker: string)

  /** A series listing; the code reads its `market` field. */
  datatype ListingResponse = ListingResponse(market: Option<seq<Market>>)

  /** One `[price, size]` row of an order book; either may be null. */
  datatype Level = Level(price: Option<int>, size: Option<int>)

  /** The `orderbook` object; `no` is None when absent or null, and each row
      may itself be null. */
  datatype Orderbook = Orderbook(no: Option<seq<Option<Level>>>)

  datatype BookResponse = BookResponse(orderbook: Option<Orderbook>)

  /** The exceptions the pipeline can raise on its inputs. */
  datatype Error =
    | MissingKey(key: string)     // KeyError: a table or JSON object lacks a key
    | IndexOutOfRange             // IndexError: a series has fewer than two values
    | DateOverflow                // OverflowError: no day after the last datetime

  /** Python's `table[city]` on a configuration table: a city missing from
      the table raises KeyError. */
  function CityEntry<V>(table: map<string, V>, city: string): (r: Result<V, Error>)
    ensures r.Ok? <==> city in table
    ensures r.Ok? ==> r.value == table[city]
    ensures r.Err? ==> r.error == MissingKey(city)
  {
    if city in table then Ok(table[city]) else Err(MissingKey(city))
  }

  /** Everything the pipeline reads from outside: the three services, the
      calendar date of the local clock and the collection timestamp. */
  datatype Env = Env(
    forecast: ForecastQuery -> ForecastResponse,
    listing: string -> ListingResponse,
    orderbook: string -> BookResponse,
    now: Calendar.ValidDate,
    timestamp: string)
}
