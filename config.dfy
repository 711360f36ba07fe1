/** The static configuration: the four city-keyed tables and the hourly
    collection schedule, with the invariants they satisfy. */
module Config {
  import opened Wrappers

  /** The seven city codes. */
  const Cities: set<string> := {"la", "den", "ny", "chi", "mia", "aus", "phil"}

  /** Series ticker of each city's daily-high temperature contracts. */
  const HighSeries: map<string, string> := map[
    "la" := "KXHIGHLAX",
    "den" := "KXHIGHDEN",
    "ny" := "KXHIGHNY",
    "chi" := "KXHIGHCHI",
    "mia" := "KXHIGHMIA",
    "aus" := "KXHIGHAUS",
    "phil" := "KXHIGHPHIL"]

  /** Series ticker of each city's daily-low temperature contracts. */
  const LowSeries: map<string, string> := map[
    "la" := "KXLOWTLAX",
    "den" := "KXLOWTDEN",
    "ny" := "KXLOWTNY",
    "chi" := "KXLOWTCHI",
    "mia" := "KXLOWTMIA",
    "aus" := "KXLOWTAUS",
    "phil" := "KXLOWTPHIL"]

  /** Ensemble model each city's ensemble forecast is requested from. */
  const MeteoEnsembles: map<string, string> := map[
    "la" := "ecmwf_ifs025",
    "den" := "gfs_seamless",
    "ny" := "ecmwf_ifs025",
    "chi" := "ecmwf_ifs025",
    "mia" := "ecmwf_ifs025",
    "aus" := "gfs_seamless",
    "phil" := "ecmwf_ifs025"]

  datatype Coords = Coords(latitude: real, longitude: real)

  /** Weather-station coordinates of each city. */
  const CityCoords: map<string, Coords> := map[
    "mia" := Coords(25.78805, -80.31694),
    "la" := Coords(33.93816, -118.38660),
    "ny" := Coords(40.77898, -73.96925),
    "aus" := Coords(30.18304, -97.67987),
    "chi" := Coords(41.78412, -87.75514),
    "phil" := Coords(39.87326, -75.22681),
    "den" := Coords(39.76746, -104.86948)]

  /** The seven city codes are distinct. */
  lemma SevenCities()
    ensures |Cities| == 7
  {
  }

  /** All four tables are keyed by exactly the seven cities. */
  lemma TablesShareCities()
    ensures HighSeries.Keys == Cities
    ensures LowSeries.Keys == Cities
    ensures MeteoEnsembles.Keys == Cities
    ensures CityCoords.Keys == Cities
  {
  }

  /** One scheduled collection: a city and whether to collect for today. */
  datatype Task = Task(city: string, today: bool)

  /** Collection tasks by hour of the day on the reference clock. */
  const ParamsByHour: map<int, seq<Task>> := map[
    20 := [Task("ny", false), Task("mia", false), Task("phil", false)],
    21 := [Task("ny", false), Task("mia", false), Task("phil", false)],
    22 := [Task("ny", false), Task("mia", false), Task("phil", false), Task("chi", false), Task("aus", false)],
    23 := [Task("ny", false), Task("mia", false), Task("phil", false), Task("chi", false), Task("aus", false), Task("den", false)],
    0 := [Task("ny", true), Task("mia", true), Task("phil", true), Task("chi", true), Task("aus", true), Task("den", true), Task("la", true)],
    1 := [Task("ny", true), Task("mia", true), Task("phil", true), Task("chi", true), Task("aus", true), Task("den", true), Task("la", true)],
    2 := [Task("ny", true), Task("mia", true), Task("phil", true), Task("chi", true), Task("aus", true), Task("den", true), Task("la", true)],
    3 := [Task("ny", true), Task("mia", true), Task("phil", true), Task("chi", true), Task("aus", true), Task("den", true), Task("la", true)],
    4 := [Task("ny", true), Task("mia", true), Task("phil", true), Task("chi", true), Task("aus", true), Task("den", true), Task("la", true)],
    5 := [Task("ny", true), Task("mia", true), Task("phil", true), Task("chi", true), Task("aus", true), Task("den", true), Task("la", true)],
    6 := [Task("ny", true), Task("mia", true), Task("phil", true), Task("chi", true), Task("aus", true), Task("den", true), Task("la", true)],
    7 := [Task("ny", true), Task("mia", true), Task("phil", true), Task("chi", true), Task("aus", true), Task("den", true), Task("la", true)],
    8 := [Task("ny", true), Task("mia", true), Task("phil", true), Task("chi", true), Task("aus", true), Task("den", true), Task("la", true)],
    9 := [Task("ny", true), Task("mia", true), Task("phil", true), Task("chi", true), Task("aus", true), Task("den", true), Task("la", true)],
    10 := [Task("ny", true), Task("mia", true), Task("phil", true), Task("chi", true), Task("aus", true), Task("den", true), Task("la", true)],
    11 := [Task("ny", true), Task("mia", true), Task("phil", true), Task("chi", true), Task("aus", true), Task("den", true), Task("la", true)],
    12 := [Task("ny", true), Task("mia", true), Task("phil", true), Task("chi", true), Task("aus", true), Task("den", true), Task("la", true)],
    13 := [Task("ny", true), Task("mia", true), Task("phil", true), Task("chi", true), Task("aus", true), Task("den", true), Task("la", true)],
    14 := [Task("chi", true), Task("aus", true), Task("den", true), Task("la", true)],
    15 := [Task("den", true), Task("la", true)],
    16 := [Task("la", true)]]

  /** `PARAMS_BY_HOUR.get(hour)`. */
  function ScheduledTasks(hour: int): (r: Option<seq<Task>>)
    ensures r.Some? <==> hour in ParamsByHour
    ensures r.Some? ==> r.value == ParamsByHour[hour]
  {
    if hour in ParamsByHour then Some(ParamsByHour[hour]) else None
  }

  /** The driver's `if not params`: nothing is due when the hour has no
      entry or an empty one. */
  predicate NothingScheduled(hour: int) {
    ScheduledTasks(hour).None? || ScheduledTasks(hour).value == []
  }

  /** The tasks the driver runs in `hour`, in table order. */
  function TasksForHour(hour: int): seq<Task> {
    if NothingScheduled(hour) then [] else ScheduledTasks(hour).value
  }

  predicate NoRepeatedCity(ts: seq<Task>) {
    forall i, j :: 0 <= i < j < |ts| ==> ts[i].city != ts[j].city
  }

  /** The schedule's hours are 0-16 and 20-23: hours 17-19 run nothing. */
  lemma ScheduledHours()
    ensures forall h :: NothingScheduled(h) <==> !(0 <= h <= 16 || 20 <= h <= 23)
  {
    forall h ensures NothingScheduled(h) <==> !(0 <= h <= 16 || 20 <= h <= 23) {
      if 0 <= h <= 16 || 20 <= h <= 23 {
        assert h in ParamsByHour && ParamsByHour[h] != [];
      }
    }
  }

  /** The city cycle of a full hour, in table order. */
  const AllCitiesToday: seq<Task> := [Task("ny", true), Task("mia", true), Task("phil", true),
    Task("chi", true), Task("aus", true), Task("den", true), Task("la", true)]

  /** The table read hour by hour. */
  lemma TasksAt(h: int)
    ensures 0 <= h <= 13 ==> TasksForHour(h) == AllCitiesToday
    ensures h == 14 ==> TasksForHour(h) == [Task("chi", true), Task("aus", true), Task("den", true), Task("la", true)]
    ensures h == 15 ==> TasksForHour(h) == [Task("den", true), Task("la", true)]
    ensures h == 16 ==> TasksForHour(h) == [Task("la", true)]
    ensures 17 <= h <= 19 || h < 0 || h > 23 ==> TasksForHour(h) == []
    ensures 20 <= h <= 21 ==> TasksForHour(h) == [Task("ny", false), Task("mia", false), Task("phil", false)]
    ensures h == 22 ==> (TasksForHour(h) ==
      [Task("ny", false), Task("mia", false), Task("phil", false), Task("chi", false), Task("aus", false)])
    ensures h == 23 ==> (TasksForHour(h) ==
      [Task("ny", false), Task("mia", false), Task("phil", false), Task("chi", false), Task("aus", false), Task("den", false)])
  {
  }

  /** Hours 0-13 collect today's data for all seven cities. */
  lemma MorningCoversAllCities(h: int)
    requires 0 <= h <= 13
    ensures |TasksForHour(h)| == 7
    ensures (set t | t in TasksForHour(h) :: t.city) == Cities
    ensures forall t :: t in TasksForHour(h) ==> t.today
  {
    TasksAt(h);
    AllCitiesTodayCovers();
  }

  /** The full cycle names each of the seven cities. */
  lemma AllCitiesTodayCovers()
    ensures (set t | t in AllCitiesToday :: t.city) == Cities
  {
    var cs := set t | t in AllCitiesToday :: t.city;
    assert cs <= Cities by {
      forall t | t in AllCitiesToday ensures t.city in Cities {
        var i :| 0 <= i < 7 && AllCitiesToday[i] == t;
      }
    }
    assert Cities <= cs by {
      forall c | c in Cities ensures c in cs {
        assert Task(c, true) in AllCitiesToday;
      }
    }
  }

  /** Hours 0-16 collect only today's data, hours 20-23 only tomorrow's. */
  lemma DayFlagByHour(h: int)
    ensures 0 <= h <= 16 ==> forall t :: t in TasksForHour(h) ==> t.today
    ensures 20 <= h <= 23 ==> forall t :: t in TasksForHour(h) ==> !t.today
  {
    TasksAt(h);
  }

  /** No city is collected twice in the same hour. */
  lemma NoCityTwicePerHour(h: int)
    ensures NoRepeatedCity(TasksForHour(h))
  {
    AllCitiesDistinct();
    if 20 <= h <= 23 {
      EveningCities(h);
    } else if 14 <= h <= 16 {
      AfternoonCities(h);
    } else {
      TasksAt(h);
    }
  }

  /** The evening lists are prefixes of the schedule order. */
  lemma EveningCities(h: int)
    requires 20 <= h <= 23
    ensures |TasksForHour(h)| <= 7
    ensures forall i :: 0 <= i < |TasksForHour(h)| ==> TasksForHour(h)[i].city == AllCitiesToday[i].city
  {
    TasksAt(h);
  }

  /** The afternoon lists are suffixes of the schedule order. */
  lemma AfternoonCities(h: int)
    requires 14 <= h <= 16
    ensures |TasksForHour(h)| <= 7
    ensures forall i :: 0 <= i < |TasksForHour(h)| ==> TasksForHour(h)[i].city == AllCitiesToday[7 - |TasksForHour(h)| + i].city
  {
    TasksAt(h);
  }

  /** The full hourly cycle names no city twice. */
  lemma AllCitiesDistinct()
    ensures NoRepeatedCity(AllCitiesToday)
  {
  }

  /** Every scheduled city has an entry in all four configuration tables. */
  lemma ScheduledCitiesConfigured(h: int)
    ensures forall t :: t in TasksForHour(h) ==> t.city in Cities
    ensures forall t :: t in TasksForHour(h) ==>
      t.city in HighSeries && t.city in LowSeries && t.city in MeteoEnsembles && t.city in CityCoords
  {
    TasksAt(h);
  }

  /** The last hour at which each city's today's data is collected. */
  function LastTodayHour(city: string): int {
    if city in {"ny", "mia", "phil"} then 13
    else if city in {"chi", "aus"} then 14
    else if city == "den" then 15
    else if city == "la" then 16
    else -1
  }

  /** The first hour at which each city's tomorrow's data is collected
      (24: never). */
  function FirstTomorrowHour(city: string): int {
    if city in {"ny", "mia", "phil"} then 20
    else if city in {"chi", "aus"} then 22
    else if city == "den" then 23
    else 24
  }

  /** Each city's today window: today's data is collected from hour 0
      through LastTodayHour. */
  lemma TodayWindow(h: int, city: string)
    ensures Task(city, true) in TasksForHour(h) <==> 0 <= h <= LastTodayHour(city)
  {
    TasksAt(h);
    if 0 <= h <= 13 {
    } else if h == 14 {
    } else if h == 15 {
    } else if h == 16 {
    }
  }

  /** Each city's tomorrow window: tomorrow's data is collected from
      FirstTomorrowHour through hour 23. */
  lemma TomorrowWindow(h: int, city: string)
    ensures Task(city, false) in TasksForHour(h) <==> FirstTomorrowHour(city) <= h <= 23
  {
    TasksAt(h);
    if 20 <= h <= 21 {
    } else if h == 22 {
    } else if h == 23 {
    }
  }
}
