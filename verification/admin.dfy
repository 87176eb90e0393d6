/** The coach's admin panel: month navigation, the price and push-key
    settings, the statistics for the chosen day, month, year or all time with
    an optional phone search, the per-station breakdown, and the ordered
    booking list. */
module Admin {
  import opened Wrappers
  import opened Bookings
  import opened Time
  import Config
  import Seqs
  import Strings

  // ---------------------------------------------------------------------------
  // Month navigation.

  /** The month view's cursor: a zero-based month and a year. */
  datatype Cursor = Cursor(month: int, year: int)

  /** `changeMonth`: past December the month restarts at January of the next
      year, before January at December of the previous one. */
  function ChangeMonth(c: Cursor, delta: int): (r: Cursor)
    ensures 0 <= r.month <= 11
    ensures c.year - 1 <= r.year <= c.year + 1
  {
    var m := c.month + delta;
    if m > 11 then Cursor(0, c.year + 1)
    else if m < 0 then Cursor(11, c.year - 1)
    else Cursor(m, c.year)
  }

  /** One step forward or back moves exactly one calendar month. */
  lemma ChangeMonthIsOneMonth(c: Cursor, delta: int)
    requires 0 <= c.month <= 11
    requires delta == 1 || delta == -1
    ensures var r := ChangeMonth(c, delta);
      r.year * 12 + r.month == c.year * 12 + c.month + delta
  {
  }

  /** A step back undoes a step forward, and the other way round. */
  lemma ChangeMonthRoundTrip(c: Cursor, delta: int)
    requires 0 <= c.month <= 11
    requires delta == 1 || delta == -1
    ensures ChangeMonth(ChangeMonth(c, delta), -delta) == c
  {
    ChangeMonthIsOneMonth(c, delta);
    ChangeMonthIsOneMonth(ChangeMonth(c, delta), -delta);
  }

  // ---------------------------------------------------------------------------
  // Settings.

  /** `handleSavePrice`, with `parseFloat`'s result passed in (None for NaN):
      a missing or non-positive price is refused with a message and the
      configuration kept; otherwise only the price and the time stamp change. */
  function SavePrice(cfg: Config.AppConfig, parsed: Option<real>, now: string): (r: (Config.AppConfig, Option<string>))
    ensures parsed.None? || parsed.value <= 0.0 ==> r == (cfg, Some("请输入有效的价格"))
    ensures parsed.Some? && parsed.value > 0.0 ==>
      r.1.None? && r.0 == cfg.(pricePerHour := parsed.value, updatedAt := now)
  {
    if parsed.None? || parsed.value <= 0.0 then (cfg, Some("请输入有效的价格"))
    else (Config.Merge(cfg, Config.ConfigPatch(Some(parsed.value), None, None, None), now), None)
  }

  /** The price stays positive whatever is typed. */
  lemma SavePriceKeepsPricePositive(cfg: Config.AppConfig, parsed: Option<real>, now: string)
    requires cfg.pricePerHour > 0.0
    ensures SavePrice(cfg, parsed, now).0.pricePerHour > 0.0
  {
  }

  /** `handleSaveServerChanKey`: the trimmed key, or no key when it is blank. */
  function SaveServerChanKey(cfg: Config.AppConfig, key: string, now: string): (r: Config.AppConfig)
    ensures r.serverChanKey.None? <==> Strings.AllWhitespace(key)
    ensures r.serverChanKey.Some? ==> r.serverChanKey.value == Strings.Trim(key)
    ensures r == cfg.(serverChanKey := r.serverChanKey, updatedAt := now)
  {
    var t := Strings.Trim(key);
    Config.Merge(cfg, Config.ConfigPatch(None, None, None, Some(if t == "" then None else Some(t))), now)
  }

  /** Saving the key the dialog shows again (`config.serverChanKey || ''`) keeps it. */
  lemma ResavingKeyKeepsIt(cfg: Config.AppConfig, key: string, t1: string, t2: string)
    ensures var c1 := SaveServerChanKey(cfg, key, t1);
      SaveServerChanKey(c1, c1.serverChanKey.GetOr(""), t2).serverChanKey == c1.serverChanKey
  {
    Strings.TrimIdempotent(key);
  }

  // ---------------------------------------------------------------------------
  // Which bookings the statistics and the list cover.

  /** The statistics view; a day is given by its 'YYYY-MM-DD' key. */
  datatype View = Day(key: string) | Month | Year | ByStation

  /** The year and zero-based month `new Date(key)` yields for a well-formed
      'YYYY-MM-DD' key; None where it yields an invalid date. */
  function YearMonth(key: string): (r: Option<(int, int)>)
    ensures r.Some? ==> |key| == 10 && key[4] == '-' && key[7] == '-'
    ensures r.Some? ==> 0 <= r.value.1 <= 11
  {
    if |key| == 10 && Strings.AllDigits(key[..4]) && key[4] == '-' && Strings.AllDigits(key[5..7])
       && key[7] == '-' && Strings.AllDigits(key[8..])
       && 1 <= Strings.DecValue(key[5..7]) <= 12 && 1 <= Strings.DecValue(key[8..]) <= 31
    then Some((Strings.DecValue(key[..4]) as int, Strings.DecValue(key[5..7]) - 1))
    else None
  }

  /** A four-digit year is written with exactly four digits. */
  lemma FourDigitYear(y: nat)
    requires 1000 <= y <= 9999
    ensures |Strings.NatToDec(y)| == 4
  {
    assert |Strings.NatToDec(y / 1000)| == 1;
    assert |Strings.NatToDec(y / 100)| == |Strings.NatToDec(y / 1000)| + 1;
    assert |Strings.NatToDec(y / 10)| == |Strings.NatToDec(y / 100)| + 1;
  }

  /** The `YYYY-MM-DD` key `toISOString` gives for a calendar day reads back
      as its year and its zero-based month, as `getFullYear` and `getMonth` do. */
  lemma YearMonthOfKey(y: nat, m: nat, d: nat)
    requires 1000 <= y <= 9999 && 1 <= m <= 12 && 1 <= d <= 31
    ensures YearMonth(Strings.NatToDec(y) + "-" + Strings.Pad2(m) + "-" + Strings.Pad2(d)) == Some((y as int, m as int - 1))
  {
    FourDigitYear(y);
    var ys, ms, ds := Strings.NatToDec(y), Strings.Pad2(m), Strings.Pad2(d);
    var key := ys + "-" + ms + "-" + ds;
    assert key[..4] == ys;
    assert key[5..7] == ms;
    assert key[8..] == ds;
  }

  /** The view's date filter. */
  predicate InView(b: Booking, v: View, c: Cursor) {
    match v
    case Day(key) => b.date == key
    case Month => YearMonth(b.date) == Some((c.year, c.month))
    case Year => YearMonth(b.date).Some? && YearMonth(b.date).value.0 == c.year
    case ByStation => true
  }

  /** The phone search: an empty query keeps everything. */
  predicate PhoneMatches(b: Booking, query: string) {
    query == "" || Strings.Contains(b.memberPhone, query)
  }

  /** The bookings the view and the search keep, each as often as stored. */
  function Selected(bs: seq<Booking>, v: View, c: Cursor, query: string): (r: seq<Booking>)
    ensures forall x {:trigger multiset(r)[x]} ::
      multiset(r)[x] == if InView(x, v, c) && PhoneMatches(x, query) then multiset(bs)[x] else 0
    ensures forall x :: x in r <==> x in bs && InView(x, v, c) && PhoneMatches(x, query)
  {
    var inView := Seqs.Filter(bs, (b: Booking) => InView(b, v, c));
    if query == "" then inView
    else Seqs.Filter(inView, (b: Booking) => Strings.Contains(b.memberPhone, query))
  }

  /** A month's bookings lie within its year. */
  lemma MonthWithinYear(b: Booking, c: Cursor)
    requires InView(b, Month, c)
    ensures InView(b, Year, c)
  {
  }

  // ---------------------------------------------------------------------------
  // Statistics.

  datatype Stats = Stats(
    confirmedCount: nat,
    cancelledCount: nat,
    totalCount: nat,
    revenue: Option<real>,
    totalHours: Option<real>)

  predicate IsCancelled(b: Booking) {
    b.status == Cancelled
  }

  /** `stats` without the station breakdown: counts by status, the revenue of
      the confirmed bookings and their hours. Pending bookings count only in
      the total. */
  function ComputeStats(bs: seq<Booking>, v: View, c: Cursor, query: string, price: real): (r: Stats)
    ensures r.totalCount == |Selected(bs, v, c, query)|
    ensures r.confirmedCount == Seqs.Count(Selected(bs, v, c, query), IsConfirmed)
    ensures r.cancelledCount == Seqs.Count(Selected(bs, v, c, query), IsCancelled)
    ensures r.confirmedCount + r.cancelledCount <= r.totalCount
    ensures r.totalHours == TotalHours(Seqs.Filter(Selected(bs, v, c, query), IsConfirmed))
    ensures r.revenue == MulNum(r.totalHours, price)
  {
    var s := Selected(bs, v, c, query);
    var confirmed := Seqs.Filter(s, IsConfirmed);
    Seqs.CountDisjoint(s, IsConfirmed, IsCancelled);
    RevenueIsPriceTimesConfirmedHours(s, price);
    Stats(|confirmed|, |Seqs.Filter(s, IsCancelled)|, |s|, Revenue(s, price), TotalHours(confirmed))
  }

  /** A pending booking shows in the total but in neither status count. */
  lemma PendingCountsOnlyInTotal(b: Booking, v: View, c: Cursor, query: string, price: real)
    requires b.status == Pending && InView(b, v, c) && PhoneMatches(b, query)
    ensures ComputeStats([b], v, c, query, price).totalCount == 1
    ensures ComputeStats([b], v, c, query, price).confirmedCount == 0
    ensures ComputeStats([b], v, c, query, price).cancelledCount == 0
  {
    var s := Selected([b], v, c, query);
    assert b in s;
    assert Seqs.Filter(s, IsConfirmed) == [];
    assert Seqs.Filter(s, IsCancelled) == [];
  }

  /** A month's total never exceeds its year's. */
  lemma MonthTotalWithinYear(bs: seq<Booking>, c: Cursor, query: string, price: real)
    ensures ComputeStats(bs, Month, c, query, price).totalCount <= ComputeStats(bs, Year, c, query, price).totalCount
  {
    var m := (b: Booking) => InView(b, Month, c) && PhoneMatches(b, query);
    var y := (b: Booking) => InView(b, Year, c) && PhoneMatches(b, query);
    Seqs.CountMonotone(bs, m, y);
    assert multiset(Selected(bs, Month, c, query)) == multiset(Seqs.Filter(bs, m));
    assert multiset(Selected(bs, Year, c, query)) == multiset(Seqs.Filter(bs, y));
  }

  // ---------------------------------------------------------------------------
  // The per-station breakdown.

  datatype StationStat = StationStat(
    stationId: int,
    stationName: Option<string>,
    bikeModel: string,
    status: Option<Config.StationStatus>,
    count: nat,
    hours: Option<real>,
    revenue: Option<real>)

  /** The fallback model text of the breakdown. */
  const UnknownModel: string := "未知型号"

  predicate NotDisabled(s: Config.Station) {
    s.status != Some(Config.Disabled)
  }

  /** The stations the breakdown lists, in configuration order. */
  function Listed(cfg: Config.AppConfig): (r: seq<Config.Station>)
    ensures forall s :: s in r <==> s in cfg.stations && NotDisabled(s)
    ensures forall x {:trigger multiset(r)[x]} :: multiset(r)[x] == if NotDisabled(x) then multiset(cfg.stations)[x] else 0
    ensures Seqs.IsSubsequence(r, cfg.stations)
  {
    Seqs.Filter(cfg.stations, NotDisabled)
  }

  /** One row: the station's confirmed bookings among those selected, their
      hours and revenue, and its model's name. */
  function RowFor(selected: seq<Booking>, cfg: Config.AppConfig, s: Config.Station, price: real): (r: StationStat)
    ensures r.stationId == s.stationId && r.stationName == s.name && r.status == s.status
    ensures r.count == Seqs.Count(selected, (b: Booking) => b.stationId == s.stationId && IsConfirmed(b))
    ensures r.hours == TotalHours(Seqs.Filter(selected, (b: Booking) => b.stationId == s.stationId && IsConfirmed(b)))
    ensures r.revenue == MulNum(r.hours, price)
    ensures r.bikeModel == Config.ModelNameOr(cfg, s.bikeModelId, UnknownModel)
  {
    var own := Seqs.Filter(selected, (b: Booking) => b.stationId == s.stationId && IsConfirmed(b));
    RevenueIsPriceTimesConfirmedHours(own, price);
    Seqs.FilterKeepsAll(own, IsConfirmed);
    StationStat(s.stationId, s.name, Config.ModelNameOr(cfg, s.bikeModelId, UnknownModel), s.status,
                |own|, TotalHours(own), Revenue(own, price))
  }

  /** `stationStats` with a missing model list read as empty: one row per
      station not disabled, in configuration order. */
  function StationStats(selected: seq<Booking>, cfg: Config.AppConfig, price: real): (r: seq<StationStat>)
    ensures |r| == |Listed(cfg)|
    ensures forall i :: 0 <= i < |r| ==> r[i] == RowFor(selected, cfg, Listed(cfg)[i], price)
  {
    var listed := Listed(cfg);
    seq(|listed|, i requires 0 <= i < |listed| => RowFor(selected, cfg, listed[i], price))
  }

  /** `stationStats` as written: `config.bikeModels.find` throws when the
      configuration has no model list and some station is listed. */
  function StationStatsAsWritten(selected: seq<Booking>, cfg: Config.AppConfig, price: real): (r: Result<seq<StationStat>>)
    ensures r.Err? <==> cfg.bikeModels.None? && |Listed(cfg)| > 0
    ensures r.Ok? ==> r.value == StationStats(selected, cfg, price)
  {
    var listed := Listed(cfg);
    if |listed| > 0 && Config.ModelNameAsWritten(cfg, listed[0].bikeModelId, UnknownModel).Err? then
      Err(Config.ModelNameAsWritten(cfg, listed[0].bikeModelId, UnknownModel).message)
    else Ok(StationStats(selected, cfg, price))
  }

  /** The local store's built-in configuration has no model list and four
      listed stations, so the breakdown as written throws on it, whatever the
      bookings. */
  lemma StatsThrowOnLocalDefault(selected: seq<Booking>, loadedAt: string, price: real)
    ensures StationStatsAsWritten(selected, Config.LocalDefaultConfig(loadedAt), price).Err?
  {
    var cfg := Config.LocalDefaultConfig(loadedAt);
    assert cfg.stations[0] in Listed(cfg);
  }

  /** With the missing list read as empty, each of those four rows shows the fallback model text. */
  lemma StatsOnLocalDefault(selected: seq<Booking>, loadedAt: string, price: real)
    ensures var r := StationStats(selected, Config.LocalDefaultConfig(loadedAt), price);
      |r| == 4 && forall row :: row in r ==> row.bikeModel == UnknownModel
  {
    var cfg := Config.LocalDefaultConfig(loadedAt);
    assert forall i :: 0 <= i < |cfg.stations| ==> NotDisabled(cfg.stations[i]);
    Seqs.FilterKeepsAll(cfg.stations, NotDisabled);
    StatsWithoutModelList(selected, cfg, price);
  }

  /** Without a model list every row falls back to the unknown-model text. */
  lemma StatsWithoutModelList(selected: seq<Booking>, cfg: Config.AppConfig, price: real)
    requires cfg.bikeModels.None?
    ensures forall r :: r in StationStats(selected, cfg, price) ==> r.bikeModel == UnknownModel
  {
  }

  // ---------------------------------------------------------------------------
  // The booking list.

  /** The list's comparator: later dates first, then earlier start times. */
  predicate ListOrder(a: Booking, b: Booking) {
    (a.date != b.date && Strings.LexLe(b.date, a.date))
    || (a.date == b.date && Strings.LexLe(a.startTime, b.startTime))
  }

  lemma ListOrderIsTotalPreorder()
    ensures Seqs.TotalPreorder(ListOrder)
  {
    forall a: Booking, b: Booking ensures ListOrder(a, b) || ListOrder(b, a) {
      Strings.LexLeTotal(a.date, b.date);
      Strings.LexLeTotal(a.startTime, b.startTime);
    }
    forall a: Booking, b: Booking, c: Booking | ListOrder(a, b) && ListOrder(b, c)
      ensures ListOrder(a, c)
    {
      if a.date == b.date && b.date == c.date {
        Strings.LexLeTransitive(a.startTime, b.startTime, c.startTime);
      } else if a.date != c.date {
        Strings.LexLeReflexive(b.date);
        Strings.LexLeTransitive(c.date, b.date, a.date);
      } else {
        Strings.LexLeAntisymmetric(a.date, b.date);
      }
    }
  }

  /** `viewBookings`: the selected bookings, latest date first and, within a
      date, by start time. */
  function ViewBookings(bs: seq<Booking>, v: View, c: Cursor, query: string): (r: seq<Booking>)
    ensures multiset(r) == multiset(Selected(bs, v, c, query))
    ensures forall i, j :: 0 <= i < j < |r| ==>
      Strings.LexLe(r[j].date, r[i].date) && (r[i].date == r[j].date ==> Strings.LexLe(r[i].startTime, r[j].startTime))
  {
    var s := Selected(bs, v, c, query);
    ListOrderIsTotalPreorder();
    Seqs.SortBySorted(s, ListOrder);
    var r := Seqs.SortBy(s, ListOrder);
    forall i, j | 0 <= i < j < |r|
      ensures Strings.LexLe(r[j].date, r[i].date)
    {
      assert ListOrder(r[i], r[j]);
      Strings.LexLeReflexive(r[i].date);
    }
    r
  }
}
