/** The station picker of the booking page: which of the stations can be
    chosen for the selected date, start and duration, and which model text
    each card shows. */
module StationSelector {
  import opened Wrappers
  import opened Bookings
  import opened Time
  import Seqs
  import Store
  import Config
  import BookingHooks

  /** The ids the picker asks the store about. */
  const CheckedIds: seq<int> := [1, 2, 3, 4]

  /** A station the picker offers: its check threw (a failed check counts as
      free) or the store reports no confirmed or pending booking overlapping
      the interval. */
  predicate Offered(bs: seq<Booking>, id: int, date: string, time: string, halfHours: nat, throws: set<int>) {
    id in throws || Store.CheckStationAvailability(bs, id, date, time, BookingHooks.RealtimeEnd(time, halfHours), None)
  }

  /** The effect that fills `availableStationIds`. `throws` are the ids whose
      store check throws; `outerFails` says whether anything outside the
      per-station checks throws. No date or no start time, or an outer
      failure, offers all four. */
  function AvailableIds(bs: seq<Booking>, date: Option<string>, time: string, halfHours: nat,
                        throws: set<int>, outerFails: bool): (r: seq<int>)
    ensures date.None? || time == "" || outerFails ==> r == CheckedIds
    ensures Seqs.IsSubsequence(r, CheckedIds)
    ensures date.Some? && time != "" && !outerFails ==>
      forall x :: x in r <==> x in CheckedIds && Offered(bs, x, date.value, time, halfHours, throws)
  {
    if date.None? || time == "" || outerFails then CheckedIds
    else Seqs.Filter(CheckedIds, (x: int) => Offered(bs, x, date.value, time, halfHours, throws))
  }

  /** With no check throwing and a start time with whole fields, the picker
      offers exactly the stations the older hook's `getAvailableStations`
      returns: the end label it writes reads back as the right minute. */
  lemma AgreesWithLegacyHook(bs: seq<Booking>, date: string, time: string, h: nat, m: nat, halfHours: nat)
    requires date != ""
    requires time != ""
    requires ClockParts(time) == Some((h, m))
    ensures AvailableIds(bs, Some(date), time, halfHours, {}, false)
            == BookingHooks.GetAvailableStations(bs, Some(date), time, halfHours)
  {
    forall i | 0 <= i < |CheckedIds|
      ensures Offered(bs, CheckedIds[i], date, time, halfHours, {})
              == BookingHooks.IsStationAvailable(bs, CheckedIds[i], date, time, halfHours)
    {
      BookingHooks.LegacyAvailabilityIsStoreCheck(bs, CheckedIds[i], date, time, h, m, halfHours);
    }
    Seqs.FilterCongruent(CheckedIds,
      (x: int) => Offered(bs, x, date, time, halfHours, {}),
      (x: int) => BookingHooks.IsStationAvailable(bs, x, date, time, halfHours));
  }

  /** A station whose check throws is offered whatever the bookings say. */
  lemma FailedCheckOffers(bs: seq<Booking>, date: string, time: string, halfHours: nat, id: int, throws: set<int>)
    requires id in CheckedIds && id in throws
    ensures id in AvailableIds(bs, Some(date), time, halfHours, throws, false)
  {
  }

  /** A booking that is not cancelled blocks a request for its own non-empty interval. */
  lemma OwnIntervalBlocks(b: Booking)
    requires b.status != Cancelled
    requires ParseTime(b.startTime).Some? && ParseTime(b.endTime).Some?
    requires ParseTime(b.startTime).value < ParseTime(b.endTime).value
    ensures Store.Blocks(b, b.stationId, b.date, b.startTime, b.endTime, None)
  {
  }

  /** A confirmed booking of the same station, date and interval makes the
      picker refuse the station once its check runs. */
  lemma BookedStationNotOffered(bs: seq<Booking>, b: Booking, time: string, h: nat, m: nat, halfHours: nat, throws: set<int>)
    requires b in bs && b.status == Confirmed && b.stationId in CheckedIds && b.stationId !in throws
    requires time != ""
    requires ClockParts(time) == Some((h, m)) && halfHours > 0
    requires b.startTime == time && b.endTime == BookingHooks.RealtimeEnd(time, halfHours)
    ensures b.stationId !in AvailableIds(bs, Some(b.date), time, halfHours, throws, false)
  {
    var i :| 0 <= i < |bs| && bs[i] == b;
    BookingHooks.RealtimeEndReadsBack(time, h, m, halfHours);
    OwnIntervalBlocks(b);
    assert !Store.CheckStationAvailability(bs, b.stationId, b.date, time, b.endTime, None);
    assert !Offered(bs, b.stationId, b.date, time, halfHours, throws);
  }

  // ---------------------------------------------------------------------------
  // Only ids 1 to 4 are ever checked.

  /** A station the roster holds beyond id 4 (the station manager numbers a
      new station one past the largest id) is never offered, so it can never
      be booked from the page. */
  lemma FifthStationNeverOffered(bs: seq<Booking>, date: Option<string>, time: string, halfHours: nat,
                                 throws: set<int>, outerFails: bool, id: int)
    requires id !in CheckedIds
    ensures id !in AvailableIds(bs, date, time, halfHours, throws, outerFails)
  {
  }

  /** The ids of the configured roster, in order. */
  function RosterIds(cfg: Config.AppConfig): (r: seq<int>)
    ensures |r| == |BookingHooks.BikeStations(cfg)|
    ensures forall i :: 0 <= i < |r| ==> r[i] == BookingHooks.BikeStations(cfg)[i].id
  {
    var views := BookingHooks.BikeStations(cfg);
    seq(|views|, i requires 0 <= i < |views| => views[i].id)
  }

  /** The check run over the stations the page shows rather than over 1 to 4. */
  function RosterAvailableIds(cfg: Config.AppConfig, bs: seq<Booking>, date: Option<string>, time: string,
                              halfHours: nat, throws: set<int>, outerFails: bool): (r: seq<int>)
    ensures date.None? || time == "" || outerFails ==> r == RosterIds(cfg)
    ensures Seqs.IsSubsequence(r, RosterIds(cfg))
    ensures date.Some? && time != "" && !outerFails ==>
      forall x :: x in r <==> x in RosterIds(cfg) && Offered(bs, x, date.value, time, halfHours, throws)
  {
    if date.None? || time == "" || outerFails then
      Seqs.SubsequenceOfSelf(RosterIds(cfg));
      RosterIds(cfg)
    else Seqs.Filter(RosterIds(cfg), (x: int) => Offered(bs, x, date.value, time, halfHours, throws))
  }

  /** Every station the page shows is offered when nothing blocks it. */
  lemma RosterOffersEveryFreeStation(cfg: Config.AppConfig, bs: seq<Booking>, date: string, time: string,
                                     halfHours: nat, throws: set<int>, i: nat)
    requires i < |BookingHooks.BikeStations(cfg)|
    requires Offered(bs, BookingHooks.BikeStations(cfg)[i].id, date, time, halfHours, throws)
    ensures BookingHooks.BikeStations(cfg)[i].id in RosterAvailableIds(cfg, bs, Some(date), time, halfHours, throws, false)
  {
    assert RosterIds(cfg)[i] == BookingHooks.BikeStations(cfg)[i].id;
  }

  /** On the four-station default roster the corrected check is the original one. */
  lemma RosterCheckOnDefault(now: string, bs: seq<Booking>, date: Option<string>, time: string,
                             halfHours: nat, throws: set<int>, outerFails: bool)
    ensures RosterAvailableIds(Config.AppDefaultConfig(now), bs, date, time, halfHours, throws, outerFails)
            == AvailableIds(bs, date, time, halfHours, throws, outerFails)
  {
    BookingHooks.FallbackIsDefaultRoster(now);
    assert RosterIds(Config.AppDefaultConfig(now)) == CheckedIds;
  }

  // ---------------------------------------------------------------------------
  // The model line of a card.

  /** `config.stations?.find(s => s.stationId === id)`. */
  function StationEntry(cfg: Config.AppConfig, id: int): (r: Option<Config.Station>)
    ensures r.None? <==> forall i :: 0 <= i < |cfg.stations| ==> cfg.stations[i].stationId != id
    ensures r.Some? ==> r.value in cfg.stations && r.value.stationId == id
    ensures r.Some? ==> exists i :: 0 <= i < |cfg.stations| && cfg.stations[i] == r.value
                                    && forall j :: 0 <= j < i ==> cfg.stations[j].stationId != id
  {
    Seqs.Find(cfg.stations, (s: Config.Station) => s.stationId == id)
  }

  /** `getStationModel`: the legacy `bikeModel` text of the first configured
      station with the id, or 'Stages bike' when there is none or it is empty. */
  function StationModel(cfg: Config.AppConfig, id: int): (r: string)
    ensures r == "Stages bike"
            || exists i :: 0 <= i < |cfg.stations| && cfg.stations[i].stationId == id
                 && cfg.stations[i].legacyModel == Some(r) && r != ""
    ensures forall i :: 0 <= i < |cfg.stations| && cfg.stations[i].stationId == id
                        && (forall j :: 0 <= j < i ==> cfg.stations[j].stationId != id) ==>
      var legacy := cfg.stations[i].legacyModel;
      r == if legacy.Some? && legacy.value != "" then legacy.value else "Stages bike"
    ensures (forall i :: 0 <= i < |cfg.stations| ==> cfg.stations[i].stationId != id) ==> r == "Stages bike"
  {
    var e := StationEntry(cfg, id);
    if e.Some? && e.value.legacyModel.Some? && e.value.legacyModel.value != "" then e.value.legacyModel.value
    else "Stages bike"
  }

  /** Configurations written by the current admin panel carry a model id and no
      legacy text, so every card reads 'Stages bike': on the application default
      stations 3 and 4, which are Neo bikes, are labelled Stages. */
  lemma NeoStationShownAsStages(now: string)
    ensures Config.AppDefaultConfig(now).stations[2] == Config.Station(3, Some("neo"), Some(Config.Available), Some("3号骑行台"), None)
    ensures StationModel(Config.AppDefaultConfig(now), 3) == "Stages bike"
  {
  }

  /** The configured model a station's model id refers to, if any. */
  function ConfiguredModel(cfg: Config.AppConfig, id: int): (r: Option<Config.BikeModel>)
    ensures r.Some? ==> StationEntry(cfg, id).Some? && cfg.bikeModels.Some?
                        && r.value in cfg.bikeModels.value
                        && StationEntry(cfg, id).value.bikeModelId == Some(r.value.id)
    ensures StationEntry(cfg, id).Some? && cfg.bikeModels.Some?
            && (exists j :: 0 <= j < |cfg.bikeModels.value|
                  && StationEntry(cfg, id).value.bikeModelId == Some(cfg.bikeModels.value[j].id))
            ==> r.Some?
  {
    var e := StationEntry(cfg, id);
    if e.Some? && cfg.bikeModels.Some? then
      Seqs.Find(cfg.bikeModels.value, (x: Config.BikeModel) => e.value.bikeModelId == Some(x.id))
    else None
  }

  /** The card's model line as the roster means it: the name of the model the
      station refers to, falling back to the legacy text and then 'Stages bike'. */
  function ResolvedModel(cfg: Config.AppConfig, id: int): string {
    var known := ConfiguredModel(cfg, id);
    if known.Some? then known.value.name else StationModel(cfg, id)
  }

  /** A station whose model id names a listed model shows the name of a model
      with that id. */
  lemma ResolvedNamesReferencedModel(cfg: Config.AppConfig, id: int)
    requires StationEntry(cfg, id).Some? && cfg.bikeModels.Some?
    requires exists j :: 0 <= j < |cfg.bikeModels.value|
               && StationEntry(cfg, id).value.bikeModelId == Some(cfg.bikeModels.value[j].id)
    ensures exists j :: 0 <= j < |cfg.bikeModels.value|
              && StationEntry(cfg, id).value.bikeModelId == Some(cfg.bikeModels.value[j].id)
              && ResolvedModel(cfg, id) == cfg.bikeModels.value[j].name
  {
    var m := ConfiguredModel(cfg, id).value;
    var j :| 0 <= j < |cfg.bikeModels.value| && cfg.bikeModels.value[j] == m;
  }

  /** The resolved name of the default Neo stations is 'Neo Bike'. */
  lemma ResolvedNeoStation(now: string, id: int)
    requires id == 3 || id == 4
    ensures ResolvedModel(Config.AppDefaultConfig(now), id) == "Neo Bike"
  {
    var cfg := Config.AppDefaultConfig(now);
    var e := StationEntry(cfg, id);
    assert e.Some? && e.value.bikeModelId == Some("neo");
    assert cfg.bikeModels.value[1].id == "neo";
    assert ConfiguredModel(cfg, id).Some?;
    assert ConfiguredModel(cfg, id).value.id == "neo";
    assert cfg.bikeModels.value[0].id != "neo";
  }

  /** On a legacy configuration (no model ids) the resolved name is the old one. */
  lemma ResolvedAgreesOnLegacyConfig(cfg: Config.AppConfig, id: int)
    requires forall i :: 0 <= i < |cfg.stations| ==> cfg.stations[i].bikeModelId.None?
    ensures ResolvedModel(cfg, id) == StationModel(cfg, id)
  {
  }
}
