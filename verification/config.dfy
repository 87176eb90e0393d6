/** The studio's application configuration: hourly price, the station roster,
    the bike models and the push key, with the two built-in defaults and the
    shallow merge that `updateConfig` performs. */
module Config {
  import opened Wrappers
  import Seqs

  datatype StationStatus = Available | Maintenance | Disabled

  /** One station. Every field but the id is optional in the stored JSON:
      configurations written by the first version carry only the legacy
      `bikeModel` text, later ones a model id, a status and a display name. */
  datatype Station = Station(
    stationId: int,
    bikeModelId: Option<string>,
    status: Option<StationStatus>,
    name: Option<string>,
    legacyModel: Option<string>)

  datatype BikeModel = BikeModel(id: string, name: string, description: Option<string>)

  datatype AppConfig = AppConfig(
    pricePerHour: real,
    stations: seq<Station>,
    bikeModels: Option<seq<BikeModel>>,
    serverChanKey: Option<string>,
    updatedAt: string)

  /** The built-in configuration of the local store: 100 per hour and four
      stations described only by their legacy model text. `loadedAt` is the
      time the module was loaded. */
  function LocalDefaultConfig(loadedAt: string): AppConfig {
    AppConfig(100.0,
      [Station(1, None, None, None, Some("Stages bike")),
       Station(2, None, None, None, Some("Stages bike")),
       Station(3, None, None, None, Some("Neo bike")),
       Station(4, None, None, None, Some("Neo bike"))],
      None, None, loadedAt)
  }

  const StagesModel: BikeModel := BikeModel("stages", "Stages Bike", Some("专业功率训练骑行台"))
  const NeoModel: BikeModel := BikeModel("neo", "Neo Bike", Some("智能模拟骑行台"))

  /** The configuration the booking page and the admin panel start from before
      the stored one has loaded: two models and four available named stations. */
  function AppDefaultConfig(now: string): AppConfig {
    AppConfig(100.0,
      [Station(1, Some("stages"), Some(Available), Some("1号骑行台"), None),
       Station(2, Some("stages"), Some(Available), Some("2号骑行台"), None),
       Station(3, Some("neo"), Some(Available), Some("3号骑行台"), None),
       Station(4, Some("neo"), Some(Available), Some("4号骑行台"), None)],
      Some([StagesModel, NeoModel]), None, now)
  }

  /** Every station of the application default names a model the default defines. */
  lemma AppDefaultModelsResolve(now: string)
    ensures var cfg := AppDefaultConfig(now);
      forall i :: 0 <= i < |cfg.stations| ==>
        cfg.stations[i].bikeModelId.Some?
        && exists j :: 0 <= j < |cfg.bikeModels.value| && cfg.bikeModels.value[j].id == cfg.stations[i].bikeModelId.value
  {
    var cfg := AppDefaultConfig(now);
    assert cfg.bikeModels.value[0].id == "stages";
    assert cfg.bikeModels.value[1].id == "neo";
  }

  /** A `Partial<AppConfig>`: the fields the caller supplies. For the push key
      `Some(None)` is a key present with value `undefined`, which the spread
      copies and so clears the stored key. */
  datatype ConfigPatch = ConfigPatch(
    pricePerHour: Option<real>,
    stations: Option<seq<Station>>,
    bikeModels: Option<seq<BikeModel>>,
    serverChanKey: Option<Option<string>>)

  const EmptyPatch: ConfigPatch := ConfigPatch(None, None, None, None)

  /** `{...current, ...patch, updatedAt: now}`. */
  function Merge(current: AppConfig, patch: ConfigPatch, now: string): AppConfig {
    AppConfig(
      patch.pricePerHour.GetOr(current.pricePerHour),
      patch.stations.GetOr(current.stations),
      if patch.bikeModels.Some? then patch.bikeModels else current.bikeModels,
      patch.serverChanKey.GetOr(current.serverChanKey),
      now)
  }

  /** Two patches in a row, the later one winning field by field. */
  function Then(p: ConfigPatch, q: ConfigPatch): ConfigPatch {
    ConfigPatch(
      if q.pricePerHour.Some? then q.pricePerHour else p.pricePerHour,
      if q.stations.Some? then q.stations else p.stations,
      if q.bikeModels.Some? then q.bikeModels else p.bikeModels,
      if q.serverChanKey.Some? then q.serverChanKey else p.serverChanKey)
  }

  /** Merging two patches in turn is merging their combination once; only the
      last time stamp survives. */
  lemma MergeCompose(c: AppConfig, p: ConfigPatch, q: ConfigPatch, t1: string, t2: string)
    ensures Merge(Merge(c, p, t1), q, t2) == Merge(c, Then(p, q), t2)
  {
  }

  /** Merging the same patch again changes nothing but the time stamp. */
  lemma MergeIdempotent(c: AppConfig, p: ConfigPatch, t1: string, t2: string)
    ensures Merge(Merge(c, p, t1), p, t2) == Merge(c, p, t2)
  {
    MergeCompose(c, p, p, t1, t2);
    assert Then(p, p) == p;
  }

  /** An empty patch only refreshes the time stamp. */
  lemma MergeEmpty(c: AppConfig, now: string)
    ensures Merge(c, EmptyPatch, now) == c.(updatedAt := now)
  {
  }

  // ---------------------------------------------------------------------------
  // Model names for the admin statistics.

  /** The first configured model whose id the station names, reading a
      missing model list as empty. */
  function ModelOf(cfg: AppConfig, modelId: Option<string>): (r: Option<BikeModel>)
    ensures r.Some? ==> cfg.bikeModels.Some? && r.value in cfg.bikeModels.value && modelId == Some(r.value.id)
    ensures r.Some? ==> exists i :: 0 <= i < |cfg.bikeModels.value| && cfg.bikeModels.value[i] == r.value
                                    && forall j :: 0 <= j < i ==> modelId != Some(cfg.bikeModels.value[j].id)
    ensures r.None? <==>
      || cfg.bikeModels.None?
      || forall j :: 0 <= j < |cfg.bikeModels.value| ==> modelId != Some(cfg.bikeModels.value[j].id)
  {
    if cfg.bikeModels.None? then None
    else
      var r := Seqs.Find(cfg.bikeModels.value, (m: BikeModel) => modelId == Some(m.id));
      assert r.Some? ==> r.value in cfg.bikeModels.value;
      r
  }

  /** `bikeModels.find(m => m.id === modelId)?.name || fallback` once a
      missing model list counts as empty: the named model's name, or the
      fallback when there is no such model or its name is empty. */
  function ModelNameOr(cfg: AppConfig, modelId: Option<string>, fallback: string): (r: string)
    ensures ModelOf(cfg, modelId).Some? && ModelOf(cfg, modelId).value.name != "" ==> r == ModelOf(cfg, modelId).value.name
    ensures ModelOf(cfg, modelId).None? || ModelOf(cfg, modelId).value.name == "" ==> r == fallback
    ensures cfg.bikeModels.None? ==> r == fallback
  {
    var m := ModelOf(cfg, modelId);
    if m.Some? && m.value.name != "" then m.value.name else fallback
  }

  /** The same expression as written, without `?.` after `bikeModels`: when
      the configuration has no model list, reading `find` of it throws. */
  function ModelNameAsWritten(cfg: AppConfig, modelId: Option<string>, fallback: string): (r: Result<string>)
    ensures r.Err? <==> cfg.bikeModels.None?
    ensures r.Ok? ==> r.value == ModelNameOr(cfg, modelId, fallback)
  {
    if cfg.bikeModels.None? then Err("TypeError: Cannot read properties of undefined (reading 'find')")
    else Ok(ModelNameOr(cfg, modelId, fallback))
  }

  /** A station of the application default resolves to its model's name. */
  lemma DefaultStationModelName(now: string, fallback: string)
    ensures ModelNameOr(AppDefaultConfig(now), Some("neo"), fallback) == "Neo Bike"
    ensures ModelNameOr(AppDefaultConfig(now), Some("stages"), fallback) == "Stages Bike"
  {
    var ms := AppDefaultConfig(now).bikeModels.value;
    assert ms[0].id == "stages" && ms[1].id == "neo";
  }
}
