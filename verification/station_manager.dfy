/** The station-and-model dialog of the admin panel: the roster and the
    model list being edited, with the guards on deleting a booked station,
    deleting a model in use, adding a duplicate model and saving an empty list. */
module StationManager {
  import opened Wrappers
  import opened Config
  import Bookings
  import Seqs
  import Strings

  /** The dialog's lists and its error line. */
  datatype Editor = Editor(stations: seq<Station>, models: seq<BikeModel>, error: string)

  /** Opening the dialog: the stored lists are reloaded and the error cleared. */
  function Open(stations: seq<Station>, models: seq<BikeModel>): (r: Editor)
    ensures r.stations == stations && r.models == models && r.error == ""
  {
    Editor(stations, models, "")
  }

  /** No two stations share an id. */
  predicate DistinctIds(ss: seq<Station>) {
    forall i, j :: 0 <= i < j < |ss| ==> ss[i].stationId != ss[j].stationId
  }

  /** No two models share an id. */
  predicate DistinctModelIds(ms: seq<BikeModel>) {
    forall i, j :: 0 <= i < j < |ms| ==> ms[i].id != ms[j].id
  }

  /** Some model in the list has the id. */
  predicate HasModel(ms: seq<BikeModel>, id: string) {
    exists j :: 0 <= j < |ms| && ms[j].id == id
  }

  /** Every station that names a model names one the list defines. */
  predicate ModelsResolve(e: Editor) {
    forall i :: 0 <= i < |e.stations| && e.stations[i].bikeModelId.Some? ==>
      HasModel(e.models, e.stations[i].bikeModelId.value)
  }

  // ---------------------------------------------------------------------------
  // Stations.

  /** A booking that keeps a station from being deleted: same station, dated
      today or later in string order, not cancelled. */
  predicate IsFuture(b: Bookings.Booking, stationId: int, today: string) {
    b.stationId == stationId && Strings.LexLe(today, b.date) && b.status != Bookings.Cancelled
  }

  /** `checkStationBookings`, with today's date key passed in. */
  function FutureBookings(bs: seq<Bookings.Booking>, stationId: int, today: string): (r: seq<Bookings.Booking>)
    ensures Seqs.IsSubsequence(r, bs)
    ensures forall b :: b in r <==> b in bs && IsFuture(b, stationId, today)
    ensures forall b {:trigger multiset(r)[b]} ::
      multiset(r)[b] == if IsFuture(b, stationId, today) then multiset(bs)[b] else 0
  {
    Seqs.Filter(bs, (b: Bookings.Booking) => IsFuture(b, stationId, today))
  }

  /** `Math.max(0, ...ids)`. */
  function MaxId(ss: seq<Station>): (m: int)
    ensures m >= 0
    ensures forall i :: 0 <= i < |ss| ==> ss[i].stationId <= m
    ensures m == 0 || exists i :: 0 <= i < |ss| && ss[i].stationId == m
  {
    if |ss| == 0 then 0
    else
      var rest := MaxId(ss[1..]);
      if ss[0].stationId > rest then ss[0].stationId
      else
        assert rest != 0 ==> exists i :: 0 <= i < |ss| && ss[i].stationId == rest by {
          if rest != 0 {
            var k :| 0 <= k < |ss[1..]| && ss[1..][k].stationId == rest;
            assert ss[k + 1].stationId == rest;
          }
        }
        rest
  }

  /** `handleAddStation`: a station one past the largest id (at least 1),
      available, on the first model (or '' when there is none), named
      `${id}号骑行台`, appended to the roster. */
  function AddStation(e: Editor): (r: Editor)
    ensures r.models == e.models && r.error == e.error
    ensures |r.stations| == |e.stations| + 1 && r.stations[..|e.stations|] == e.stations
    ensures var s := r.stations[|e.stations|];
      && s.stationId == MaxId(e.stations) + 1
      && s.stationId >= 1
      && (forall i :: 0 <= i < |e.stations| ==> e.stations[i].stationId < s.stationId)
      && s.status == Some(Available)
      && s.bikeModelId == Some(if |e.models| > 0 then e.models[0].id else "")
      && s.name == Some(Strings.IntToDec(s.stationId) + "号骑行台")
  {
    var id := MaxId(e.stations) + 1;
    var s := Station(id, Some(if |e.models| > 0 then e.models[0].id else ""), Some(Available),
                     Some(Strings.IntToDec(id) + "号骑行台"), None);
    e.(stations := e.stations + [s])
  }

  /** Adding a station keeps station ids distinct. */
  lemma AddStationKeepsIdsDistinct(e: Editor)
    requires DistinctIds(e.stations)
    ensures DistinctIds(AddStation(e).stations)
  {
    var r := AddStation(e).stations;
    forall i, j | 0 <= i < j < |r| ensures r[i].stationId != r[j].stationId {
      if j < |e.stations| {
        assert r[i] == e.stations[i] && r[j] == e.stations[j];
      } else {
        assert r[i] == e.stations[i];
      }
    }
  }

  /** With at least one model, the new station names a model that exists. */
  lemma AddStationKeepsModelsResolved(e: Editor)
    requires ModelsResolve(e) && |e.models| > 0
    ensures ModelsResolve(AddStation(e))
  {
    var r := AddStation(e);
    forall i | 0 <= i < |r.stations| && r.stations[i].bikeModelId.Some?
      ensures HasModel(r.models, r.stations[i].bikeModelId.value)
    {
      if i < |e.stations| {
        assert r.stations[i] == e.stations[i];
      } else {
        assert r.models[0].id == r.stations[i].bikeModelId.value;
      }
    }
  }

  /** Adding a station to the four-station default gives it id 5. */
  lemma AddToDefaultRosterIsFifth(now: string)
    ensures AddStation(Open(AppDefaultConfig(now).stations, AppDefaultConfig(now).bikeModels.value)).stations[4].stationId == 5
  {
    var ss := AppDefaultConfig(now).stations;
    assert ss[3].stationId == 4;
  }

  /** The error shown for a station with future bookings. */
  function BookedError(n: nat): string {
    "该骑行台有 " + Strings.IntToDec(n) + " 个未来预约，无法删除"
  }

  /** `handleDeleteStation`, with today's key and the answer to the
      confirmation dialog passed in: refused with a count while the station
      has future bookings, a no-op when not confirmed, and otherwise every
      station with the id is dropped and the error cleared. */
  function DeleteStation(e: Editor, stationId: int, bs: seq<Bookings.Booking>, today: string, confirmed: bool): (r: Editor)
    ensures var n := |FutureBookings(bs, stationId, today)|;
      && (n > 0 ==> r == e.(error := BookedError(n)))
      && (n == 0 && !confirmed ==> r == e)
      && (n == 0 && confirmed ==>
            && r.models == e.models && r.error == ""
            && Seqs.IsSubsequence(r.stations, e.stations)
            && (forall s :: s in r.stations <==> s in e.stations && s.stationId != stationId)
            && forall s {:trigger multiset(r.stations)[s]} ::
                 multiset(r.stations)[s] == if s.stationId != stationId then multiset(e.stations)[s] else 0)
  {
    var n := |FutureBookings(bs, stationId, today)|;
    if n > 0 then e.(error := BookedError(n))
    else if !confirmed then e
    else e.(stations := Seqs.Filter(e.stations, (s: Station) => s.stationId != stationId), error := "")
  }

  /** A station with a booking that is not cancelled, dated today or later,
      stays on the roster whatever the answer to the confirmation. */
  lemma BookedStationStays(e: Editor, stationId: int, bs: seq<Bookings.Booking>, today: string, confirmed: bool, b: Bookings.Booking)
    requires b in bs && b.stationId == stationId && b.status != Bookings.Cancelled
    requires Strings.LexLe(today, b.date)
    ensures DeleteStation(e, stationId, bs, today, confirmed).stations == e.stations
    ensures DeleteStation(e, stationId, bs, today, confirmed).error != ""
  {
    assert b in FutureBookings(bs, stationId, today);
  }

  /** A confirmed delete of a free station leaves no station with that id. */
  lemma DeletedStationGone(e: Editor, stationId: int, bs: seq<Bookings.Booking>, today: string)
    requires |FutureBookings(bs, stationId, today)| == 0
    ensures forall i :: 0 <= i < |DeleteStation(e, stationId, bs, today, true).stations| ==>
      DeleteStation(e, stationId, bs, today, true).stations[i].stationId != stationId
  {
  }

  /** The fields an edit supplies (`Partial<StationConfig>`). */
  datatype StationPatch = StationPatch(bikeModelId: Option<string>, status: Option<StationStatus>, name: Option<string>)

  /** `{ ...s, ...updates }`. */
  function ApplyPatch(s: Station, p: StationPatch): (r: Station)
    ensures r.stationId == s.stationId && r.legacyModel == s.legacyModel
    ensures r.bikeModelId == (if p.bikeModelId.Some? then p.bikeModelId else s.bikeModelId)
    ensures r.status == (if p.status.Some? then p.status else s.status)
    ensures r.name == (if p.name.Some? then p.name else s.name)
  {
    Station(s.stationId,
      if p.bikeModelId.Some? then p.bikeModelId else s.bikeModelId,
      if p.status.Some? then p.status else s.status,
      if p.name.Some? then p.name else s.name,
      s.legacyModel)
  }

  /** `handleUpdateStation`: the patch goes into every station with the id;
      the others, the order and the length are unchanged. */
  function UpdateStation(e: Editor, stationId: int, p: StationPatch): (r: Editor)
    ensures r.models == e.models && r.error == e.error
    ensures |r.stations| == |e.stations|
    ensures forall i :: 0 <= i < |e.stations| ==>
      r.stations[i] == if e.stations[i].stationId == stationId then ApplyPatch(e.stations[i], p) else e.stations[i]
  {
    e.(stations := seq(|e.stations|, i requires 0 <= i < |e.stations| =>
         if e.stations[i].stationId == stationId then ApplyPatch(e.stations[i], p) else e.stations[i]))
  }

  /** Updating never changes an id, so distinct ids stay distinct. */
  lemma UpdateKeepsIdsDistinct(e: Editor, stationId: int, p: StationPatch)
    requires DistinctIds(e.stations)
    ensures DistinctIds(UpdateStation(e, stationId, p).stations)
  {
  }

  /** Applying the same update twice is applying it once. */
  lemma UpdateIdempotent(e: Editor, stationId: int, p: StationPatch)
    ensures UpdateStation(UpdateStation(e, stationId, p), stationId, p) == UpdateStation(e, stationId, p)
  {
  }

  /** An update that names only existing models keeps every station's model resolvable. */
  lemma UpdateKeepsModelsResolved(e: Editor, stationId: int, p: StationPatch)
    requires ModelsResolve(e)
    requires p.bikeModelId.Some? ==> HasModel(e.models, p.bikeModelId.value)
    ensures ModelsResolve(UpdateStation(e, stationId, p))
  {
    var r := UpdateStation(e, stationId, p);
    forall i | 0 <= i < |r.stations| && r.stations[i].bikeModelId.Some?
      ensures HasModel(r.models, r.stations[i].bikeModelId.value)
    {
      assert r.stations[i] == if e.stations[i].stationId == stationId then ApplyPatch(e.stations[i], p) else e.stations[i];
    }
  }

  // ---------------------------------------------------------------------------
  // Models.

  /** The id a new model gets: the name as typed, lower-cased, with each run
      of whitespace replaced by '-'. */
  function ModelId(name: string): (r: string)
    ensures forall k :: 0 <= k < |r| ==> !Strings.IsWhitespace(r[k])
  {
    Strings.DashFacts(Strings.ToLower(name));
    Strings.DashWhitespaceRuns(Strings.ToLower(name))
  }

  /** An id has no capital letter and is never longer than the name. */
  lemma ModelIdLowerCase(name: string)
    ensures forall k :: 0 <= k < |ModelId(name)| ==> !Strings.IsUpper(ModelId(name)[k])
    ensures |ModelId(name)| <= |name|
  {
    var t := Strings.ToLower(name);
    Strings.ToLowerFacts(name);
    assert forall k :: 0 <= k < |t| ==> !Strings.IsUpper(t[k]);
    Strings.DashKeepsNoUpper(t);
    var r := ModelId(name);
    assert r == Strings.DashWhitespaceRuns(t);
    forall k | 0 <= k < |r| ensures !Strings.IsUpper(r[k]) {
      assert r[k] == Strings.DashWhitespaceRuns(t)[k];
    }
  }

  /** A name without whitespace is only lower-cased. */
  lemma ModelIdOfWord(w: string)
    requires forall k :: 0 <= k < |w| ==> !Strings.IsWhitespace(w[k])
    ensures ModelId(w) == Strings.ToLower(w)
  {
    Strings.ToLowerFacts(w);
    Strings.DashKeepsWord(Strings.ToLower(w));
  }

  /** A word, a whitespace run and the rest of the name: the word lower-cased,
      one '-', then the id of the rest. */
  lemma ModelIdOfWords(w: string, ws: string, rest: string)
    requires forall k :: 0 <= k < |w| ==> !Strings.IsWhitespace(w[k])
    requires |ws| > 0 && Strings.AllWhitespace(ws)
    requires |rest| > 0 ==> !Strings.IsWhitespace(rest[0])
    ensures ModelId(w + ws + rest) == Strings.ToLower(w) + "-" + ModelId(rest)
  {
    Strings.ToLowerFacts(w);
    Strings.ToLowerFacts(ws);
    Strings.ToLowerFacts(rest);
    Strings.ToLowerAppend(w + ws, rest);
    Strings.ToLowerAppend(w, ws);
    Strings.DashWordThenRun(Strings.ToLower(w), Strings.ToLower(ws), Strings.ToLower(rest));
  }

  /** `handleAddModel` for the form's name and description: a blank name and
      an id already in the list are refused with their messages; otherwise the
      model is appended with its trimmed name and its trimmed description, the
      latter dropped when blank, and the error cleared. */
  function AddModel(e: Editor, name: string, desc: string): (r: Editor)
    ensures Strings.AllWhitespace(name) ==> r == e.(error := "请输入型号名称")
    ensures !Strings.AllWhitespace(name) && HasModel(e.models, ModelId(name)) ==> r == e.(error := "该型号已存在")
    ensures !Strings.AllWhitespace(name) && !HasModel(e.models, ModelId(name)) ==>
      && r.stations == e.stations && r.error == ""
      && |r.models| == |e.models| + 1 && r.models[..|e.models|] == e.models
      && var m := r.models[|e.models|];
         && m.id == ModelId(name) && m.name == Strings.Trim(name) && m.name != ""
         && (m.description.None? <==> Strings.AllWhitespace(desc))
         && (m.description.Some? ==> m.description.value == Strings.Trim(desc))
  {
    if Strings.Trim(name) == "" then e.(error := "请输入型号名称")
    else
      var id := ModelId(name);
      if Seqs.Find(e.models, (m: BikeModel) => m.id == id).Some? then e.(error := "该型号已存在")
      else
        var d := Strings.Trim(desc);
        e.(models := e.models + [BikeModel(id, Strings.Trim(name), if d == "" then None else Some(d))], error := "")
  }

  /** Adding a model never creates a second model with the same id. */
  lemma AddModelKeepsIdsDistinct(e: Editor, name: string, desc: string)
    requires DistinctModelIds(e.models)
    ensures DistinctModelIds(AddModel(e, name, desc).models)
  {
    var r := AddModel(e, name, desc);
    if !Strings.AllWhitespace(name) && !HasModel(e.models, ModelId(name)) {
      var n := |e.models|;
      assert r.models == r.models[..n] + [r.models[n]];
      AppendKeepsDistinct(e.models, r.models[n]);
    }
  }

  lemma AppendKeepsDistinct(ms: seq<BikeModel>, m: BikeModel)
    requires DistinctModelIds(ms) && !HasModel(ms, m.id)
    ensures DistinctModelIds(ms + [m])
  {
    var r := ms + [m];
    forall i, j | 0 <= i < j < |r| ensures r[i].id != r[j].id {
      assert r[i] == ms[i];
    }
  }

  /** Adding the same name a second time is refused as a duplicate. */
  lemma AddModelTwiceRefused(e: Editor, name: string, desc: string, desc2: string)
    requires !Strings.AllWhitespace(name)
    ensures AddModel(AddModel(e, name, desc), name, desc2).models == AddModel(e, name, desc).models
    ensures AddModel(AddModel(e, name, desc), name, desc2).error == "该型号已存在"
  {
    var r := AddModel(e, name, desc);
    if !HasModel(e.models, ModelId(name)) {
      assert r.models[|e.models|].id == ModelId(name);
    } else {
      var j :| 0 <= j < |e.models| && e.models[j].id == ModelId(name);
      assert r.models[j].id == ModelId(name);
    }
  }

  /** The error shown for a model still in use. */
  function InUseError(n: nat): string {
    "该型号正在被 " + Strings.IntToDec(n) + " 个骑行台使用，无法删除"
  }

  /** The stations that name the model. */
  function UsedBy(ss: seq<Station>, modelId: string): (r: seq<Station>)
    ensures Seqs.IsSubsequence(r, ss)
    ensures forall s :: s in r <==> s in ss && s.bikeModelId == Some(modelId)
    ensures forall s {:trigger multiset(r)[s]} ::
      multiset(r)[s] == if s.bikeModelId == Some(modelId) then multiset(ss)[s] else 0
  {
    Seqs.Filter(ss, (s: Station) => s.bikeModelId == Some(modelId))
  }

  /** `handleDeleteModel`: refused with a count while any station names the
      model, a no-op when not confirmed, and otherwise the models with the id
      are dropped and the error cleared. */
  function DeleteModel(e: Editor, modelId: string, confirmed: bool): (r: Editor)
    ensures var n := |UsedBy(e.stations, modelId)|;
      && (n > 0 ==> r == e.(error := InUseError(n)))
      && (n == 0 && !confirmed ==> r == e)
      && (n == 0 && confirmed ==>
            && r.stations == e.stations && r.error == ""
            && Seqs.IsSubsequence(r.models, e.models)
            && (forall m :: m in r.models <==> m in e.models && m.id != modelId)
            && forall m {:trigger multiset(r.models)[m]} ::
                 multiset(r.models)[m] == if m.id != modelId then multiset(e.models)[m] else 0)
  {
    var n := |UsedBy(e.stations, modelId)|;
    if n > 0 then e.(error := InUseError(n))
    else if !confirmed then e
    else e.(models := Seqs.Filter(e.models, (m: BikeModel) => m.id != modelId), error := "")
  }

  /** Deleting a model never leaves a station naming a model that is gone. */
  lemma DeleteModelKeepsModelsResolved(e: Editor, modelId: string, confirmed: bool)
    requires ModelsResolve(e)
    ensures ModelsResolve(DeleteModel(e, modelId, confirmed))
  {
    var r := DeleteModel(e, modelId, confirmed);
    if |UsedBy(e.stations, modelId)| == 0 && confirmed {
      forall i | 0 <= i < |r.stations| && r.stations[i].bikeModelId.Some?
        ensures HasModel(r.models, r.stations[i].bikeModelId.value)
      {
        var s := e.stations[i];
        var j :| 0 <= j < |e.models| && e.models[j].id == s.bikeModelId.value;
        assert e.models[j] in r.models;
        var k :| 0 <= k < |r.models| && r.models[k] == e.models[j];
      }
    }
  }

  // ---------------------------------------------------------------------------
  // Saving.

  /** `handleSave`: an empty roster or an empty model list is refused;
      otherwise the two lists go to the configuration as one update. */
  function Save(e: Editor): (r: Result<ConfigPatch>)
    ensures |e.stations| == 0 ==> r == Err("至少需要一个骑行台")
    ensures |e.stations| > 0 && |e.models| == 0 ==> r == Err("至少需要一个型号")
    ensures r.Ok? <==> |e.stations| > 0 && |e.models| > 0
  {
    if |e.stations| == 0 then Err("至少需要一个骑行台")
    else if |e.models| == 0 then Err("至少需要一个型号")
    else Ok(ConfigPatch(None, Some(e.stations), Some(e.models), None))
  }

  /** A saved edit becomes the configuration's roster and model list; price
      and push key are kept. */
  lemma SavedListsTakeEffect(e: Editor, c: AppConfig, now: string)
    requires Save(e).Ok?
    ensures var c' := Merge(c, Save(e).value, now);
      && c'.stations == e.stations && c'.bikeModels == Some(e.models)
      && c'.pricePerHour == c.pricePerHour && c'.serverChanKey == c.serverChanKey
  {
  }

  /** The dialog opened on a configuration and saved without edits reproduces
      its lists, so a configuration whose models resolve still resolves. */
  lemma SaveUnchangedRoundTrip(c: AppConfig, now: string)
    requires |c.stations| > 0 && c.bikeModels.Some? && |c.bikeModels.value| > 0
    ensures Save(Open(c.stations, c.bikeModels.value)).Ok?
    ensures Merge(c, Save(Open(c.stations, c.bikeModels.value)).value, now) == c.(updatedAt := now)
  {
  }
}
