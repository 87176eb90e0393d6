/** The booking page's state logic, in its two versions: the older in-memory
    hook (`useBooking`), which keeps its own booking list, and the newer one
    (`useBookingRealtime`), which goes through the store. Both offer the same
    33 start times, both validate the form the same way, and they differ in
    how they write the end time. */
module BookingHooks {
  import opened Wrappers
  import opened Strings
  import opened Time
  import opened Bookings
  import Seqs
  import Store
  import Config
  import BusinessHours

  type Slot = BusinessHours.Slot

  // ---------------------------------------------------------------------------
  // The hard-coded start-time lists.

  /** Slot i of the newer list: hour floor(i / 2) + 6, minute (i % 2) * 30. */
  function RealtimeSlot(i: nat): Slot {
    BusinessHours.Slot(i / 2 + 6, (i % 2) * 30, FormatClock(i / 2 + 6, (i % 2) * 30))
  }

  /** The newer list: `Array.from({ length: 33 }, ...)`. */
  function RealtimeSlots(): (r: seq<Slot>)
    ensures |r| == 33
    ensures forall i :: 0 <= i < 33 ==> r[i] == RealtimeSlot(i)
  {
    seq(33, i requires 0 <= i < 33 => RealtimeSlot(i))
  }

  /** The older loop: for each hour from h up to 21, the ":00" and ":30" slots. */
  function LegacyPairs(h: nat): seq<Slot>
    decreases 22 - h
  {
    if h >= 22 then []
    else [PairSlot(h, 0), PairSlot(h, 1)] + LegacyPairs(h + 1)
  }

  /** The older list: the pairs from 06 to 21, then "22:00". */
  function LegacySlots(): seq<Slot> {
    LegacyPairs(FirstHour) + [BusinessHours.Slot(22, 0, "22:00")]
  }

  /** The first hour of both hard-coded lists. */
  const FirstHour: nat := 6

  lemma PadZeroAndThirty()
    ensures Pad2(0) == "00" && Pad2(30) == "30"
  {
    assert NatToDec(3) == "3";
    assert NatToDec(30) == NatToDec(3) + [DigitChar(0)];
  }

  /** The pairs from hour h hold two slots per hour up to 21. */
  lemma {:induction false} LegacyPairsLength(h: nat)
    requires h <= 22
    ensures |LegacyPairs(h)| == 2 * (22 - h)
    decreases 22 - h
  {
    if h < 22 {
      LegacyPairsLength(h + 1);
    }
  }

  /** The older loop's slot r (0 or 1) of hour h. */
  function PairSlot(h: nat, r: nat): Slot {
    if r == 0 then BusinessHours.Slot(h, 0, Pad2(h) + ":00") else BusinessHours.Slot(h, 30, Pad2(h) + ":30")
  }

  /** Slot r (0 or 1) of hour t sits at 2 (t - h) + r in the pairs from hour h <= t. */
  lemma {:induction false} LegacyPairsAt(h: nat, t: nat, r: nat)
    requires h <= t && r < 2 && 2 * (t - h) + r < |LegacyPairs(h)|
    ensures LegacyPairs(h)[2 * (t - h) + r] == PairSlot(t, r)
    decreases t - h
  {
    var tail := LegacyPairs(h + 1);
    var pair := [PairSlot(h, 0), PairSlot(h, 1)];
    assert LegacyPairs(h) == pair + tail;
    if h < t {
      LegacyPairsAt(h + 1, t, r);
      assert LegacyPairs(h)[2 * (t - h) + r] == tail[2 * (t - (h + 1)) + r];
    } else {
      assert LegacyPairs(h)[r] == pair[r];
    }
  }

  /** The older loop's slot is the newer list's slot of the same half hour. */
  lemma PairSlotIsRealtime(i: nat)
    ensures PairSlot(i / 2 + FirstHour, i % 2) == RealtimeSlot(i)
  {
    PadZeroAndThirty();
    assert FormatClock(i / 2 + 6, 0) == Pad2(i / 2 + 6) + ":00";
    assert FormatClock(i / 2 + 6, 30) == Pad2(i / 2 + 6) + ":30";
  }

  /** Slot i of the older list is slot i of the newer one. */
  lemma LegacySlotAt(i: nat)
    requires i < 33
    ensures |LegacySlots()| == 33
    ensures LegacySlots()[i] == RealtimeSlot(i)
  {
    LegacyPairsLength(FirstHour);
    var pairs := LegacyPairs(FirstHour);
    assert LegacySlots() == pairs + [BusinessHours.Slot(22, 0, "22:00")];
    if i == 32 {
      LastSlot();
    } else {
      assert LegacySlots()[i] == pairs[i];
      LegacyPairSlotAt(i);
    }
  }

  /** Slot i of the older loop's pairs is slot i of the newer list. */
  lemma LegacyPairSlotAt(i: nat)
    requires i < |LegacyPairs(FirstHour)|
    ensures LegacyPairs(FirstHour)[i] == RealtimeSlot(i)
  {
    var t, r := i / 2 + FirstHour, i % 2;
    assert 2 * (t - FirstHour) + r == i;
    LegacyPairsAt(FirstHour, t, r);
    PairSlotIsRealtime(i);
  }

  lemma LastSlot()
    ensures RealtimeSlot(32) == BusinessHours.Slot(22, 0, "22:00")
  {
    PadZeroAndThirty();
    assert FormatClock(22, 0) == "22:00";
  }

  /** The two hard-coded lists are the same 33 slots. */
  lemma SlotListsAgree()
    ensures LegacySlots() == RealtimeSlots()
  {
    LegacySlotAt(0);
    forall i | 0 <= i < 33
      ensures LegacySlots()[i] == RealtimeSlots()[i]
    {
      LegacySlotAt(i);
    }
  }

  /** Slot i starts 6 h + 30 i minutes after midnight, its label reads back as
      that minute and is a well-formed clock label; the list runs from 06:00 to 22:00. */
  lemma RealtimeSlotsMeaning(i: nat)
    requires i < 33
    ensures BusinessHours.SlotMinutes(RealtimeSlots()[i]) == 360 + 30 * i
    ensures ParseTime(RealtimeSlots()[i].text) == Some(BusinessHours.SlotMinutes(RealtimeSlots()[i]) as real)
    ensures IsClockLabel(RealtimeSlots()[i].text)
    ensures i < 32 ==> BusinessHours.SlotMinutes(RealtimeSlots()[i + 1]) == BusinessHours.SlotMinutes(RealtimeSlots()[i]) + 30
  {
    assert RealtimeSlots()[i] == RealtimeSlot(i);
    RealtimeSlotReads(i);
    if i < 32 {
      assert RealtimeSlots()[i + 1] == RealtimeSlot(i + 1);
      RealtimeSlotReads(i + 1);
    }
  }

  lemma RealtimeSlotReads(i: nat)
    requires i < 33
    ensures BusinessHours.SlotMinutes(RealtimeSlot(i)) == 360 + 30 * i
    ensures ParseTime(RealtimeSlot(i).text) == Some(BusinessHours.SlotMinutes(RealtimeSlot(i)) as real)
    ensures IsClockLabel(RealtimeSlot(i).text)
  {
    ParseFormatClock(i / 2 + 6, (i % 2) * 30);
    FormatClockIsLabel(i / 2 + 6, (i % 2) * 30);
  }

  // ---------------------------------------------------------------------------
  // The booking form.

  /** The form. The date is the selected day's 'YYYY-MM-DD' key; the duration
      is a count of half hours; `stationId` None is `null`. */
  datatype Form = Form(
    date: Option<string>,
    startTime: string,
    halfHours: nat,
    stationId: Option<int>,
    memberName: string,
    memberPhone: string,
    notes: string)

  /** Empty fields, no station, one hour. */
  const EmptyForm: Form := Form(None, "", 2, None, "", "", "")

  /** The submit guard: a missing date, an empty start time, a missing or zero
      station, or an empty name or phone (untrimmed) stops the submission. */
  predicate MissingField(f: Form) {
    f.date.None? || f.startTime == "" || f.stationId.None? || f.stationId.value == 0
    || f.memberName == "" || f.memberPhone == ""
  }

  /** `updateFormData('date', d)` and the page's companions: a new date clears
      the start time and the station. */
  function SelectDate(f: Form, date: string): (r: Form)
    ensures r.date == Some(date) && r.startTime == "" && r.stationId.None?
    ensures r.halfHours == f.halfHours && r.memberName == f.memberName
            && r.memberPhone == f.memberPhone && r.notes == f.notes
  {
    f.(date := Some(date), startTime := "", stationId := None)
  }

  /** A new start time clears the station. */
  function SelectTime(f: Form, time: string): (r: Form)
    ensures r.startTime == time && r.stationId.None?
    ensures r.date == f.date && r.halfHours == f.halfHours && r.memberName == f.memberName
            && r.memberPhone == f.memberPhone && r.notes == f.notes
  {
    f.(startTime := time, stationId := None)
  }

  /** A new duration clears the station. */
  function SelectDuration(f: Form, halfHours: nat): (r: Form)
    ensures r.halfHours == halfHours && r.stationId.None?
    ensures r.date == f.date && r.startTime == f.startTime && r.memberName == f.memberName
            && r.memberPhone == f.memberPhone && r.notes == f.notes
  {
    f.(halfHours := halfHours, stationId := None)
  }

  /** Whatever changes first, a station chosen before a later date, time or
      duration change is never submitted: the guard stops the form until a
      station is chosen again. */
  lemma ChangesNeedNewStation(f: Form, date: string, time: string, halfHours: nat)
    ensures MissingField(SelectDate(f, date))
    ensures MissingField(SelectTime(f, time))
    ensures MissingField(SelectDuration(f, halfHours))
  {
  }

  /** `totalPrice`: hours times the hourly price. */
  function TotalPrice(f: Form, pricePerHour: real): real {
    Hours(f.halfHours) * pricePerHour
  }

  /** The end label the newer code writes for a start with whole hour and
      minute fields. The source converts and formats each field on its own;
      the model writes "NaN:NaN" for every other start, whatever its fields. */
  function RealtimeEnd(start: string, halfHours: nat): string {
    if ClockParts(start).Some? then EndTimeNoCarry(start, halfHours) else "NaN:NaN"
  }

  /** The end label the older code writes for a start with whole hour and
      minute fields; every other start is written "NaN:NaN", as for RealtimeEnd. */
  function LegacyEnd(start: string, halfHours: nat): string {
    if ClockParts(start).Some? then EndTimeLegacy(start, halfHours) else "NaN:NaN"
  }

  /** `startMinutes + duration * 60`, NaN when the start is. */
  function EndMinutes(start: string, halfHours: nat): (r: Option<real>)
    ensures r.Some? <==> ParseTime(start).Some?
    ensures r.Some? ==> r.value == ParseTime(start).value + 30.0 * halfHours as real
  {
    if ParseTime(start).Some? then Some(ParseTime(start).value + 30.0 * halfHours as real) else None
  }

  /** The newer end label reads back as start + duration, even when it is not
      a well-formed clock label. */
  lemma RealtimeEndReadsBack(start: string, h: nat, m: nat, halfHours: nat)
    requires ClockParts(start) == Some((h, m))
    ensures ParseTime(RealtimeEnd(start, halfHours)) == EndMinutes(start, halfHours)
  {
    EndTimeNoCarryMeaning(start, h, m, halfHours);
    var e := RealtimeEnd(start, halfHours);
    assert e == EndTimeNoCarry(start, halfHours);
    assert ParseTime(e).value == EndMinutes(start, halfHours).value;
  }

  /** So does the older end label. */
  lemma LegacyEndReadsBack(start: string, h: nat, m: nat, halfHours: nat)
    requires ClockParts(start) == Some((h, m))
    ensures ParseTime(LegacyEnd(start, halfHours)) == EndMinutes(start, halfHours)
  {
    EndTimeLegacyMeaning(start, h, m, halfHours);
    var e := LegacyEnd(start, halfHours);
    assert e == EndTimeLegacy(start, halfHours);
    assert ParseTime(e).value == EndMinutes(start, halfHours).value;
  }

  /** The booking a valid form becomes, confirmed. */
  function FormBooking(f: Form, end: string, id: string, createdAt: string): Booking
    requires !MissingField(f)
  {
    Booking(id, f.date.value, f.startTime, end, f.stationId.value, f.memberName, f.memberPhone,
            Some(f.notes), Confirmed, createdAt)
  }

  /** An end half hours after the start lies that many half hours later. */
  lemma HoursOfReadings(start: real, halfHours: nat)
    ensures (start + 30.0 * halfHours as real - start) / 60.0 == Hours(halfHours)
  {
  }

  /** A booking of the form's length earns the form's quote. */
  lemma QuoteOfHours(d: Option<real>, f: Form, pricePerHour: real)
    requires d == Some(Hours(f.halfHours))
    ensures MulNum(d, pricePerHour) == Some(TotalPrice(f, pricePerHour))
  {
    assert d.value == Hours(f.halfHours);
    assert MulNum(d, pricePerHour).value == TotalPrice(f, pricePerHour);
  }

  /** A single confirmed booking whose end label reads back as start +
      duration earns the quoted price. */
  lemma FormBookingEarnsQuote(f: Form, end: string, pricePerHour: real, id: string, createdAt: string)
    requires !MissingField(f)
    requires ParseTime(f.startTime).Some?
    requires ParseTime(end) == EndMinutes(f.startTime, f.halfHours)
    ensures Revenue([FormBooking(f, end, id, createdAt)], pricePerHour) == Some(TotalPrice(f, pricePerHour))
  {
    var start := ParseTime(f.startTime).value;
    var b := FormBooking(f, end, id, createdAt);
    DurationOfReadings(f.startTime, end, start, start + 30.0 * f.halfHours as real);
    HoursOfReadings(start, f.halfHours);
    assert Duration(b) == Some(Hours(f.halfHours));
    RevenueOfOne(b, pricePerHour);
    QuoteOfHours(Duration(b), f, pricePerHour);
  }

  /** The booking the newer hook stores earns, at the hourly price, the price
      the form quoted. */
  lemma RealtimeQuoteIsRevenue(f: Form, h: nat, m: nat, pricePerHour: real, id: string, createdAt: string)
    requires !MissingField(f)
    requires ClockParts(f.startTime) == Some((h, m))
    ensures Revenue([FormBooking(f, RealtimeEnd(f.startTime, f.halfHours), id, createdAt)], pricePerHour)
            == Some(TotalPrice(f, pricePerHour))
  {
    RealtimeEndReadsBack(f.startTime, h, m, f.halfHours);
    FormBookingEarnsQuote(f, RealtimeEnd(f.startTime, f.halfHours), pricePerHour, id, createdAt);
  }

  /** So does the booking the older hook stores, despite its odd end label. */
  lemma LegacyQuoteIsRevenue(f: Form, h: nat, m: nat, pricePerHour: real, id: string, createdAt: string)
    requires !MissingField(f)
    requires ClockParts(f.startTime) == Some((h, m))
    ensures Revenue([FormBooking(f, LegacyEnd(f.startTime, f.halfHours), id, createdAt)], pricePerHour)
            == Some(TotalPrice(f, pricePerHour))
  {
    LegacyEndReadsBack(f.startTime, h, m, f.halfHours);
    FormBookingEarnsQuote(f, LegacyEnd(f.startTime, f.halfHours), pricePerHour, id, createdAt);
  }

  // ---------------------------------------------------------------------------
  // The older hook: its own booking list.

  datatype LegacyState = LegacyState(
    bookings: seq<Booking>,
    form: Form,
    lastBooking: Option<Booking>,
    showSuccess: bool)

  /** A booking that makes the station unavailable in the older hook. */
  predicate LegacyBlocks(b: Booking, station: int, date: string, start: string, halfHours: nat) {
    Store.Holds(b, station, date)
    && Store.OverlapTwoWays(ParseTime(start), EndMinutes(start, halfHours), ParseTime(b.startTime), ParseTime(b.endTime))
  }

  /** `isStationAvailable`: no booking on the station and date, not cancelled,
      overlaps start .. start + duration. */
  function IsStationAvailable(bs: seq<Booking>, station: int, date: string, start: string, halfHours: nat): (r: bool)
    ensures r <==> forall i :: 0 <= i < |bs| ==> !LegacyBlocks(bs[i], station, date, start, halfHours)
  {
    !Seqs.Any(bs, (b: Booking) => LegacyBlocks(b, station, date, start, halfHours))
  }

  /** With an end label that reads back as the numeric end, a booking blocks
      the older hook exactly when it blocks the store. */
  lemma SameBlocking(b: Booking, station: int, date: string, start: string, end: string, halfHours: nat)
    requires ParseTime(end) == EndMinutes(start, halfHours)
    ensures LegacyBlocks(b, station, date, start, halfHours) == Store.Blocks(b, station, date, start, end, None)
  {
  }

  /** The store's check, given any end label that reads back as the numeric end,
      is the older hook's check. */
  lemma StoreCheckWithEnd(bs: seq<Booking>, station: int, date: string, start: string, end: string, halfHours: nat)
    requires ParseTime(end) == EndMinutes(start, halfHours)
    ensures IsStationAvailable(bs, station, date, start, halfHours)
            == Store.CheckStationAvailability(bs, station, date, start, end, None)
  {
    forall i | 0 <= i < |bs|
      ensures LegacyBlocks(bs[i], station, date, start, halfHours) == Store.Blocks(bs[i], station, date, start, end, None)
    {
      SameBlocking(bs[i], station, date, start, end, halfHours);
    }
  }

  /** For a start with whole fields the older hook's check is the store's check
      on either end label: both labels read back as the numeric end. */
  lemma LegacyAvailabilityIsStoreCheck(bs: seq<Booking>, station: int, date: string, start: string,
                                       h: nat, m: nat, halfHours: nat)
    requires ClockParts(start) == Some((h, m))
    ensures IsStationAvailable(bs, station, date, start, halfHours)
            == Store.CheckStationAvailability(bs, station, date, start, RealtimeEnd(start, halfHours), None)
    ensures IsStationAvailable(bs, station, date, start, halfHours)
            == Store.CheckStationAvailability(bs, station, date, start, LegacyEnd(start, halfHours), None)
  {
    RealtimeEndReadsBack(start, h, m, halfHours);
    LegacyEndReadsBack(start, h, m, halfHours);
    StoreCheckWithEnd(bs, station, date, start, RealtimeEnd(start, halfHours), halfHours);
    StoreCheckWithEnd(bs, station, date, start, LegacyEnd(start, halfHours), halfHours);
  }

  const AllStations: seq<int> := [1, 2, 3, 4]

  /** `getAvailableStations`: with no date all four stations, otherwise the
      stations 1 to 4, in order, that are available. */
  function GetAvailableStations(bs: seq<Booking>, date: Option<string>, start: string, halfHours: nat): (r: seq<int>)
    ensures date.None? || date.value == "" ==> r == AllStations
    ensures Seqs.IsSubsequence(r, AllStations)
    ensures date.Some? && date.value != "" ==>
      forall x :: x in r <==> x in AllStations && IsStationAvailable(bs, x, date.value, start, halfHours)
  {
    if date.None? || date.value == "" then AllStations
    else Seqs.Filter(AllStations, (x: int) => IsStationAvailable(bs, x, date.value, start, halfHours))
  }

  /** `submitBooking` of the older hook: a form with a missing field changes
      nothing; otherwise the confirmed booking is appended, shown, and the form
      is reset. */
  function LegacySubmit(st: LegacyState, id: string, createdAt: string): (r: (LegacyState, bool))
    ensures MissingField(st.form) ==> r == (st, false)
    ensures !MissingField(st.form) ==>
      var b := FormBooking(st.form, LegacyEnd(st.form.startTime, st.form.halfHours), id, createdAt);
      && r.1
      && r.0.bookings == st.bookings + [b]
      && r.0.lastBooking == Some(b) && r.0.showSuccess
      && r.0.form == EmptyForm
  {
    if MissingField(st.form) then (st, false)
    else
      var b := FormBooking(st.form, LegacyEnd(st.form.startTime, st.form.halfHours), id, createdAt);
      (LegacyState(st.bookings + [b], EmptyForm, Some(b), true), true)
  }

  /** A successful submission adds exactly the quoted price to the revenue. */
  lemma LegacySubmitAddsQuotedPrice(st: LegacyState, h: nat, m: nat, pricePerHour: real, id: string, createdAt: string)
    requires !MissingField(st.form)
    requires ClockParts(st.form.startTime) == Some((h, m))
    ensures Revenue(LegacySubmit(st, id, createdAt).0.bookings, pricePerHour)
            == AddNum(Revenue(st.bookings, pricePerHour), Some(TotalPrice(st.form, pricePerHour)))
  {
    var b := FormBooking(st.form, LegacyEnd(st.form.startTime, st.form.halfHours), id, createdAt);
    LegacyQuoteIsRevenue(st.form, h, m, pricePerHour, id, createdAt);
    RevenueAppend(st.bookings, [b], pricePerHour);
  }

  // ---------------------------------------------------------------------------
  // The newer hook: through the store.

  datatype RealtimeState = RealtimeState(
    bookings: seq<Booking>,
    form: Form,
    lastBooking: Option<Booking>,
    showSuccess: bool,
    error: Option<string>)

  const CreateFailed: string := "创建预约失败，请重试"

  function FormRequest(f: Form): Store.Request
    requires !MissingField(f)
  {
    Store.Request(f.date.value, f.startTime, RealtimeEnd(f.startTime, f.halfHours), f.stationId.value,
                  f.memberName, f.memberPhone, Some(f.notes), Confirmed)
  }

  /** `submitBooking` of the newer hook. `createFails` says whether the store
      call throws. On success the form is reset, the list is reloaded for the
      date the form had, and the error is cleared; on failure the error is set
      and the form kept. */
  function RealtimeSubmit(st: RealtimeState, store: Store.Store, id: string, createdAt: string, createFails: bool)
    : (r: (RealtimeState, Store.Store, bool))
    ensures MissingField(st.form) ==> r == (st, store, false)
    ensures !MissingField(st.form) && createFails ==>
      r == (st.(error := Some(CreateFailed)), store, false)
    ensures !MissingField(st.form) && !createFails ==>
      && r.2
      && r.1 == Store.CreateBooking(store, FormRequest(st.form), id, createdAt).0
      && r.0.form == EmptyForm && r.0.error.None? && r.0.showSuccess
      && r.0.lastBooking == Some(Store.CreateBooking(store, FormRequest(st.form), id, createdAt).1)
      && r.0.bookings == Store.GetBookings(r.1, st.form.date)
  {
    if MissingField(st.form) then (st, store, false)
    else if createFails then (st.(error := Some(CreateFailed)), store, false)
    else
      var (store', b) := Store.CreateBooking(store, FormRequest(st.form), id, createdAt);
      (RealtimeState(Store.GetBookings(store', st.form.date), EmptyForm, Some(b), true, None), store', true)
  }

  /** After a successful submission the reloaded list shows the new booking,
      which is confirmed and carries the form's date, station and start. */
  lemma RealtimeSubmitShowsNewBooking(st: RealtimeState, store: Store.Store, id: string, createdAt: string)
    requires !MissingField(st.form)
    ensures var (st', _, ok) := RealtimeSubmit(st, store, id, createdAt, false);
      && ok && st'.lastBooking.Some?
      && st'.lastBooking.value in st'.bookings
      && st'.lastBooking.value.status == Confirmed
      && st'.lastBooking.value.date == st.form.date.value
      && st'.lastBooking.value.stationId == st.form.stationId.value
      && st'.lastBooking.value.startTime == st.form.startTime
  {
    var (store', b) := Store.CreateBooking(store, FormRequest(st.form), id, createdAt);
    assert b in store'.bookings;
  }

  // ---------------------------------------------------------------------------
  // The station list of the newer hook.

  datatype StationView = StationView(
    id: int,
    name: string,
    bikeModelId: Option<string>,
    status: Option<Config.StationStatus>)

  /** `s.name || `${s.stationId}号骑行台``. */
  function StationName(s: Config.Station): (r: string)
    ensures s.name.Some? && s.name.value != "" ==> r == s.name.value
    ensures s.name.None? || s.name.value == "" ==> r == IntToDec(s.stationId) + "号骑行台"
  {
    if s.name.Some? && s.name.value != "" then s.name.value else IntToDec(s.stationId) + "号骑行台"
  }

  const DefaultViews: seq<StationView> := [
    StationView(1, "1号骑行台", Some("stages"), Some(Config.Available)),
    StationView(2, "2号骑行台", Some("stages"), Some(Config.Available)),
    StationView(3, "3号骑行台", Some("neo"), Some(Config.Available)),
    StationView(4, "4号骑行台", Some("neo"), Some(Config.Available))]

  /** `useBikeStations`: no configured stations gives the four defaults;
      otherwise one view per configured station, in order. */
  function BikeStations(cfg: Config.AppConfig): (r: seq<StationView>)
    ensures |cfg.stations| == 0 ==> r == DefaultViews
    ensures |cfg.stations| > 0 ==> |r| == |cfg.stations|
    ensures |cfg.stations| > 0 ==> forall i :: 0 <= i < |r| ==>
      r[i] == StationView(cfg.stations[i].stationId, StationName(cfg.stations[i]),
                          cfg.stations[i].bikeModelId, cfg.stations[i].status)
  {
    if |cfg.stations| == 0 then DefaultViews
    else
      seq(|cfg.stations|, i requires 0 <= i < |cfg.stations| =>
        StationView(cfg.stations[i].stationId, StationName(cfg.stations[i]),
                    cfg.stations[i].bikeModelId, cfg.stations[i].status))
  }

  /** The fallback list is what the application default configuration maps to,
      so an empty roster looks exactly like the default one. */
  lemma FallbackIsDefaultRoster(now: string)
    ensures BikeStations(Config.AppDefaultConfig(now)) == DefaultViews
  {
    var r := BikeStations(Config.AppDefaultConfig(now));
    assert forall i :: 0 <= i < 4 ==> r[i] == DefaultViews[i];
  }
}
