/** The browser-local booking store: the stored booking list and the stored
    configuration, with the operations the pages call on it. Storage is an
    abstract state; the clock and the id source are parameters. */
module Store {
  import opened Wrappers
  import opened Time
  import opened Bookings
  import Seqs
  import Config

  datatype Store = Store(bookings: seq<Booking>, config: Option<Config.AppConfig>)

  /** A booking request: a booking without the id and creation time the store assigns. */
  datatype Request = Request(
    date: string,
    startTime: string,
    endTime: string,
    stationId: int,
    memberName: string,
    memberPhone: string,
    notes: Option<string>,
    status: Status)

  function WithId(q: Request, id: string, createdAt: string): Booking {
    Booking(id, q.date, q.startTime, q.endTime, q.stationId, q.memberName, q.memberPhone, q.notes, q.status, createdAt)
  }

  /** `getBookings(date)`: an absent or empty date selects everything. */
  function GetBookings(s: Store, date: Option<string>): (r: seq<Booking>)
    ensures date.None? || date.value == "" ==> r == s.bookings
    ensures date.Some? && date.value != "" ==>
      Seqs.IsSubsequence(r, s.bookings)
      && (forall b :: b in r <==> b in s.bookings && b.date == date.value)
    ensures date.Some? && date.value != "" ==>
      forall b {:trigger multiset(r)[b]} ::
        multiset(r)[b] == if b.date == date.value then multiset(s.bookings)[b] else 0
  {
    if date.Some? && date.value != "" then Seqs.Filter(s.bookings, (b: Booking) => b.date == date.value) else s.bookings
  }

  /** `createBooking`: the request, with the given id and time stamp, goes at
      the end of the list, with no check against the bookings already there. */
  function CreateBooking(s: Store, q: Request, id: string, createdAt: string): (r: (Store, Booking))
    ensures r.0.bookings == s.bookings + [r.1]
    ensures r.0.config == s.config
    ensures r.1.id == id && r.1.createdAt == createdAt
    ensures r.1.date == q.date && r.1.startTime == q.startTime && r.1.endTime == q.endTime
    ensures r.1.stationId == q.stationId && r.1.status == q.status
    ensures r.1.memberName == q.memberName && r.1.memberPhone == q.memberPhone && r.1.notes == q.notes
  {
    var b := WithId(q, id, createdAt);
    (s.(bookings := s.bookings + [b]), b)
  }

  predicate HasId(bs: seq<Booking>, id: string) {
    exists i :: 0 <= i < |bs| && bs[i].id == id
  }

  /** The first booking with the id is cancelled; the others keep their state. */
  function CancelFirst(bs: seq<Booking>, id: string): (r: seq<Booking>)
    ensures |r| == |bs|
    ensures forall i :: 0 <= i < |bs| ==> r[i].id == bs[i].id
    ensures forall i :: 0 <= i < |bs| ==>
      r[i] == if bs[i].id == id && (forall j :: 0 <= j < i ==> bs[j].id != id)
              then bs[i].(status := Cancelled) else bs[i]
  {
    if HasId(bs, id) then
      var i := FirstWithId(bs, id);
      bs[i := bs[i].(status := Cancelled)]
    else bs
  }

  /** `cancelBooking`. */
  function CancelBooking(s: Store, id: string): (r: Store)
    ensures !HasId(s.bookings, id) ==> r == s
    ensures r.config == s.config
  {
    var r := s.(bookings := CancelFirst(s.bookings, id));
    assert !HasId(s.bookings, id) ==> r.bookings == s.bookings;
    r
  }

  /** Cancelling twice is cancelling once. */
  lemma CancelIdempotent(s: Store, id: string)
    ensures CancelBooking(CancelBooking(s, id), id) == CancelBooking(s, id)
  {
    var once := CancelFirst(s.bookings, id);
    var twice := CancelFirst(once, id);
    forall i | 0 <= i < |once|
      ensures twice[i] == once[i]
    {
      if once[i].id == id && (forall j :: 0 <= j < i ==> once[j].id != id) {
        assert forall j :: 0 <= j < i ==> s.bookings[j].id != id;
      }
    }
  }

  /** After cancelling a known id, exactly one booking with it is cancelled and
      no booking of another id changed. */
  lemma CancelHitsFirstMatch(s: Store, id: string)
    requires HasId(s.bookings, id)
    ensures var r := CancelBooking(s, id).bookings;
      exists i :: 0 <= i < |r| && r[i].id == id && r[i].status == Cancelled
        && r[i] == s.bookings[i].(status := Cancelled)
        && forall j :: 0 <= j < |r| && j != i ==> r[j] == s.bookings[j]
  {
    var bs := s.bookings;
    var i := FirstWithId(bs, id);
    var r := CancelBooking(s, id).bookings;
    assert r[i] == bs[i].(status := Cancelled);
  }

  /** The index of the first booking with the id. */
  function FirstWithId(bs: seq<Booking>, id: string): (i: nat)
    requires HasId(bs, id)
    ensures i < |bs| && bs[i].id == id
    ensures forall j :: 0 <= j < i ==> bs[j].id != id
  {
    if bs[0].id == id then 0
    else
      assert HasId(bs[1..], id) by {
        var k :| 0 <= k < |bs| && bs[k].id == id;
        assert bs[1..][k - 1].id == id;
      }
      1 + FirstWithId(bs[1..], id)
  }

  /** `deleteBooking`: every booking with the id goes, the others keep their order. */
  function DeleteBooking(s: Store, id: string): (r: Store)
    ensures Seqs.IsSubsequence(r.bookings, s.bookings)
    ensures forall b :: b in r.bookings <==> b in s.bookings && b.id != id
    ensures forall b {:trigger multiset(r.bookings)[b]} ::
      multiset(r.bookings)[b] == if b.id != id then multiset(s.bookings)[b] else 0
    ensures !HasId(r.bookings, id)
    ensures r.config == s.config
  {
    s.(bookings := Seqs.Filter(s.bookings, (b: Booking) => b.id != id))
  }

  /** Deleting an unknown id leaves the list as it is. */
  lemma DeleteUnknownIsNoOp(s: Store, id: string)
    requires !HasId(s.bookings, id)
    ensures DeleteBooking(s, id) == s
  {
    Seqs.FilterKeepsAll(s.bookings, (b: Booking) => b.id != id);
  }

  // ---------------------------------------------------------------------------
  // Station availability as the store checks it.

  /** The overlap test as the store writes it: two disjuncts, each comparison
      false on NaN. */
  predicate OverlapTwoWays(s: Option<real>, e: Option<real>, bs: Option<real>, be: Option<real>) {
    s.Some? && e.Some? && bs.Some? && be.Some? &&
    ((s.value < be.value && e.value > bs.value) || (bs.value < e.value && be.value > s.value))
  }

  /** The two disjuncts say the same thing: the test is the half-open overlap,
      so ranges that only touch do not overlap. */
  lemma OverlapDisjunctsEquivalent(s: Option<real>, e: Option<real>, bs: Option<real>, be: Option<real>)
    ensures OverlapTwoWays(s, e, bs, be) <==> OverlapsParsed(s, e, bs, be)
    ensures s.Some? && be.Some? && s.value == be.value ==> !OverlapTwoWays(s, e, bs, be)
    ensures e.Some? && bs.Some? && e.value == bs.value ==> !OverlapTwoWays(s, e, bs, be)
  {
  }

  /** A stored booking that takes the station for the request: same station
      and date, not cancelled. */
  predicate Holds(b: Booking, station: int, date: string) {
    b.stationId == station && b.date == date && b.status != Cancelled
  }

  /** `excludeBookingId && booking.id === excludeBookingId`; an empty id excludes nothing. */
  predicate Excluded(b: Booking, exclude: Option<string>) {
    exclude.Some? && exclude.value != "" && b.id == exclude.value
  }

  predicate Clashes(b: Booking, start: string, end: string, exclude: Option<string>) {
    !Excluded(b, exclude)
    && OverlapTwoWays(ParseTime(start), ParseTime(end), ParseTime(b.startTime), ParseTime(b.endTime))
  }

  /** Booking b makes the station unavailable for the request. */
  predicate Blocks(b: Booking, station: int, date: string, start: string, end: string, exclude: Option<string>) {
    Holds(b, station, date) && Clashes(b, start, end, exclude)
  }

  /** Blocking is the half-open overlap of a held, non-excluded booking. */
  lemma BlocksMeaning(b: Booking, station: int, date: string, start: string, end: string, exclude: Option<string>)
    ensures Blocks(b, station, date, start, end, exclude) <==>
      Holds(b, station, date) && !Excluded(b, exclude)
      && OverlapsParsed(ParseTime(start), ParseTime(end), ParseTime(b.startTime), ParseTime(b.endTime))
  {
    OverlapDisjunctsEquivalent(ParseTime(start), ParseTime(end), ParseTime(b.startTime), ParseTime(b.endTime));
  }

  /** `checkStationAvailability`: free exactly when no stored booking on the
      station and date, not cancelled and not the excluded one, overlaps the
      requested range. */
  function CheckStationAvailability(bs: seq<Booking>, station: int, date: string, start: string, end: string,
                                    exclude: Option<string>): (r: bool)
    ensures r <==> forall i :: 0 <= i < |bs| ==> !Blocks(bs[i], station, date, start, end, exclude)
  {
    var held := (b: Booking) => Holds(b, station, date);
    var clash := (b: Booking) => Clashes(b, start, end, exclude);
    Seqs.AnyOfFilter(bs, held, clash);
    !Seqs.Any(Seqs.Filter(bs, held), clash)
  }

  /** Pending bookings block here but not in the test file's copy: a pending
      booking that overlaps the request makes the store answer "taken" while
      the confirmed-only check answers "free". */
  lemma PendingBlocksOnlyInStore(b: Booking, start: string, end: string)
    requires b.status == Pending
    requires OverlapsParsed(ParseTime(start), ParseTime(end), ParseTime(b.startTime), ParseTime(b.endTime))
    ensures !CheckStationAvailability([b], b.stationId, b.date, start, end, None)
    ensures IsTimeSlotAvailable([b], b.date, start, end, b.stationId)
  {
    assert [b][0] == b;
  }

  /** The two checks agree on every list without pending bookings. */
  lemma ChecksAgreeWithoutPending(bs: seq<Booking>, station: int, date: string, start: string, end: string)
    requires forall i :: 0 <= i < |bs| ==> bs[i].status != Pending
    ensures CheckStationAvailability(bs, station, date, start, end, None)
            == IsTimeSlotAvailable(bs, date, start, end, station)
  {
    forall i | 0 <= i < |bs|
      ensures Blocks(bs[i], station, date, start, end, None) <==> ConfirmedConflict(bs[i], date, start, end, station)
    {
      BlocksMeaning(bs[i], station, date, start, end, None);
    }
  }

  // ---------------------------------------------------------------------------
  // Double booking.

  /** Two bookings that take the same station at the same time. */
  predicate Collide(a: Booking, b: Booking) {
    Holds(a, b.stationId, b.date) && b.status != Cancelled
    && OverlapsParsed(ParseTime(a.startTime), ParseTime(a.endTime), ParseTime(b.startTime), ParseTime(b.endTime))
  }

  /** No two stored bookings take the same station at the same time. */
  predicate NoDoubleBooking(bs: seq<Booking>) {
    forall i, j :: 0 <= i < j < |bs| ==> !Collide(bs[i], bs[j])
  }

  /** The corrected create: refuse a request the availability check rejects,
      otherwise store it as `createBooking` does. */
  function Reserve(s: Store, q: Request, id: string, createdAt: string): (r: Result<(Store, Booking)>)
    ensures r.Ok? <==> CheckStationAvailability(s.bookings, q.stationId, q.date, q.startTime, q.endTime, None)
    ensures r.Ok? ==> r.value == CreateBooking(s, q, id, createdAt)
    ensures r.Err? ==> r.message == "该时段已被预约"
  {
    if CheckStationAvailability(s.bookings, q.stationId, q.date, q.startTime, q.endTime, None)
    then Ok(CreateBooking(s, q, id, createdAt))
    else Err("该时段已被预约")
  }

  /** Checking and then creating, in sequence, keeps the store free of double bookings. */
  lemma ReservePreservesNoDoubleBooking(s: Store, q: Request, id: string, createdAt: string)
    requires NoDoubleBooking(s.bookings)
    requires Reserve(s, q, id, createdAt).Ok?
    ensures NoDoubleBooking(Reserve(s, q, id, createdAt).value.0.bookings)
  {
    var (t, b) := CreateBooking(s, q, id, createdAt);
    var bs := t.bookings;
    forall i, j | 0 <= i < j < |bs|
      ensures !Collide(bs[i], bs[j])
    {
      if j == |bs| - 1 {
        assert bs[j] == b && bs[i] == s.bookings[i];
        BlocksMeaning(bs[i], q.stationId, q.date, q.startTime, q.endTime, None);
        if Collide(bs[i], b) {
          assert false;
        }
      } else {
        assert bs[i] == s.bookings[i] && bs[j] == s.bookings[j];
      }
    }
  }

  /** `createBooking` alone does not keep that promise: storing the same
      request twice on a station whose range reads as a non-empty interval
      books the station twice. */
  lemma CreateAllowsDoubleBooking(s: Store, q: Request, id1: string, id2: string, t1: string, t2: string)
    requires q.status != Cancelled
    requires ParseTime(q.startTime).Some? && ParseTime(q.endTime).Some?
    requires ParseTime(q.startTime).value < ParseTime(q.endTime).value
    ensures var s1 := CreateBooking(s, q, id1, t1).0;
      !NoDoubleBooking(CreateBooking(s1, q, id2, t2).0.bookings)
  {
    var s1 := CreateBooking(s, q, id1, t1).0;
    var bs := CreateBooking(s1, q, id2, t2).0.bookings;
    var n := |s.bookings|;
    assert bs[n] == WithId(q, id1, t1) && bs[n + 1] == WithId(q, id2, t2);
    assert Collide(bs[n], bs[n + 1]);
  }

  /** Reserving the same request twice succeeds at most once. */
  lemma ReserveRefusesRepeat(s: Store, q: Request, id1: string, id2: string, t1: string, t2: string)
    requires q.status != Cancelled
    requires ParseTime(q.startTime).Some? && ParseTime(q.endTime).Some?
    requires ParseTime(q.startTime).value < ParseTime(q.endTime).value
    requires Reserve(s, q, id1, t1).Ok?
    ensures Reserve(Reserve(s, q, id1, t1).value.0, q, id2, t2).Err?
  {
    var s1 := Reserve(s, q, id1, t1).value.0;
    var b := WithId(q, id1, t1);
    assert s1.bookings[|s.bookings|] == b;
    assert Holds(b, q.stationId, q.date);
  }

  // ---------------------------------------------------------------------------
  // The stored configuration.

  /** `getConfig`: the stored configuration, or the built-in one. */
  function GetConfig(s: Store, loadedAt: string): (r: Config.AppConfig)
    ensures s.config.None? ==> r == Config.LocalDefaultConfig(loadedAt)
    ensures s.config.Some? ==> r == s.config.value
  {
    s.config.GetOr(Config.LocalDefaultConfig(loadedAt))
  }

  /** `updateConfig`: merge the patch into the current configuration, stamp
      it, store it and return it. */
  function UpdateConfig(s: Store, patch: Config.ConfigPatch, loadedAt: string, now: string): (r: (Store, Config.AppConfig))
    ensures r.0.config == Some(r.1)
    ensures r.0.bookings == s.bookings
    ensures r.1 == Config.Merge(GetConfig(s, loadedAt), patch, now)
  {
    var c := Config.Merge(GetConfig(s, loadedAt), patch, now);
    (s.(config := Some(c)), c)
  }

  /** A stored patch is what the next `getConfig` returns, whatever the default. */
  lemma UpdateThenGet(s: Store, patch: Config.ConfigPatch, loadedAt: string, later: string, now: string)
    ensures GetConfig(UpdateConfig(s, patch, loadedAt, now).0, later) == UpdateConfig(s, patch, loadedAt, now).1
    ensures patch.pricePerHour.Some? ==>
      GetConfig(UpdateConfig(s, patch, loadedAt, now).0, later).pricePerHour == patch.pricePerHour.value
  {
  }
}
