/** A booking of one station for one time range on one date, and the
    booking arithmetic the code repeats in several places: duration in hours,
    revenue over confirmed bookings, and the slot-availability check of the
    booking-utilities test file. */
module Bookings {
  import opened Wrappers
  import opened Time
  import Seqs

  datatype Status = Pending | Confirmed | Cancelled

  /** Dates are 'YYYY-MM-DD' keys; times are "HH:MM" labels as the code stores them. */
  datatype Booking = Booking(
    id: string,
    date: string,
    startTime: string,
    endTime: string,
    stationId: int,
    memberName: string,
    memberPhone: string,
    notes: Option<string>,
    status: Status,
    createdAt: string)

  predicate IsConfirmed(b: Booking) {
    b.status == Confirmed
  }

  /** `calculateDuration(b.startTime, b.endTime)`; None where the code gets NaN. */
  function Duration(b: Booking): Option<real> {
    DurationHours(b.startTime, b.endTime)
  }

  /** The durations summed, in hours (`reduce((sum, b) => sum + duration, 0)`). */
  function TotalHours(bs: seq<Booking>): Option<real> {
    if |bs| == 0 then Some(0.0) else AddNum(Duration(bs[0]), TotalHours(bs[1..]))
  }

  /** `calculateRevenue`: duration times price, summed over confirmed bookings only. */
  function Revenue(bs: seq<Booking>, price: real): Option<real> {
    if |bs| == 0 then Some(0.0)
    else AddNum(if IsConfirmed(bs[0]) then MulNum(Duration(bs[0]), price) else Some(0.0), Revenue(bs[1..], price))
  }

  /** Scaling distributes over a NaN-propagating sum. */
  lemma MulAddNum(a: Option<real>, b: Option<real>, k: real)
    ensures MulNum(AddNum(a, b), k) == AddNum(MulNum(a, k), MulNum(b, k))
  {
    if a.Some? && b.Some? {
      var lhs, rhs := MulNum(AddNum(a, b), k), AddNum(MulNum(a, k), MulNum(b, k));
      assert lhs.value == (a.value + b.value) * k == a.value * k + b.value * k == rhs.value;
    }
  }

  /** Revenue is the price times the hours of the confirmed bookings, so it is
      linear in the price and bookings of any other status contribute nothing. */
  lemma {:induction false} RevenueIsPriceTimesConfirmedHours(bs: seq<Booking>, price: real)
    ensures Revenue(bs, price) == MulNum(TotalHours(Seqs.Filter(bs, IsConfirmed)), price)
    decreases |bs|
  {
    if |bs| == 0 {
      assert Seqs.Filter(bs, IsConfirmed) == [];
    } else {
      RevenueIsPriceTimesConfirmedHours(bs[1..], price);
      var rest := Seqs.Filter(bs[1..], IsConfirmed);
      if IsConfirmed(bs[0]) {
        var f := [bs[0]] + rest;
        assert Seqs.Filter(bs, IsConfirmed) == f;
        assert f[1..] == rest;
        MulAddNum(Duration(bs[0]), TotalHours(rest), price);
      } else {
        assert Seqs.Filter(bs, IsConfirmed) == rest;
        var r := Revenue(bs[1..], price);
        assert AddNum(Some(0.0), r) == r;
      }
    }
  }

  /** Revenue splits over concatenation. */
  lemma {:induction false} RevenueAppend(a: seq<Booking>, b: seq<Booking>, price: real)
    ensures Revenue(a + b, price) == AddNum(Revenue(a, price), Revenue(b, price))
    decreases |a|
  {
    if |a| > 0 {
      assert (a + b)[1..] == a[1..] + b;
      RevenueAppend(a[1..], b, price);
    } else {
      assert a + b == b;
      var r := Revenue(b, price);
      assert AddNum(Some(0.0), r) == r;
    }
  }

  /** The hours of two lists together are the sum of their hours. */
  lemma {:induction false} TotalHoursAppend(a: seq<Booking>, b: seq<Booking>)
    ensures TotalHours(a + b) == AddNum(TotalHours(a), TotalHours(b))
    decreases |a|
  {
    if |a| > 0 {
      assert (a + b)[1..] == a[1..] + b;
      TotalHoursAppend(a[1..], b);
      AddNumAssoc(Duration(a[0]), TotalHours(a[1..]), TotalHours(b));
    } else {
      assert a + b == b;
      var r := TotalHours(b);
      assert AddNum(Some(0.0), r) == r;
    }
  }

  /** A booking that is not confirmed never changes the revenue. */
  lemma NonConfirmedAddsNothing(bs: seq<Booking>, b: Booking, price: real)
    requires !IsConfirmed(b)
    ensures Revenue(bs + [b], price) == Revenue(bs, price)
  {
    assert Revenue([b], price) == Some(0.0);
    RevenueAppend(bs, [b], price);
    var r := Revenue(bs, price);
    assert AddNum(r, Some(0.0)) == r;
  }

  // ---------------------------------------------------------------------------
  // The test file's copy of the slot-availability check.

  /** Booking b blocks [start, end) at `station` on `date` in the test copy:
      confirmed, same date and station, and overlapping. */
  predicate ConfirmedConflict(b: Booking, date: string, start: string, end: string, station: int) {
    && b.status == Confirmed
    && b.date == date
    && b.stationId == station
    && OverlapsParsed(ParseTime(start), ParseTime(end), ParseTime(b.startTime), ParseTime(b.endTime))
  }

  /** `isTimeSlotAvailable`: no booking found that blocks the slot. */
  function IsTimeSlotAvailable(bs: seq<Booking>, date: string, start: string, end: string, station: int): (r: bool)
    ensures !r <==> exists i :: 0 <= i < |bs| && ConfirmedConflict(bs[i], date, start, end, station)
  {
    Seqs.Find(bs, ConflictWith(date, start, end, station)).None?
  }

  /** The test copy's search predicate. */
  function ConflictWith(date: string, start: string, end: string, station: int): Booking -> bool {
    b => ConfirmedConflict(b, date, start, end, station)
  }

  /** Pending and cancelled bookings never make a slot unavailable in this copy. */
  lemma OnlyConfirmedBlocks(bs: seq<Booking>, b: Booking, date: string, start: string, end: string, station: int)
    requires !IsConfirmed(b)
    ensures IsTimeSlotAvailable(bs + [b], date, start, end, station)
            == IsTimeSlotAvailable(bs, date, start, end, station)
  {
    Seqs.FindAppendMiss(bs, b, ConflictWith(date, start, end, station));
  }

  // ---------------------------------------------------------------------------
  // The test vectors.

  function Fixture(id: string, start: string, end: string, station: int, status: Status): Booking {
    Booking(id, "2024-03-15", start, end, station, "", "", None, status, "")
  }

  // Readings of the clock literals the vectors use, one lemma each.
  lemma Reads0900() ensures ParseTime("09:00") == Some(540.0) { LabelReads(9, 0, "09:00"); }
  lemma Reads0930() ensures ParseTime("09:30") == Some(570.0) { LabelReads(9, 30, "09:30"); }
  lemma Reads1100() ensures ParseTime("11:00") == Some(660.0) { LabelReads(11, 0, "11:00"); }
  lemma Reads0915() ensures ParseTime("09:15") == Some(555.0) { LabelReads(9, 15, "09:15"); }
  lemma Reads1145() ensures ParseTime("11:45") == Some(705.0) { LabelReads(11, 45, "11:45"); }
  lemma Reads1400() ensures ParseTime("14:00") == Some(840.0) { LabelReads(14, 0, "14:00"); }
  lemma Reads1530() ensures ParseTime("15:30") == Some(930.0) { LabelReads(15, 30, "15:30"); }
  lemma Reads1000() ensures ParseTime("10:00") == Some(600.0) { LabelReads(10, 0, "10:00"); }
  lemma Reads1200() ensures ParseTime("12:00") == Some(720.0) { LabelReads(12, 0, "12:00"); }

  lemma DurationOfReadings(a: string, b: string, x: real, y: real)
    requires ParseTime(a) == Some(x) && ParseTime(b) == Some(y)
    ensures DurationHours(a, b) == Some((y - x) / 60.0)
  {
  }

  /** The duration vectors: 0.5, 2, 2.5 and, with no clamping, -2 hours. */
  lemma DurationVectors()
    ensures DurationHours("09:00", "09:30") == Some(0.5)
    ensures DurationHours("09:00", "11:00") == Some(2.0)
    ensures DurationHours("09:15", "11:45") == Some(2.5)
    ensures DurationHours("11:00", "09:00") == Some(-2.0)
  {
    Reads0900(); Reads0930(); Reads1100(); Reads0915(); Reads1145();
    DurationOfReadings("09:00", "09:30", 540.0, 570.0);
    DurationOfReadings("09:00", "11:00", 540.0, 660.0);
    DurationOfReadings("09:15", "11:45", 555.0, 705.0);
    DurationOfReadings("11:00", "09:00", 660.0, 540.0);
  }

  function RevenueFixture(): seq<Booking> {
    [Fixture("1", "09:00", "11:00", 1, Confirmed),
     Fixture("2", "14:00", "15:30", 2, Confirmed),
     Fixture("3", "16:00", "17:00", 1, Cancelled)]
  }

  /** One booking in front adds its own share, NaN-propagating. */
  lemma RevenueCons(b: Booking, rest: seq<Booking>, price: real, share: Option<real>)
    requires share == if IsConfirmed(b) then MulNum(Duration(b), price) else Some(0.0)
    ensures Revenue([b] + rest, price) == AddNum(share, Revenue(rest, price))
  {
    assert ([b] + rest)[1..] == rest;
  }

  /** A single confirmed booking earns its own share: its hours times the price. */
  lemma RevenueOfOne(b: Booking, price: real)
    requires IsConfirmed(b)
    ensures Revenue([b], price) == MulNum(Duration(b), price)
  {
    var share := MulNum(Duration(b), price);
    RevenueCons(b, [], price, share);
    assert [b] + [] == [b];
    assert AddNum(share, Some(0.0)) == share;
  }

  /** Two confirmed bookings and a cancelled one earn the two confirmed shares. */
  lemma RevenueOfThree(b1: Booking, b2: Booking, b3: Booking, price: real)
    requires IsConfirmed(b1) && IsConfirmed(b2) && b3.status == Cancelled
    ensures Revenue([b1, b2, b3], price) == AddNum(MulNum(Duration(b1), price), MulNum(Duration(b2), price))
  {
    var s1, s2 := MulNum(Duration(b1), price), MulNum(Duration(b2), price);
    RevenueCons(b3, [], price, Some(0.0));
    assert [b3] + [] == [b3];
    RevenueCons(b2, [b3], price, s2);
    assert [b2] + [b3] == [b2, b3];
    RevenueCons(b1, [b2, b3], price, s1);
    assert [b1] + [b2, b3] == [b1, b2, b3];
    assert AddNum(Some(0.0), Some(0.0)) == Some(0.0);
    assert AddNum(s2, Some(0.0)) == s2;
  }

  /** The fixture's confirmed bookings last 2 h and 1.5 h, so it earns 3.5 hours' worth. */
  lemma RevenueOfFixture(price: real)
    ensures Revenue(RevenueFixture(), price) == Some(3.5 * price)
  {
    Reads0900(); Reads1100(); Reads1400(); Reads1530();
    DurationOfReadings("09:00", "11:00", 540.0, 660.0);
    DurationOfReadings("14:00", "15:30", 840.0, 930.0);
    var bs := RevenueFixture();
    RevenueOfHours(bs[0], bs[1], bs[2], price);
  }

  /** Bookings of 2 h and 1.5 h and a cancelled one earn 3.5 hours' worth,
      whatever the cancelled booking's times. */
  lemma RevenueOfHours(b1: Booking, b2: Booking, b3: Booking, price: real)
    requires IsConfirmed(b1) && Duration(b1).Some? && Duration(b1).value == 2.0
    requires IsConfirmed(b2) && Duration(b2).Some? && Duration(b2).value == 1.5
    requires b3.status == Cancelled
    ensures Revenue([b1, b2, b3], price) == Some(3.5 * price)
  {
    RevenueOfThree(b1, b2, b3, price);
    var r := AddNum(MulNum(Duration(b1), price), MulNum(Duration(b2), price));
    assert r.value == 2.0 * price + 1.5 * price;
  }

  /** The revenue vectors: 350 at 100 per hour, 280 at 80 per hour; no bookings, no revenue. */
  lemma RevenueVectors()
    ensures Revenue(RevenueFixture(), 100.0) == Some(350.0)
    ensures Revenue(RevenueFixture(), 80.0) == Some(280.0)
    ensures Revenue([], 100.0) == Some(0.0)
  {
    RevenueOfFixture(100.0);
    RevenueOfFixture(80.0);
  }

  /** Against a single booking, a slot is free exactly when that booking does not block it. */
  lemma AvailableAlone(b: Booking, date: string, start: string, end: string, station: int)
    ensures IsTimeSlotAvailable([b], date, start, end, station) <==> !ConfirmedConflict(b, date, start, end, station)
  {
    if ConfirmedConflict(b, date, start, end, station) {
      assert [b][0] == b;
    }
  }

  /** The availability vectors against one confirmed 09:00-11:00 booking on
      station 1: back-to-back at 11:00 is free, 10:00-12:00 overlaps, another
      date or another station is free, and a cancelled booking blocks nothing. */
  lemma AvailabilityVectors()
    ensures IsTimeSlotAvailable([Fixture("1", "09:00", "11:00", 1, Confirmed)], "2024-03-15", "11:00", "12:00", 1)
    ensures !IsTimeSlotAvailable([Fixture("1", "09:00", "11:00", 1, Confirmed)], "2024-03-15", "10:00", "12:00", 1)
    ensures IsTimeSlotAvailable([Fixture("1", "09:00", "11:00", 1, Confirmed)], "2024-03-16", "09:00", "11:00", 1)
    ensures IsTimeSlotAvailable([Fixture("1", "09:00", "11:00", 1, Confirmed)], "2024-03-15", "09:00", "11:00", 2)
    ensures IsTimeSlotAvailable([Fixture("2", "09:00", "11:00", 1, Cancelled)], "2024-03-15", "09:00", "11:00", 1)
  {
    Reads0900(); Reads1000(); Reads1100(); Reads1200();
    var b := Fixture("1", "09:00", "11:00", 1, Confirmed);
    AvailableAlone(b, "2024-03-15", "11:00", "12:00", 1);
    AvailableAlone(b, "2024-03-15", "10:00", "12:00", 1);
    AvailableAlone(b, "2024-03-16", "09:00", "11:00", 1);
    AvailableAlone(b, "2024-03-15", "09:00", "11:00", 2);
    AvailableAlone(Fixture("2", "09:00", "11:00", 1, Cancelled), "2024-03-15", "09:00", "11:00", 1);
    assert "2024-03-16" != "2024-03-15" by {
      assert "2024-03-16"[9] != "2024-03-15"[9];
    }
  }
}
