/** The data-analysis page: the confirmed bookings of the chosen range, the
    headline figures, the per-date trend, the per-hour heat and the
    per-station usage. */
module Analytics {
  import opened Wrappers
  import opened Bookings
  import opened Time
  import Assoc
  import Config
  import Seqs
  import opened Strings
  import BookingHooks
  import Admin

  // ---------------------------------------------------------------------------
  // The range.

  /** The chosen range: everything, or the bookings dated on or after a first
      day, given by its 'YYYY-MM-DD' key. */
  datatype Range = All | Since(first: string)

  predicate InRange(b: Booking, range: Range) {
    match range
    case All => true
    case Since(first) => Strings.LexLe(first, b.date)
  }

  predicate Counted(b: Booking, range: Range) {
    IsConfirmed(b) && InRange(b, range)
  }

  /** `filteredBookings`: only confirmed bookings, and only those in range. */
  function Filtered(bs: seq<Booking>, range: Range): (r: seq<Booking>)
    ensures Seqs.IsSubsequence(r, bs)
    ensures forall b :: b in r <==> b in bs && IsConfirmed(b) && InRange(b, range)
    ensures forall b {:trigger multiset(r)[b]} ::
      multiset(r)[b] == if IsConfirmed(b) && InRange(b, range) then multiset(bs)[b] else 0
    ensures forall i :: 0 <= i < |r| ==> IsConfirmed(r[i])
  {
    Seqs.Filter(bs, (b: Booking) => Counted(b, range))
  }

  /** A later first day never analyses more bookings, and no range analyses
      more than 'all'. */
  lemma NarrowerRangeCountsFewer(bs: seq<Booking>, first: string, later: string)
    requires Strings.LexLe(first, later)
    ensures |Filtered(bs, Since(later))| <= |Filtered(bs, Since(first))| <= |Filtered(bs, All)|
  {
    forall i | 0 <= i < |bs| && Counted(bs[i], Since(later))
      ensures Counted(bs[i], Since(first))
    {
      Strings.LexLeTransitive(first, later, bs[i].date);
    }
    Seqs.CountMonotone(bs, (b: Booking) => Counted(b, Since(later)), (b: Booking) => Counted(b, Since(first)));
    Seqs.CountMonotone(bs, (b: Booking) => Counted(b, Since(first)), (b: Booking) => Counted(b, All));
  }

  // ---------------------------------------------------------------------------
  // Money and hours.

  /** The page's own `calcRevenue` summed: duration times price for every
      booking given, whatever its status. */
  function Takings(bs: seq<Booking>, price: real): Option<real> {
    if |bs| == 0 then Some(0.0) else AddNum(MulNum(Duration(bs[0]), price), Takings(bs[1..], price))
  }

  /** The takings are the price times the hours. */
  lemma {:induction false} TakingsArePriceTimesHours(bs: seq<Booking>, price: real)
    ensures Takings(bs, price) == MulNum(TotalHours(bs), price)
    decreases |bs|
  {
    if |bs| > 0 {
      TakingsArePriceTimesHours(bs[1..], price);
      MulAddNum(Duration(bs[0]), TotalHours(bs[1..]), price);
    }
  }

  /** On confirmed bookings the page's sum agrees with the booking list's revenue. */
  lemma {:induction false} TakingsAgreeWithRevenue(bs: seq<Booking>, price: real)
    requires forall i :: 0 <= i < |bs| ==> IsConfirmed(bs[i])
    ensures Takings(bs, price) == Revenue(bs, price)
    decreases |bs|
  {
    if |bs| > 0 {
      TakingsAgreeWithRevenue(bs[1..], price);
    }
  }

  // ---------------------------------------------------------------------------
  // The headline figures.

  /** Someone with phone p made one of the bookings. */
  predicate BookedBy(bs: seq<Booking>, p: string) {
    exists i :: 0 <= i < |bs| && bs[i].memberPhone == p
  }

  lemma BookedByCons(bs: seq<Booking>, p: string)
    requires |bs| > 0
    ensures BookedBy(bs, p) <==> bs[0].memberPhone == p || BookedBy(bs[1..], p)
  {
    if BookedBy(bs, p) {
      var i :| 0 <= i < |bs| && bs[i].memberPhone == p;
      if i > 0 {
        assert bs[1..][i - 1].memberPhone == p;
      }
    }
    if BookedBy(bs[1..], p) {
      var i :| 0 <= i < |bs[1..]| && bs[1..][i].memberPhone == p;
      assert bs[i + 1].memberPhone == p;
    }
  }

  /** The distinct phone numbers among the bookings (`new Set(...map(b => b.memberPhone))`). */
  function Phones(bs: seq<Booking>): (r: set<string>)
    ensures |r| <= |bs|
    ensures forall p :: p in r <==> BookedBy(bs, p)
    ensures |bs| > 0 ==> |r| > 0
  {
    if |bs| == 0 then {}
    else
      var rest := Phones(bs[1..]);
      assert forall p :: BookedBy(bs, p) <==> bs[0].memberPhone == p || BookedBy(bs[1..], p) by {
        forall p ensures BookedBy(bs, p) <==> bs[0].memberPhone == p || BookedBy(bs[1..], p) {
          BookedByCons(bs, p);
        }
      }
      {bs[0].memberPhone} + rest
  }

  datatype Metrics = Metrics(
    totalBookings: nat,
    totalRevenue: Option<real>,
    totalHours: Option<real>,
    uniqueUsers: nat,
    avgOrderValue: Option<real>)

  /** `metrics` over the analysed bookings. */
  function ComputeMetrics(f: seq<Booking>, price: real): (r: Metrics)
    ensures r.totalBookings == |f| && r.totalHours == TotalHours(f)
    ensures r.totalRevenue == MulNum(r.totalHours, price)
    ensures r.uniqueUsers == |Phones(f)|
    ensures r.uniqueUsers <= r.totalBookings
    ensures r.uniqueUsers == 0 <==> r.totalBookings == 0
    ensures r.avgOrderValue == Average(r.totalRevenue, r.totalBookings)
  {
    var revenue := Takings(f, price);
    TakingsArePriceTimesHours(f, price);
    Metrics(|f|, revenue, TotalHours(f), |Phones(f)|, Average(revenue, |f|))
  }

  /** The order value per booking: 0 with no bookings, NaN with a NaN total. */
  function Average(total: Option<real>, n: nat): (r: Option<real>)
    ensures n == 0 ==> r == Some(0.0)
    ensures n > 0 ==> (r.Some? <==> total.Some?)
    ensures n > 0 && r.Some? ==> r.value * (n as real) == total.value
  {
    if n == 0 then Some(0.0)
    else if total.None? then None
    else
      var v, k := total.value, n as real;
      assert (v / k) * k == v;
      Some(v / k)
  }

  /** A customer who books twice counts once. */
  lemma RepeatCustomerCountsOnce(b1: Booking, b2: Booking, price: real)
    requires b1.memberPhone == b2.memberPhone
    ensures ComputeMetrics([b1, b2], price).uniqueUsers == 1
    ensures ComputeMetrics([b1, b2], price).totalBookings == 2
  {
    assert Phones([b1, b2]) == {b1.memberPhone} by {
      assert [b1, b2][1..] == [b2];
      assert [b2][1..] == [];
    }
  }

  // ---------------------------------------------------------------------------
  // The trend by date.

  /** One point of the trend: a date's bookings, revenue and hours. */
  datatype TrendRow = TrendRow(date: string, bookings: nat, revenue: Option<real>, hours: Option<real>)

  /** The bookings dated `day`. */
  function OnDay(day: string): Booking -> bool {
    (b: Booking) => b.date == day
  }

  /** One of the bookings is dated `day`. */
  predicate HasDate(bs: seq<Booking>, day: string) {
    exists i :: 0 <= i < |bs| && bs[i].date == day
  }

  lemma HasDateCons(bs: seq<Booking>, day: string)
    requires |bs| > 0
    ensures HasDate(bs, day) <==> bs[0].date == day || HasDate(bs[1..], day)
  {
    if HasDate(bs, day) {
      var i :| 0 <= i < |bs| && bs[i].date == day;
      if i > 0 {
        assert bs[1..][i - 1].date == day;
      }
    }
    if HasDate(bs[1..], day) {
      var i :| 0 <= i < |bs[1..]| && bs[1..][i].date == day;
      assert bs[i + 1].date == day;
    }
  }

  /** Every row sits under its own date and earns the price per hour. */
  ghost predicate Coherent(m: seq<(string, TrendRow)>, price: real) {
    forall k :: Assoc.Get(m, k).Some? ==>
      Assoc.Get(m, k).value.date == k && Assoc.Get(m, k).value.revenue == MulNum(Assoc.Get(m, k).value.hours, price)
  }

  function BookingsOr0(row: Option<TrendRow>): nat {
    if row.Some? then row.value.bookings else 0
  }

  /** The rows of the map, in insertion order (`Array.from(dateMap.values())`). */
  function Values(m: seq<(string, TrendRow)>): (r: seq<TrendRow>)
    ensures |r| == |m|
    ensures forall i :: 0 <= i < |m| ==> r[i] == m[i].1
  {
    if |m| == 0 then [] else [m[0].1] + Values(m[1..])
  }

  /** The bookings over all rows. */
  function SumRows(rows: seq<TrendRow>): int {
    if |rows| == 0 then 0 else rows[0].bookings + SumRows(rows[1..])
  }

  /** Setting one key changes the total by the difference of its counts. */
  lemma {:induction false} SumPut(m: seq<(string, TrendRow)>, k: string, v: TrendRow)
    ensures SumRows(Values(Assoc.Put(m, k, v))) == SumRows(Values(m)) - BookingsOr0(Assoc.Get(m, k)) + v.bookings
    decreases |m|
  {
    if |m| > 0 && m[0].0 != k {
      SumPut(m[1..], k, v);
      assert Values(Assoc.Put(m, k, v)) == [m[0].1] + Values(Assoc.Put(m[1..], k, v));
    }
  }

  /** Setting a key to a row under its own date that earns the price per hour keeps the map coherent. */
  lemma PutKeepsCoherent(m: seq<(string, TrendRow)>, k: string, v: TrendRow, price: real)
    requires Coherent(m, price)
    requires v.date == k && v.revenue == MulNum(v.hours, price)
    ensures Coherent(Assoc.Put(m, k, v), price)
  {
    var r := Assoc.Put(m, k, v);
    forall k' | Assoc.Get(r, k').Some?
      ensures Assoc.Get(r, k').value.date == k'
      ensures Assoc.Get(r, k').value.revenue == MulNum(Assoc.Get(r, k').value.hours, price)
    {
      if k' != k {
        assert Assoc.Get(r, k') == Assoc.Get(m, k');
      }
    }
  }

  lemma InLast(days: seq<string>, x: string)
    requires |days| > 0
    ensures x in days <==> x in days[..|days| - 1] || x == days[|days| - 1]
  {
    assert days == days[..|days| - 1] + [days[|days| - 1]];
  }

  /** A day with nothing booked. */
  function ZeroRow(day: string): TrendRow {
    TrendRow(day, 0, Some(0.0), Some(0.0))
  }

  /** The seeded days of a fixed-length range, each with nothing booked. */
  function Seed(days: seq<string>, price: real): (m: seq<(string, TrendRow)>)
    ensures Assoc.DistinctKeys(m) && Coherent(m, price)
    ensures SumRows(Values(m)) == 0
    decreases |days|, 0
  {
    if |days| == 0 then []
    else
      var m := Seed(days[..|days| - 1], price);
      var k := days[|days| - 1];
      SeedAt(days[..|days| - 1], price, k);
      SumPut(m, k, ZeroRow(k));
      PutKeepsCoherent(m, k, ZeroRow(k), price);
      Assoc.Put(m, k, ZeroRow(k))
  }

  /** Exactly the range's days are seeded, each with nothing booked. */
  lemma {:induction false} SeedAt(days: seq<string>, price: real, day: string)
    ensures Assoc.Get(Seed(days, price), day).Some? <==> day in days
    ensures BookingsOr0(Assoc.Get(Seed(days, price), day)) == 0
    decreases |days|, 1
  {
    if |days| > 0 {
      SeedAt(days[..|days| - 1], price, day);
      InLast(days, day);
    }
  }

  /** One booking counted into the map: its date's row grows, or a new row starts. */
  function Tally(m: seq<(string, TrendRow)>, b: Booking, price: real): (r: seq<(string, TrendRow)>)
    requires Coherent(m, price)
    ensures Coherent(r, price)
    ensures Assoc.DistinctKeys(m) ==> Assoc.DistinctKeys(r)
    ensures Assoc.Get(r, b.date).Some? && Assoc.Get(r, b.date).value.bookings == BookingsOr0(Assoc.Get(m, b.date)) + 1
    ensures forall k :: k != b.date ==> Assoc.Get(r, k) == Assoc.Get(m, k)
    ensures SumRows(Values(r)) == SumRows(Values(m)) + 1
  {
    var d := Duration(b);
    var prev := Assoc.Get(m, b.date);
    var row := if prev.Some?
      then prev.value.(bookings := prev.value.bookings + 1, revenue := AddNum(prev.value.revenue, MulNum(d, price)), hours := AddNum(prev.value.hours, d))
      else TrendRow(b.date, 1, MulNum(d, price), d);
    MulAddNum(if prev.Some? then prev.value.hours else None, d, price);
    SumPut(m, b.date, row);
    PutKeepsCoherent(m, b.date, row, price);
    Assoc.Put(m, b.date, row)
  }

  /** The `forEach` over the analysed bookings. */
  function TallyAll(m: seq<(string, TrendRow)>, f: seq<Booking>, price: real): (r: seq<(string, TrendRow)>)
    requires Coherent(m, price)
    ensures Coherent(r, price)
    ensures Assoc.DistinctKeys(m) ==> Assoc.DistinctKeys(r)
    ensures SumRows(Values(r)) == SumRows(Values(m)) + |f|
    decreases |f|
  {
    if |f| == 0 then m
    else TallyAll(Tally(m, f[0], price), f[1..], price)
  }

  /** After the `forEach` a date has a row exactly when it had one or a booking
      is dated so, and the row has gained that date's bookings. */
  lemma {:induction false} TallyAllAt(m: seq<(string, TrendRow)>, f: seq<Booking>, price: real, day: string)
    requires Coherent(m, price)
    ensures Assoc.Get(TallyAll(m, f, price), day).Some? <==> Assoc.Get(m, day).Some? || HasDate(f, day)
    ensures BookingsOr0(Assoc.Get(TallyAll(m, f, price), day)) == BookingsOr0(Assoc.Get(m, day)) + Seqs.Count(f, OnDay(day))
    decreases |f|
  {
    if |f| > 0 {
      TallyAllAt(Tally(m, f[0], price), f[1..], price, day);
      FilterCons(f, OnDay(day));
      HasDateCons(f, day);
    }
  }

  /** The hours a date's row holds; a date without a row has none yet. */
  function HoursOr0(row: Option<TrendRow>): Option<real> {
    if row.Some? then row.value.hours else Some(0.0)
  }

  /** Every seeded day starts with no hours. */
  lemma {:induction false} SeedHours(days: seq<string>, price: real, day: string)
    ensures HoursOr0(Assoc.Get(Seed(days, price), day)) == Some(0.0)
    decreases |days|
  {
    if |days| > 0 {
      SeedHours(days[..|days| - 1], price, day);
    }
  }

  /** One tally adds the booking's duration to its date's hours and no other. */
  lemma TallyHours(m: seq<(string, TrendRow)>, b: Booking, price: real, day: string)
    requires Coherent(m, price)
    ensures HoursOr0(Assoc.Get(Tally(m, b, price), day))
      == if b.date == day then AddNum(HoursOr0(Assoc.Get(m, day)), Duration(b)) else HoursOr0(Assoc.Get(m, day))
  {
  }

  /** After the `forEach` a date's row holds that date's hours on top of its seed. */
  lemma {:induction false} TallyAllHours(m: seq<(string, TrendRow)>, f: seq<Booking>, price: real, day: string)
    requires Coherent(m, price)
    ensures HoursOr0(Assoc.Get(TallyAll(m, f, price), day))
      == AddNum(HoursOr0(Assoc.Get(m, day)), TotalHours(Seqs.Filter(f, OnDay(day))))
    decreases |f|
  {
    if |f| > 0 {
      var rest := Seqs.Filter(f[1..], OnDay(day));
      TallyAllHours(Tally(m, f[0], price), f[1..], price, day);
      TallyHours(m, f[0], price, day);
      FilterCons(f, OnDay(day));
      AddNumAssoc(HoursOr0(Assoc.Get(m, day)), Duration(f[0]), TotalHours(rest));
      assert ([f[0]] + rest)[1..] == rest;
    }
  }

  /** The map `trendData` builds before sorting. */
  function TrendMap(f: seq<Booking>, days: seq<string>, price: real): (m: seq<(string, TrendRow)>)
    ensures Assoc.DistinctKeys(m) && Coherent(m, price)
    ensures SumRows(Values(m)) == |f|
  {
    TallyAll(Seed(days, price), f, price)
  }

  /** Each row of the map: its date's bookings, the price per hour, and a date
      that was seeded or booked. */
  lemma TrendRowFacts(f: seq<Booking>, days: seq<string>, price: real, row: TrendRow)
    requires row in Values(TrendMap(f, days, price))
    ensures row.bookings == Seqs.Count(f, OnDay(row.date))
    ensures row.hours == TotalHours(Seqs.Filter(f, OnDay(row.date)))
    ensures row.revenue == MulNum(row.hours, price)
    ensures row.date in days || HasDate(f, row.date)
  {
    var m := TrendMap(f, days, price);
    RowOfMap(m, price, row);
    SeedAt(days, price, row.date);
    TallyAllAt(Seed(days, price), f, price, row.date);
    SeedHours(days, price, row.date);
    TallyAllHours(Seed(days, price), f, price, row.date);
  }

  /** Ascending by date (`a.date.localeCompare(b.date)`). */
  predicate DateLe(a: TrendRow, b: TrendRow) {
    Strings.LexLe(a.date, b.date)
  }

  lemma DateLeIsTotalPreorder()
    ensures Seqs.TotalPreorder(DateLe)
  {
    forall a: TrendRow, b: TrendRow ensures DateLe(a, b) || DateLe(b, a) {
      Strings.LexLeTotal(a.date, b.date);
    }
    forall a: TrendRow, b: TrendRow, c: TrendRow | DateLe(a, b) && DateLe(b, c)
      ensures DateLe(a, c)
    {
      Strings.LexLeTransitive(a.date, b.date, c.date);
    }
  }

  lemma {:induction false} SumInsert(x: TrendRow, s: seq<TrendRow>)
    ensures SumRows(Seqs.Insert(x, s, DateLe)) == x.bookings + SumRows(s)
    decreases |s|
  {
    if |s| > 0 && !DateLe(x, s[0]) {
      SumInsert(x, s[1..]);
      assert Seqs.Insert(x, s, DateLe)[1..] == Seqs.Insert(x, s[1..], DateLe);
    }
  }

  /** Sorting moves rows but loses no bookings. */
  lemma {:induction false} SumSort(s: seq<TrendRow>)
    ensures SumRows(Seqs.SortBy(s, DateLe)) == SumRows(s)
    decreases |s|
  {
    if |s| > 0 {
      SumSort(s[1..]);
      SumInsert(s[0], Seqs.SortBy(s[1..], DateLe));
    }
  }

  /** In a coherent map without repeated keys, each row is the one its date looks up. */
  lemma RowOfMap(m: seq<(string, TrendRow)>, price: real, row: TrendRow)
    requires Assoc.DistinctKeys(m) && Coherent(m, price)
    requires row in Values(m)
    ensures Assoc.Get(m, row.date) == Some(row)
  {
    var j :| 0 <= j < |m| && Values(m)[j] == row;
    assert Assoc.Get(m, m[j].0) == Some(m[j].1);
  }

  /** Rows of a coherent map without repeated keys have pairwise distinct dates. */
  lemma DistinctDatesOfMap(m: seq<(string, TrendRow)>, price: real)
    requires Assoc.DistinctKeys(m) && Coherent(m, price)
    ensures forall i, j :: 0 <= i < j < |Values(m)| ==> Values(m)[i].date != Values(m)[j].date
  {
    forall i, j | 0 <= i < j < |Values(m)| ensures Values(m)[i].date != Values(m)[j].date {
      assert Assoc.Get(m, m[i].0) == Some(m[i].1);
      assert Assoc.Get(m, m[j].0) == Some(m[j].1);
    }
  }

  /** `trendData`: for the 7-, 30- and 90-day ranges the range's days (`days`)
      are seeded with zero rows; every analysed booking is counted under its
      date; the rows come out in date order. */
  function Trend(f: seq<Booking>, days: seq<string>, price: real): (r: seq<TrendRow>)
    ensures Seqs.SortedBy(r, DateLe)
    ensures SumRows(r) == |f|
    ensures forall row :: row in r ==> row.bookings == Seqs.Count(f, OnDay(row.date))
    ensures forall row :: row in r ==> row.hours == TotalHours(Seqs.Filter(f, OnDay(row.date)))
    ensures forall row :: row in r ==> row.revenue == MulNum(row.hours, price)
    ensures forall row :: row in r ==> row.date in days || HasDate(f, row.date)
    ensures forall i, j :: 0 <= i < j < |r| ==> r[i].date != r[j].date
  {
    var rows := Values(TrendMap(f, days, price));
    DateLeIsTotalPreorder();
    Seqs.SortBySorted(rows, DateLe);
    SumSort(rows);
    DistinctDatesOfMap(TrendMap(f, days, price), price);
    Seqs.PermutationKeepsDistinctKeys(rows, Seqs.SortBy(rows, DateLe), (row: TrendRow) => row.date);
    SortedRowsFacts(f, days, price);
    Seqs.SortBy(rows, DateLe)
  }

  lemma SortedRowsFacts(f: seq<Booking>, days: seq<string>, price: real)
    ensures forall row :: row in Seqs.SortBy(Values(TrendMap(f, days, price)), DateLe) ==>
      && row.bookings == Seqs.Count(f, OnDay(row.date))
      && row.hours == TotalHours(Seqs.Filter(f, OnDay(row.date)))
      && row.revenue == MulNum(row.hours, price)
      && (row.date in days || HasDate(f, row.date))
  {
    var rows := Values(TrendMap(f, days, price));
    var r := Seqs.SortBy(rows, DateLe);
    forall row | row in r
      ensures row.bookings == Seqs.Count(f, OnDay(row.date))
      ensures row.hours == TotalHours(Seqs.Filter(f, OnDay(row.date)))
      ensures row.revenue == MulNum(row.hours, price)
      ensures row.date in days || HasDate(f, row.date)
    {
      assert row in multiset(rows);
      TrendRowFacts(f, days, price, row);
    }
  }

  /** Every seeded day and every date with an analysed booking has its row. */
  lemma TrendCoversDays(f: seq<Booking>, days: seq<string>, price: real, day: string)
    requires day in days || HasDate(f, day)
    ensures exists i :: 0 <= i < |Trend(f, days, price)| && Trend(f, days, price)[i].date == day
  {
    var m := TrendMap(f, days, price);
    SeedAt(days, price, day);
    TallyAllAt(Seed(days, price), f, price, day);
    var row := Assoc.Get(m, day).value;
    var j :| 0 <= j < |m| && m[j] == (day, row);
    assert row in Values(m);
    var r := Seqs.SortBy(Values(m), DateLe);
    assert r == Trend(f, days, price);
    assert row in multiset(r);
    var i :| 0 <= i < |r| && r[i] == row;
  }

  // ---------------------------------------------------------------------------
  // The heat by hour.

  /** One bar: the bookings starting in an hour and their revenue. */
  datatype HourRow = HourRow(hour: nat, bookings: nat, revenue: Option<real>)

  /** The first hour with a bar; the bars run to 22, one per hour. */
  const FirstHour: nat := 6
  const HourCount: nat := 17

  /** The leading digits of a field, as `parseInt` reads them; None when the
      field does not start with a digit. */
  function LeadingNumber(s: string): (r: Option<nat>)
    ensures AllDigits(s) && |s| > 0 ==> r == Some(DecValue(s))
  {
    var n := LeadingDigits(s);
    assert n == |s| ==> s[..n] == s;
    if n == 0 then None else Some(DecValue(s[..n]))
  }

  /** How many digits the field starts with. */
  function LeadingDigits(s: string): (n: nat)
    ensures n <= |s|
    ensures AllDigits(s[..n])
    ensures n < |s| ==> !IsDigit(s[n])
    ensures AllDigits(s) ==> n == |s|
  {
    if |s| == 0 || !IsDigit(s[0]) then 0
    else
      var n := 1 + LeadingDigits(s[1..]);
      assert s[..n] == [s[0]] + s[1..][..n - 1];
      n
  }

  /** `parseInt(startTime.split(':')[0])`. */
  function StartHour(startTime: string): Option<nat> {
    match IndexOf(startTime, ':')
    case Some(i) => LeadingNumber(startTime[..i])
    case None => LeadingNumber(startTime)
  }

  /** A well-formed label's bar is its hour field. */
  lemma StartHourOfLabel(s: string)
    requires ClockParts(s).Some?
    ensures StartHour(s) == Some(ClockParts(s).value.0)
  {
  }

  /** The bookings that start in hour h. */
  function InHour(h: nat): Booking -> bool {
    (b: Booking) => StartHour(b.startTime) == Some(h)
  }

  /** The empty bars for 6:00 to 22:00. */
  function EmptyBars(): (r: seq<HourRow>)
    ensures |r| == HourCount
    ensures forall i :: 0 <= i < HourCount ==> r[i] == HourRow(FirstHour + i, 0, Some(0.0))
  {
    seq(HourCount, i requires 0 <= i < HourCount => HourRow(FirstHour + i, 0, Some(0.0)))
  }

  /** One booking counted into its bar; a start outside 6..22 has no bar and is ignored. */
  function Bump(bars: seq<HourRow>, b: Booking, price: real): (r: seq<HourRow>)
    requires |bars| == HourCount
    ensures |r| == HourCount
    ensures forall i :: 0 <= i < HourCount ==>
      r[i] == if InHour(FirstHour + i)(b)
              then bars[i].(bookings := bars[i].bookings + 1, revenue := AddNum(bars[i].revenue, MulNum(Duration(b), price)))
              else bars[i]
  {
    match StartHour(b.startTime)
    case Some(h) =>
      if FirstHour <= h < FirstHour + HourCount then
        var i := h - FirstHour;
        bars[i := bars[i].(bookings := bars[i].bookings + 1, revenue := AddNum(bars[i].revenue, MulNum(Duration(b), price)))]
      else bars
    case None => bars
  }

  /** What one booking and then the rest add to a bar is what all of them add. */
  lemma BarStep(b0: HourRow, b1: HourRow, b2: HourRow, f: seq<Booking>, p: Booking -> bool, price: real)
    requires |f| > 0
    requires b1 == if p(f[0]) then b0.(bookings := b0.bookings + 1, revenue := AddNum(b0.revenue, MulNum(Duration(f[0]), price))) else b0
    requires b2.bookings == b1.bookings + Seqs.Count(f[1..], p)
    requires b2.revenue == AddNum(b1.revenue, Takings(Seqs.Filter(f[1..], p), price))
    ensures b2.bookings == b0.bookings + Seqs.Count(f, p)
    ensures b2.revenue == AddNum(b0.revenue, Takings(Seqs.Filter(f, p), price))
  {
    var rest := Seqs.Filter(f[1..], p);
    FilterCons(f, p);
    if p(f[0]) {
      assert ([f[0]] + rest)[1..] == rest;
      AddNumAssoc(b0.revenue, MulNum(Duration(f[0]), price), Takings(rest, price));
    }
  }

  lemma FilterCons(f: seq<Booking>, p: Booking -> bool)
    requires |f| > 0
    ensures Seqs.Filter(f, p) == if p(f[0]) then [f[0]] + Seqs.Filter(f[1..], p) else Seqs.Filter(f[1..], p)
  {
    assert f == [f[0]] + f[1..];
    Seqs.FilterAppend([f[0]], f[1..], p);
  }

  /** The `forEach` over the analysed bookings: each bar gains the bookings
      that start in its hour and their takings. */
  function BumpAll(bars: seq<HourRow>, f: seq<Booking>, price: real): (r: seq<HourRow>)
    requires |bars| == HourCount
    ensures |r| == HourCount
    ensures forall i :: 0 <= i < HourCount ==> r[i].hour == bars[i].hour
    ensures forall i :: 0 <= i < HourCount ==>
      r[i].bookings == bars[i].bookings + Seqs.Count(f, InHour(FirstHour + i))
    ensures forall i :: 0 <= i < HourCount ==>
      r[i].revenue == AddNum(bars[i].revenue, Takings(Seqs.Filter(f, InHour(FirstHour + i)), price))
    decreases |f|
  {
    if |f| == 0 then bars
    else
      var b1 := Bump(bars, f[0], price);
      var r := BumpAll(b1, f[1..], price);
      assert f == [f[0]] + f[1..];
      forall i | 0 <= i < HourCount
        ensures r[i].bookings == bars[i].bookings + Seqs.Count(f, InHour(FirstHour + i))
        ensures r[i].revenue == AddNum(bars[i].revenue, Takings(Seqs.Filter(f, InHour(FirstHour + i)), price))
      {
        BarStep(bars[i], b1[i], r[i], f, InHour(FirstHour + i), price);
      }
      r
  }

  /** `hourlyData`: seventeen bars for 6:00 to 22:00 in order; bar i counts
      the analysed bookings starting at hour 6 + i and their takings. */
  function Hourly(f: seq<Booking>, price: real): (r: seq<HourRow>)
    ensures |r| == HourCount
    ensures forall i :: 0 <= i < HourCount ==> r[i].hour == FirstHour + i
    ensures forall i :: 0 <= i < HourCount ==> r[i].bookings == Seqs.Count(f, InHour(FirstHour + i))
    ensures forall i :: 0 <= i < HourCount ==>
      r[i].revenue == MulNum(TotalHours(Seqs.Filter(f, InHour(FirstHour + i))), price)
  {
    var r := BumpAll(EmptyBars(), f, price);
    forall i | 0 <= i < HourCount
      ensures r[i].revenue == MulNum(TotalHours(Seqs.Filter(f, InHour(FirstHour + i))), price)
    {
      TakingsArePriceTimesHours(Seqs.Filter(f, InHour(FirstHour + i)), price);
    }
    r
  }

  /** A booking starting before 6:00 or after 22:59 changes no bar. */
  lemma OutOfHoursIgnored(f: seq<Booking>, b: Booking, price: real)
    requires StartHour(b.startTime).None? || !(FirstHour <= StartHour(b.startTime).value < FirstHour + HourCount)
    ensures Hourly(f + [b], price) == Hourly(f, price)
  {
    var r1, r2 := Hourly(f + [b], price), Hourly(f, price);
    forall i | 0 <= i < HourCount
      ensures r1[i] == r2[i]
    {
      var p := InHour(FirstHour + i);
      Seqs.FilterAppend(f, [b], p);
      assert Seqs.Filter([b], p) == [];
      assert Seqs.Filter(f + [b], p) == Seqs.Filter(f, p);
    }
  }

  // ---------------------------------------------------------------------------
  // Usage by station.

  /** One station's usage. */
  datatype StationRow = StationRow(name: string, bookings: nat, hours: Option<real>, revenue: Option<real>, bikeModel: string)

  /** The page's fallback model text. */
  const Unknown: string := "未知"

  function OfStation(id: int): Booking -> bool {
    (b: Booking) => b.stationId == id
  }

  /** A station's row: its analysed bookings, their hours and takings, its
      display name and its model's name. */
  function RowFor(f: seq<Booking>, cfg: Config.AppConfig, s: Config.Station, price: real): (r: StationRow)
    ensures r.name == BookingHooks.StationName(s)
    ensures r.bookings == Seqs.Count(f, OfStation(s.stationId))
    ensures r.hours == TotalHours(Seqs.Filter(f, OfStation(s.stationId)))
    ensures r.revenue == MulNum(r.hours, price)
    ensures r.bikeModel == Config.ModelNameOr(cfg, s.bikeModelId, Unknown)
  {
    var own := Seqs.Filter(f, OfStation(s.stationId));
    TakingsArePriceTimesHours(own, price);
    StationRow(BookingHooks.StationName(s), |own|, TotalHours(own), Takings(own, price),
               Config.ModelNameOr(cfg, s.bikeModelId, Unknown))
  }

  /** Busiest first (`b.bookings - a.bookings`). */
  predicate Busier(a: StationRow, b: StationRow) {
    a.bookings >= b.bookings
  }

  lemma BusierIsTotalPreorder()
    ensures Seqs.TotalPreorder(Busier)
  {
  }

  /** The rows of the listed stations, in configuration order. */
  function Rows(f: seq<Booking>, cfg: Config.AppConfig, price: real): (r: seq<StationRow>)
    ensures |r| == |Admin.Listed(cfg)|
    ensures forall i :: 0 <= i < |r| ==> r[i] == RowFor(f, cfg, Admin.Listed(cfg)[i], price)
  {
    var listed := Admin.Listed(cfg);
    seq(|listed|, i requires 0 <= i < |listed| => RowFor(f, cfg, listed[i], price))
  }

  /** `stationData` with a missing model list read as empty: one row per
      station not disabled, busiest first. */
  function StationData(f: seq<Booking>, cfg: Config.AppConfig, price: real): (r: seq<StationRow>)
    ensures multiset(r) == multiset(Rows(f, cfg, price))
    ensures forall i, j :: 0 <= i < j < |r| ==> r[i].bookings >= r[j].bookings
  {
    BusierIsTotalPreorder();
    Seqs.SortBySorted(Rows(f, cfg, price), Busier);
    Seqs.SortBy(Rows(f, cfg, price), Busier)
  }

  /** Every station not disabled has its row. */
  lemma EveryListedStationHasARow(f: seq<Booking>, cfg: Config.AppConfig, price: real, s: Config.Station)
    requires s in cfg.stations && Admin.NotDisabled(s)
    ensures RowFor(f, cfg, s, price) in StationData(f, cfg, price)
  {
    var listed := Admin.Listed(cfg);
    var i :| 0 <= i < |listed| && listed[i] == s;
    assert Rows(f, cfg, price)[i] == RowFor(f, cfg, s, price);
    assert RowFor(f, cfg, s, price) in multiset(StationData(f, cfg, price));
  }

  /** `stationData` as written: `config.bikeModels.find` throws when the
      configuration has no model list and some station is listed. */
  function StationDataAsWritten(f: seq<Booking>, cfg: Config.AppConfig, price: real): (r: Result<seq<StationRow>>)
    ensures r.Err? <==> cfg.bikeModels.None? && |Admin.Listed(cfg)| > 0
    ensures r.Ok? ==> r.value == StationData(f, cfg, price)
  {
    var listed := Admin.Listed(cfg);
    if |listed| > 0 && Config.ModelNameAsWritten(cfg, listed[0].bikeModelId, Unknown).Err? then
      Err(Config.ModelNameAsWritten(cfg, listed[0].bikeModelId, Unknown).message)
    else Ok(StationData(f, cfg, price))
  }
}
