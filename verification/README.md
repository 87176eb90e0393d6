# Cycling studio booking — a Dafny model

This project models the logic of a small studio's station-booking web
application. Members pick a date, a start time, a duration and one of the
studio's indoor cycling stations (the "骑行台"), and book it. The studio's
coach manages the bookings, prices, stations, bike models, business hours
and announcements from an admin panel, and reads usage statistics there.

The model keeps the application's decisions and leaves out its rendering,
its storage and its network calls. Times are the "HH:MM" strings the code
stores. They are read the way the code reads them
(`split(':').map(Number)`), and NaN is made explicit as `None`.

| module | what it models |
|---|---|
| `Time` | Reading "H:M" as minutes. Writing clock labels. Durations in hours. The half-open overlap test. The three ways the code computes an end time. |
| `Bookings` | The booking record, confirmed-only revenue, and the test file's availability check with its test vectors. |
| `BusinessHours` | Open/closed per date, the hours of a date, the half-hour slot generator, and the status list for a range of dates. |
| `Store` | The browser-local store: list, create, cancel, delete, the station availability check, and configuration read/merge/write. |
| `Config` | The configuration record, both built-in defaults, the shallow merge, and model-name lookup. |
| `BookingHooks` | The booking page's two hook versions: slot lists, form-field resets, end time, quote, availability, submission, station roster. |
| `StationSelector`, `TimeSelector` | The station picker and the start-time picker. |
| `StationManager`, `BusinessHoursManager` | The admin dialogs that edit the roster, the bike models and the business-hours exceptions. |
| `Notifications`, `Announcements` | The admin's notification inbox; the announcement banner and editor. |
| `Validators` | Phone and form validation, the SMS-code sanitiser, and the phone mask. |
| `Admin`, `Analytics` | The admin panel's statistics and booking list; the data-analysis page. |

`Wrappers`, `Strings`, `Seqs` and `Assoc` are general helpers:
- `Option` and `Result`;
- string trimming, decimal numerals and code-point string order;
- filter, count and a stable insertion sort;
- association lists, which stand in for JavaScript objects and `Map`s.

## Model

| member | source | states |
|---|---|---|
| Time.ClockParts | src/lib/__tests__/bookingUtils.test.ts:47-50 | A label whose two fields are digit runs reads as hour·60 + minute minutes. |
| Time.ParseTime | src/App.tsx:215-216 | `split(':').map(Number)` then hour·60 + minute, NaN as None. Its properties are in Time.ParseTimeFacts, Time.SplitAtColon and Time.ClockParts. |
| Time.ParseTimeFacts | src/App.tsx:215-216 | A time without a colon reads as NaN, and a time that reads as a number is never negative. |
| Time.SplitAtColon | src/App.tsx:215-218 | "H:M" reads as sixty times the hour field plus the minute field, and as NaN when either field is not a numeral. |
| Time.ParseFormatClock | src/lib/businessHours.ts:71 | A label reads back as the hour and minute it was written from, and as h·60 + m minutes. |
| Time.LabelReads | src/lib/__tests__/bookingUtils.test.ts:47-50 | A zero-padded label written from h and m reads back as h·60 + m minutes, and as the fields h, m. |
| Time.ClockRoundTrip | src/lib/businessHours.ts:69-72 | Writing a minute of the day as a clock label and reading it back gives the same minute. The label is a well-formed "HH:MM" below 100 hours. |
| Time.FormatClockIsLabel | src/lib/businessHours.ts:71 | A padded label is a well-formed clock label exactly when the hour has at most two digits and the minute is below 60. |
| Time.DurationHours | src/lib/__tests__/dateUtils.test.ts:26-31 | The duration is defined exactly when both ends read as numbers. Sixty times the duration is the end minus the start, with no clamping. |
| Time.DurationAntisymmetric | src/lib/__tests__/dateUtils.test.ts:78-80 | Swapping start and end negates the duration, so an end before the start gives a negative duration. |
| Time.OverlapsSymmetric | src/lib/__tests__/bookingUtils.test.ts:42 | The overlap test does not depend on which interval is the request. |
| Time.OverlapsExamples | src/lib/__tests__/bookingUtils.test.ts:42 | Intervals that only touch do not overlap. Any non-empty interval overlaps itself. |
| Time.Overlaps | src/hooks/useBooking.ts:115-118 | The half-open overlap test. Its symmetry and examples are in Time.OverlapsSymmetric and Time.OverlapsExamples. |
| Time.EndTimeNoCarryMeaning | src/hooks/useBookingRealtime.ts:147-150 | The newer end label reads back as start + duration minutes. It is a well-formed label only when the minute field stays below 60. |
| Time.EndTimeNoCarryExample | src/hooks/useBookingRealtime.ts:147-150 | 09:30 plus one and a half hours is written "10:60", which is not a clock label. |
| Time.EndTimeCarriedMeaning | src/hooks/useBookingRealtime.ts:147-150 | The end label with the minute carried into the hour reads back as start + duration. Below 100 hours it is always a well-formed label. |
| Time.EndTimeLegacyMeaning | src/hooks/useBooking.ts:141-143 | The older end label ("10.5:30" style) also reads back as start + duration. For an odd number of half hours it is never a clock label. |
| Time.EndTimeNoCarry | src/hooks/useBookingRealtime.ts:147-150 | The newer end label, minute not carried. What it reads back as is in Time.EndTimeNoCarryMeaning. |
| Time.EndTimeLegacy | src/hooks/useBooking.ts:141-143 | The older end label, hour field "h + d". What it reads back as is in Time.EndTimeLegacyMeaning. |
| Time.EndTimeCarried | src/hooks/useBookingRealtime.ts:147-150 | The corrected end label, minute carried into the hour. What it reads back as is in Time.EndTimeCarriedMeaning. |
| Bookings.RevenueIsPriceTimesConfirmedHours | src/App.tsx:221-225 | Revenue equals the price times the summed hours of the confirmed bookings, and NaN propagates. |
| Bookings.RevenueAppend | src/lib/__tests__/bookingUtils.test.ts:9-13 | Revenue splits over concatenation of booking lists. |
| Bookings.TotalHoursAppend | src/App.tsx:436 | The summed hours of two lists together are the sum of their hours, NaN propagating. |
| Bookings.NonConfirmedAddsNothing | src/lib/__tests__/bookingUtils.test.ts:11 | Appending a pending or cancelled booking leaves the revenue unchanged. |
| Bookings.RevenueOfOne | src/lib/__tests__/bookingUtils.test.ts:9-13 | A single confirmed booking earns its hours times the price. |
| Bookings.RevenueOfThree | src/lib/__tests__/bookingUtils.test.ts:9-13 | Two confirmed bookings and a cancelled one earn exactly the two confirmed shares. |
| Bookings.RevenueOfHours | src/lib/__tests__/bookingUtils.test.ts:91-95 | Confirmed bookings of 2 h and 1.5 h plus a cancelled one earn 3.5 hours at the price. |
| Bookings.RevenueOfFixture | src/lib/__tests__/bookingUtils.test.ts:55-95 | The test fixture's bookings earn 3.5 hours' worth at any price. |
| Bookings.RevenueVectors | src/lib/__tests__/bookingUtils.test.ts:91-105 | The test vectors hold: 350 at 100 per hour, 280 at 80 per hour, and 0 for no bookings. |
| Bookings.DurationVectors | src/lib/__tests__/dateUtils.test.ts:65-81 | The duration vectors hold: 0.5, 2, 2.5 and −2 hours. |
| Bookings.Duration | src/App.tsx:214-218 | A booking's duration in hours. Its meaning is in Time.DurationHours, its vectors in Bookings.DurationVectors. |
| Bookings.TotalHours | src/App.tsx:436 | The NaN-propagating sum of durations. It splits over concatenation (Bookings.TotalHoursAppend). |
| Bookings.Revenue | src/App.tsx:221-225 | The summed revenue. It equals the price times the confirmed hours (Bookings.RevenueIsPriceTimesConfirmedHours). |
| Bookings.IsTimeSlotAvailable | src/lib/__tests__/bookingUtils.test.ts:23-45 | A slot is unavailable exactly when some confirmed booking on that date and station overlaps it. |
| Bookings.OnlyConfirmedBlocks | src/lib/__tests__/bookingUtils.test.ts:31 | Adding a pending or cancelled booking never makes a slot unavailable in this check. |
| Bookings.AvailableAlone | src/lib/__tests__/bookingUtils.test.ts:23-45 | Against one booking, a slot is free exactly when that booking does not block it. |
| Bookings.AvailabilityVectors | src/lib/__tests__/bookingUtils.test.ts:108-157 | The availability test vectors hold: an adjacent slot, an overlap, another date, another station, and a cancelled booking. |
| BusinessHours.IsBusinessOpen | src/lib/businessHours.ts:12-26 | A date without an exception is open. With an exception (and keys distinct), the date is open exactly when that exception says so. |
| BusinessHours.OrDefault | src/lib/businessHours.ts:42-43 | A present, non-empty field is used; an absent or empty one gives the default. |
| BusinessHours.HoursForDate | src/lib/businessHours.ts:32-47 | A date with no exception, or a closed one, gets the default hours. An open exception supplies open and close field by field, with the default as fallback. |
| BusinessHours.NoConfigIsDefault | src/lib/businessHours.ts:4-7 | With no configuration every date is open from 06:00 to 22:00. |
| BusinessHours.NonDefaultHoursNeedOpenException | src/lib/businessHours.ts:39-46 | A date's hours differ from the default only if an open exception for that date exists. |
| BusinessHours.LoopMinutes | src/lib/businessHours.ts:68 | The loop visits nothing when start ≥ close. Otherwise it visits start first, every value lies in [start, close), consecutive values differ by the interval, and the last is within one interval of close. |
| BusinessHours.LoopMinutesArithmetic | src/lib/businessHours.ts:68 | The i-th value visited is start + i·interval. |
| BusinessHours.LoopMinutesCount | src/lib/businessHours.ts:68 | For start < close, the loop runs ceil((close − start) / interval) times. |
| BusinessHours.SlotsFrom | src/lib/businessHours.ts:66-75 | There is one slot per visited minute, in order, each carrying that minute's hour, minute and label. |
| BusinessHours.SlotLabelsRoundTrip | src/lib/businessHours.ts:69-72 | Every slot's label reads back as the slot's minute and is a well-formed clock label. |
| BusinessHours.GenerateTimeSlots | src/lib/businessHours.ts:55-76 | A NaN bound yields no slots. Otherwise the slots are the loop's slots over the bounds' minutes, strictly increasing by the interval. |
| BusinessHours.GenerateFromParts | src/lib/businessHours.ts:60-68 | With whole-field bounds, the slots are those of the loop from the opening to the closing minute. |
| BusinessHours.SlotsFromCount | src/lib/businessHours.ts:68 | The slot count is ceil((close − open) / interval) when open < close. |
| BusinessHours.SlotsFromMinute | src/lib/businessHours.ts:68-70 | Slot i starts at open + i·interval. |
| BusinessHours.StatusForDates | src/lib/businessHours.ts:88-108 | There is one entry per given date, in order, pairing the date with its open flag and its hours. |
| Store.GetBookings | src/lib/supabase.ts:65-71 | An absent or empty date returns the whole list. A date returns the subsequence of bookings on that date, each as often as stored, and no other booking. |
| Store.CreateBooking | src/lib/supabase.ts:73-83 | The request, with the given id and time stamp, is appended at the end. Every earlier booking and the configuration are unchanged. |
| Store.CancelFirst | src/lib/supabase.ts:85-92 | Exactly the first booking with the id becomes cancelled. Every other booking, ids included, is unchanged. |
| Store.CancelBooking | src/lib/supabase.ts:85-92 | Cancelling an unknown id leaves the store unchanged, and cancelling never touches the configuration. |
| Store.CancelIdempotent | src/lib/supabase.ts:85-92 | Cancelling twice is the same as cancelling once. |
| Store.CancelHitsFirstMatch | src/lib/supabase.ts:87-90 | For a known id, one booking with that id becomes cancelled, and every other position is unchanged. |
| Store.DeleteBooking | src/lib/supabase.ts:94-98 | Every booking with the id is removed and every other booking is kept as often as stored, in its order. |
| Store.DeleteUnknownIsNoOp | src/lib/supabase.ts:94-98 | Deleting an id that is not stored leaves the store as it was. |
| Store.OverlapDisjunctsEquivalent | src/lib/supabase.ts:124-127 | The two disjuncts of the store's overlap test say the same thing: half-open overlap, false on NaN, and touching ranges do not clash. |
| Store.BlocksMeaning | src/lib/supabase.ts:107-128 | A stored booking blocks a request exactly when it has the same station and date, is not cancelled, is not the excluded id, and overlaps the request. |
| Store.Blocks | src/lib/supabase.ts:107-128 | Whether a stored booking blocks a request. Its meaning is in Store.BlocksMeaning. |
| Store.CheckStationAvailability | src/lib/supabase.ts:100-129 | The station is free exactly when no stored booking blocks the request. |
| Store.PendingBlocksOnlyInStore | src/lib/supabase.ts:107-109 | An overlapping pending booking makes the store answer "taken" while the test file's check answers "free". |
| Store.ChecksAgreeWithoutPending | src/lib/__tests__/bookingUtils.test.ts:23-45 | On lists without pending bookings, the store's check and the test file's check agree. |
| Store.Reserve | src/lib/supabase.ts:73-83 | The corrected create stores a request exactly when the availability check passes; otherwise it returns "该时段已被预约". |
| Store.ReservePreservesNoDoubleBooking | src/lib/supabase.ts:73-83 | Reserving keeps the stored list free of two live bookings that overlap on the same station and date. |
| Store.CreateAllowsDoubleBooking | src/lib/supabase.ts:73-83 | Creating the same non-empty request twice stores a double booking. |
| Store.ReserveRefusesRepeat | src/lib/supabase.ts:73-83 | Reserving the same non-empty request a second time is refused. |
| Store.GetConfig | src/lib/supabase.ts:131-141 | The result is the stored configuration, or the built-in default when nothing is stored. |
| Store.UpdateConfig | src/lib/supabase.ts:142-155 | The patch is merged into the current configuration, and the result is both stored and returned; the bookings are untouched. |
| Store.UpdateThenGet | src/lib/supabase.ts:142-155 | The next read returns what the update returned, including a patched price, whatever the default. |
| Config.MergeCompose | src/lib/supabase.ts:145-149 | Two merges in turn equal one merge of the combined patch, with the later patch winning field by field. |
| Config.MergeIdempotent | src/lib/supabase.ts:145-149 | Merging the same patch again changes nothing but the time stamp. |
| Config.MergeEmpty | src/lib/supabase.ts:145-149 | An empty patch only refreshes the time stamp. |
| Config.AppDefaultModelsResolve | src/hooks/useBookingRealtime.ts:32-46 | Every station of the page default names a model that the default's model list defines. |
| Config.ModelOf | src/App.tsx:445 | The result is the FIRST configured model whose id the station names, as `.find` returns. None means the list is missing, the station names no model, or no model has that id. |
| Config.ModelNameOr | src/sections/DataAnalytics.tsx:224 | The result is the named model's non-empty name, else the fallback. A missing model list gives the fallback. |
| Config.ModelNameAsWritten | src/App.tsx:445 | The expression as written fails exactly when the model list is missing. Otherwise it agrees with the corrected lookup. |
| Config.DefaultStationModelName | src/hooks/useBookingRealtime.ts:32-46 | On the page default, the model ids "neo" and "stages" resolve to "Neo Bike" and "Stages Bike". |
| BookingHooks.RealtimeSlots | src/hooks/useBookingRealtime.ts:17-30 | The newer list holds 33 slots; slot i is hour ⌊i/2⌋+6, minute (i mod 2)·30. |
| BookingHooks.RealtimeSlotsMeaning | src/hooks/useBookingRealtime.ts:19-28 | Slot i starts 360 + 30·i minutes after midnight. Its label reads back as that minute and is well formed. Consecutive slots are 30 minutes apart. |
| BookingHooks.SlotListsAgree | src/hooks/useBooking.ts:19-32 | The older hook's loop-built list equals the newer hook's list. |
| BookingHooks.SelectDate | src/App.tsx:74-78 | A new date clears the start time and the station. Duration and member fields are kept. |
| BookingHooks.SelectTime | src/App.tsx:80-83 | A new start time clears the station; everything else is kept. |
| BookingHooks.SelectDuration | src/App.tsx:140 | A new duration clears the station; everything else is kept. |
| BookingHooks.ChangesNeedNewStation | src/App.tsx:74-83 | After any date, time or duration change the form cannot be submitted until a station is chosen again. |
| BookingHooks.EndMinutes | src/hooks/useBooking.ts:101-103 | The numeric end is start + 30 minutes per half hour, and NaN when the start is NaN. |
| BookingHooks.RealtimeEndReadsBack | src/hooks/useBookingRealtime.ts:147-150 | The newer hook's end label reads back as the numeric end. |
| BookingHooks.LegacyEndReadsBack | src/hooks/useBooking.ts:141-143 | The older hook's end label reads back as the numeric end. |
| BookingHooks.RealtimeEnd | src/hooks/useBookingRealtime.ts:147-150 | The newer hook's end label. For a start with two whole digit fields it reads back as the numeric end (BookingHooks.RealtimeEndReadsBack); other starts are written "NaN:NaN" (see Left out). |
| BookingHooks.LegacyEnd | src/hooks/useBooking.ts:141-143 | The older hook's end label. For a start with two whole digit fields it reads back as the numeric end (BookingHooks.LegacyEndReadsBack); other starts are written "NaN:NaN" (see Left out). |
| BookingHooks.QuoteOfHours | src/hooks/useBooking.ts:182-184 | A booking lasting the form's duration earns exactly the quoted total price. |
| BookingHooks.TotalPrice | src/hooks/useBooking.ts:182-184 | Duration times the hourly price. A booking of that length earns exactly it (BookingHooks.QuoteOfHours). |
| BookingHooks.FormBooking | src/hooks/useBookingRealtime.ts:153-162 | The confirmed booking a form becomes. It earns the quoted price (BookingHooks.FormBookingEarnsQuote). |
| BookingHooks.FormBookingEarnsQuote | src/hooks/useBookingRealtime.ts:195 | The confirmed booking a form becomes earns the quoted price, whenever its end label reads back as start + duration. |
| BookingHooks.RealtimeQuoteIsRevenue | src/hooks/useBookingRealtime.ts:141-165 | The booking the newer hook stores earns the price the form quoted. |
| BookingHooks.LegacyQuoteIsRevenue | src/hooks/useBooking.ts:135-157 | The booking the older hook stores earns the price the form quoted, despite its odd end label. |
| BookingHooks.IsStationAvailable | src/hooks/useBooking.ts:95-121 | The station is free exactly when no booking on it that date, not cancelled, overlaps [start, start + duration). |
| BookingHooks.SameBlocking | src/hooks/useBooking.ts:105-120 | A booking blocks in the older hook's check exactly when it blocks in the store's check, given an end label that reads back as the numeric end. |
| BookingHooks.StoreCheckWithEnd | src/hooks/useBooking.ts:95-121 | Under that condition, the older hook's availability equals the store's availability. |
| BookingHooks.LegacyAvailabilityIsStoreCheck | src/hooks/useBooking.ts:95-121 | For a whole-field start, the older hook's check equals the store's check with either written end label. |
| BookingHooks.GetAvailableStations | src/hooks/useBooking.ts:123-133 | With no date, all four stations are returned. Otherwise the result is the in-order subsequence of 1–4 that is available. |
| BookingHooks.LegacySubmit | src/hooks/useBooking.ts:135-175 | A form with a missing field changes nothing and returns false. Otherwise the confirmed booking is appended and the form is reset. |
| BookingHooks.LegacySubmitAddsQuotedPrice | src/hooks/useBooking.ts:135-175 | A successful submission raises the revenue by exactly the quoted price. |
| BookingHooks.RealtimeSubmit | src/hooks/useBookingRealtime.ts:141-188 | A missing field changes nothing. A failed create keeps the form and sets the error. A success stores the booking, resets the form and reloads the list. |
| BookingHooks.RealtimeSubmitShowsNewBooking | src/hooks/useBookingRealtime.ts:152-183 | After a successful submission, the reloaded list for that date holds the new booking, and the error is cleared. |
| BookingHooks.StationName | src/hooks/useBookingRealtime.ts:89 | A station's own non-empty name is used, otherwise "N号骑行台". |
| BookingHooks.BikeStations | src/hooks/useBookingRealtime.ts:72-94 | An empty roster shows the four default stations. Otherwise there is one view per configured station, in order, with its id, name, model and status. |
| BookingHooks.FallbackIsDefaultRoster | src/hooks/useBookingRealtime.ts:77-85 | The hard-coded fallback list is what the page default configuration maps to. |
| StationSelector.AvailableIds | src/sections/StationSelector.tsx:33-66 | With no date or time, or when the whole check fails, stations 1–4 are offered. Otherwise a station is offered exactly when its check threw or the store finds it free. |
| StationSelector.AgreesWithLegacyHook | src/sections/StationSelector.tsx:48-59 | When no check throws, the picker offers exactly what the older hook's check offers. |
| StationSelector.FailedCheckOffers | src/sections/StationSelector.tsx:55-58 | A station whose check throws is offered whatever the bookings say. |
| StationSelector.OwnIntervalBlocks | src/lib/supabase.ts:107-128 | A live booking blocks a request for its own non-empty interval. |
| StationSelector.BookedStationNotOffered | src/sections/StationSelector.tsx:42-58 | A station with a confirmed booking for the same date and interval is not offered, unless its check throws. |
| StationSelector.FifthStationNeverOffered | src/sections/StationSelector.tsx:49 | A station with an id outside 1–4 is never offered, whatever the bookings. |
| StationSelector.RosterIds | src/sections/StationSelector.tsx:95-96 | The ids of the shown roster, in order. |
| StationSelector.RosterAvailableIds | src/sections/StationSelector.tsx:95-96 | The corrected check runs over the shown roster, with the same fail-open rules. |
| StationSelector.RosterOffersEveryFreeStation | src/sections/StationSelector.tsx:95-96 | Every shown station that nothing blocks is offered. |
| StationSelector.RosterCheckOnDefault | src/sections/StationSelector.tsx:49 | On the four-station default roster, the corrected check is the original one. |
| StationSelector.StationEntry | src/sections/StationSelector.tsx:29 | The result is the FIRST configured station with the id, as `.find` returns; None exactly when no station has that id. |
| StationSelector.StationModel | src/sections/StationSelector.tsx:28-31 | The first entry with the id decides: its legacy model text when present and non-empty, else "Stages bike". Without an entry it is "Stages bike". |
| StationSelector.NeoStationShownAsStages | src/sections/StationSelector.tsx:28-31 | Station 3 of the page default uses the Neo model, but the card shows "Stages bike". |
| StationSelector.ConfiguredModel | src/sections/StationSelector.tsx:98 | The model the station's model id names, when the station and the model list exist. |
| StationSelector.ResolvedNamesReferencedModel | src/sections/StationSelector.tsx:98 | A station whose model id names a listed model shows the name of a model with that id. |
| StationSelector.ResolvedNeoStation | src/sections/StationSelector.tsx:98 | Corrected, stations 3 and 4 of the default show "Neo Bike". |
| StationSelector.ResolvedAgreesOnLegacyConfig | src/sections/StationSelector.tsx:28-31 | On configurations without model ids, the corrected text is the original one. |
| TimeSelector.Show | src/sections/TimeSelector.tsx:15-68 | No date shows the prompt. A closed date shows the rest-day note. Otherwise the day's generated slots are shown, keeping only those more than 15 minutes ahead when the date is today. |
| TimeSelector.OtherDayOffersAll | src/sections/TimeSelector.tsx:56-60 | On a day other than today, every generated slot is offered. |
| TimeSelector.DaySlotsAreRun | src/sections/TimeSelector.tsx:50-53 | A day with whole-field hours offers the loop's slots from opening to closing. |
| TimeSelector.DaySlotMeaning | src/sections/TimeSelector.tsx:50-53 | Slot i of such a day starts 30·i minutes after opening, before closing, and its label reads back as that minute. |
| TimeSelector.TodayKeepsALaterRun | src/sections/TimeSelector.tsx:56-66 | Today's filter keeps a suffix: once a slot is offered, every later slot is offered too. |
| TimeSelector.DefaultDayIsHardCodedList | src/lib/businessHours.ts:4-7 | On the default hours a day offers the hooks' hard-coded list without its final 22:00. |
| BusinessHoursManager.Load | src/sections/BusinessHoursManager.tsx:28-41 | Opening reloads the stored hours and resets the new-exception form to an open 06:00–22:00 with no date. |
| BusinessHoursManager.SaveAfterLoad | src/sections/BusinessHoursManager.tsx:78-84 | Saving right after opening hands back the stored hours unchanged. |
| BusinessHoursManager.LoadAfterSave | src/sections/BusinessHoursManager.tsx:28-41 | Reopening after a save shows what was saved, with the form reset. |
| BusinessHoursManager.Save | src/sections/BusinessHoursManager.tsx:78-84 | The payload the dialog saves. Saving after loading gives back the stored hours, and loading after saving gives back the editor (BusinessHoursManager.SaveAfterLoad, BusinessHoursManager.LoadAfterSave). |
| BusinessHoursManager.DraftException | src/sections/BusinessHoursManager.tsx:62-65 | An open exception carries the form's hours; a closed one carries none. |
| BusinessHoursManager.AddException | src/sections/BusinessHoursManager.tsx:57-68 | Without a date nothing changes. Otherwise the date's entry becomes the form's exception, other entries stay, the date field is cleared, and keys stay distinct. |
| BusinessHoursManager.AddedExceptionGoverns | src/sections/BusinessHoursManager.tsx:57-68 | Once saved, the added exception decides its date's open flag and hours. |
| BusinessHoursManager.AddLeavesOtherDates | src/sections/BusinessHoursManager.tsx:57-68 | Adding an exception changes no other date's open flag or hours. |
| BusinessHoursManager.RemoveException | src/sections/BusinessHoursManager.tsx:70-76 | The date's entry is gone, every other date's entry is unchanged, and keys stay distinct. |
| BusinessHoursManager.RemovedDateIsOrdinary | src/sections/BusinessHoursManager.tsx:70-76 | After removal, the date is an ordinary open day on the default hours. |
| BusinessHoursManager.AddThenRemove | src/sections/BusinessHoursManager.tsx:57-76 | Adding and then removing an exception leaves the same lookups as removing that date to begin with. |
| BusinessHoursManager.SortedExceptions | src/sections/BusinessHoursManager.tsx:87-89 | The result holds the same entries, in ascending date order. |
| StationManager.Open | src/sections/StationManager.tsx:36-48 | Opening reloads the stored roster and models and clears the error. |
| StationManager.FutureBookings | src/sections/StationManager.tsx:52-60 | The bookings of the station, not cancelled, dated today or later, each as often as stored, and no others. |
| StationManager.MaxId | src/sections/StationManager.tsx:63 | The result is at least 0 and at least every id, and it is one of the ids unless it is 0. |
| StationManager.AddStation | src/sections/StationManager.tsx:62-73 | One station is appended after the existing ones. Its id is `MaxId` + 1, so at least 1 and above every existing id. It has the first model (or ""), available status, and the name `${id}号骑行台`. |
| StationManager.AddStationKeepsIdsDistinct | src/sections/StationManager.tsx:62-73 | Adding a station keeps station ids distinct. |
| StationManager.AddStationKeepsModelsResolved | src/sections/StationManager.tsx:62-73 | With at least one model, every station still names an existing model after an add. |
| StationManager.AddToDefaultRosterIsFifth | src/sections/StationManager.tsx:63-64 | Adding to the four-station default gives the new station id 5. |
| StationManager.DeleteStation | src/sections/StationManager.tsx:75-87 | A station with future bookings stays, with a count error. An unconfirmed delete changes nothing. Otherwise exactly the station's entries go, every other entry is kept as often as before, and the error clears. |
| StationManager.BookedStationStays | src/sections/StationManager.tsx:75-80 | A station with a live booking dated today or later cannot be deleted. |
| StationManager.DeletedStationGone | src/sections/StationManager.tsx:82-86 | A confirmed delete of a station with no future bookings leaves no station with that id. |
| StationManager.ApplyPatch | src/sections/StationManager.tsx:89-94 | Supplied fields override; the id and every other field are kept. |
| StationManager.UpdateStation | src/sections/StationManager.tsx:89-94 | The patch goes into every station with the id; the others and the models are untouched. |
| StationManager.UpdateKeepsIdsDistinct | src/sections/StationManager.tsx:89-94 | Updates never change ids, so distinct ids stay distinct. |
| StationManager.UpdateIdempotent | src/sections/StationManager.tsx:89-94 | Applying the same update twice is applying it once. |
| StationManager.UpdateKeepsModelsResolved | src/sections/StationManager.tsx:89-94 | An update naming only existing models keeps every station's model resolvable. |
| StationManager.ModelId | src/sections/StationManager.tsx:102 | A model id never contains whitespace. |
| StationManager.ModelIdLowerCase | src/sections/StationManager.tsx:102 | A model id has no capital letter and is never longer than the name. |
| StationManager.ModelIdOfWord | src/sections/StationManager.tsx:102 | A name without whitespace gives its lower-case form as the id. |
| StationManager.ModelIdOfWords | src/sections/StationManager.tsx:102 | A word, a whitespace run and the rest give the word lower-cased, one "-", then the id of the rest. With ModelIdOfWord this fixes every id. |
| Strings.DashWordThenRun | src/sections/StationManager.tsx:102 | `replace(/\s+/g, '-')` keeps a leading word and turns the whole whitespace run after it into one "-". |
| Strings.DashKeepsWord | src/sections/StationManager.tsx:102 | A string without whitespace is left as it is by the replacement. |
| Strings.DashFacts | src/sections/StationManager.tsx:102 | The replacement leaves no whitespace. |
| Strings.DashKeepsNoUpper | src/sections/StationManager.tsx:102 | The replacement brings in no capital letter. |
| Strings.TrimIsInfix | src/sections/StationManager.tsx:97 | `trim()` returns a contiguous part of the input with only whitespace before and after it. |
| Strings.TrimIdempotent | src/sections/StationManager.tsx:97 | Trimming a trimmed string changes nothing. |
| StationManager.AddModel | src/sections/StationManager.tsx:96-121 | A blank name is refused, and so is an existing id. Otherwise the model is appended with the trimmed name and the trimmed description (dropped when blank), and the error clears. |
| StationManager.AddModelKeepsIdsDistinct | src/sections/StationManager.tsx:96-121 | Adding a model never creates two models with the same id. |
| StationManager.AddModelTwiceRefused | src/sections/StationManager.tsx:102-107 | Adding the same name a second time is refused as a duplicate and leaves the list unchanged. |
| StationManager.UsedBy | src/sections/StationManager.tsx:124 | Exactly the stations that name the model, each as often as listed, in order. |
| StationManager.DeleteModel | src/sections/StationManager.tsx:123-134 | A model in use stays, with a count error. An unconfirmed delete changes nothing. Otherwise exactly the models with the id go, every other model is kept as often as before, and the error clears. |
| StationManager.DeleteModelKeepsModelsResolved | src/sections/StationManager.tsx:123-134 | Deleting a model never leaves a station naming a model that is gone. |
| StationManager.Save | src/sections/StationManager.tsx:136-155 | An empty roster or an empty model list is refused with its message. Otherwise the patch carries both lists. |
| StationManager.SavedListsTakeEffect | src/App.tsx:364-369 | A saved edit becomes the configuration's roster and model list, with everything else kept. |
| StationManager.SaveUnchangedRoundTrip | src/sections/StationManager.tsx:136-155 | Saving without edits reproduces the configuration apart from its time stamp. |
| Notifications.NotificationFor | src/hooks/useNotifications.ts:58-71 | The notification is unread, has the id `${booking.id}-${stamp}` that MarkAsRead and Remove match on, the title "新的预约", the content naming member and station, and the creation time. It carries the booking's id, member, station, date and times. |
| Notifications.Add | src/hooks/useNotifications.ts:73 | The new entry comes first, followed by the older ones in order, capped at 50 entries from the tail. |
| Notifications.AddKeepsCapacity | src/hooks/useNotifications.ts:73 | The inbox never holds more than 50 entries. |
| Notifications.AddBelowCapacity | src/hooks/useNotifications.ts:73 | Below capacity nothing is dropped, and the unread badge rises by one. |
| Notifications.MarkAsRead | src/hooks/useNotifications.ts:78-84 | The entries with the id become read; nothing else changes. |
| Notifications.MarkAsReadCount | src/hooks/useNotifications.ts:78-84 | The badge drops by the number of unread entries with that id. |
| Notifications.MarkAsReadIdempotent | src/hooks/useNotifications.ts:78-84 | Marking read twice is marking once. |
| Notifications.MarkAllAsRead | src/hooks/useNotifications.ts:87-91 | Every entry becomes read, with its contents kept. |
| Notifications.MarkAllClearsBadge | src/hooks/useNotifications.ts:87-91 | After marking all read, the badge is zero. |
| Notifications.Remove | src/hooks/useNotifications.ts:94-98 | The entries with the id are dropped; every other entry is kept as often as before, in its order. |
| Notifications.RemoveLowersBadge | src/hooks/useNotifications.ts:94-98 | Removing never raises the badge. |
| Notifications.ClearAll | src/hooks/useNotifications.ts:101-103 | The inbox is empty and the badge is zero. |
| Notifications.OnInsert | src/hooks/useNotifications.ts:136-141 | Only a confirmed booking dated today adds a notification, exactly as Add builds it: unread and first. Any other insert leaves the inbox unchanged. |
| Notifications.OnInsertBadge | src/hooks/useNotifications.ts:136-141 | Below capacity, the badge rises by one exactly for an accepted booking. |
| Announcements.SortNewestFirst | src/sections/AnnouncementManager.tsx:49-53 | The result holds the same announcements, with creation stamps descending. |
| Announcements.Shown | src/components/AnnouncementBanner.tsx:33-46 | An announcement is shown exactly when it is active, not dismissed and within its window, each visible one as often as stored, and the shown list is newest first. |
| Announcements.NewestFirstIsTotalPreorder | src/components/AnnouncementBanner.tsx:45 | The newest-first comparison is total and transitive, so the sort is well defined. |
| Announcements.InWindow | src/components/AnnouncementBanner.tsx:39-44 | The date window test. Both bounds are inclusive (Announcements.WindowBoundsInclusive). |
| Announcements.Visible | src/components/AnnouncementBanner.tsx:36-44 | The banner's three filters. The shown list is exactly the visible ones (Announcements.Shown). |
| Announcements.NewestFirst | src/components/AnnouncementBanner.tsx:45 | Descending creation stamp. It is a total preorder (Announcements.NewestFirstIsTotalPreorder). |
| Announcements.Dismiss | src/components/AnnouncementBanner.tsx:26-31 | The id joins the dismissed list; earlier dismissals stay. |
| Announcements.DismissedNeverShown | src/components/AnnouncementBanner.tsx:26-46 | A dismissed announcement is not shown again on any day. |
| Announcements.DismissOnlyHidesItsOwn | src/components/AnnouncementBanner.tsx:26-46 | Dismissing one announcement leaves every other one's visibility unchanged. |
| Announcements.UndatedShownAlways | src/components/AnnouncementBanner.tsx:39-44 | An active, undismissed announcement without dates is shown every day. |
| Announcements.WindowBoundsInclusive | src/components/AnnouncementBanner.tsx:41-42 | A window is shown on its first day and on its last day. |
| Announcements.FormOf | src/sections/AnnouncementManager.tsx:67-70 | The edit form is a copy of the announcement: id, title, content, kind, active flag, dates and creation stamp. |
| Announcements.StrOr | src/sections/AnnouncementManager.tsx:86 | A non-empty value is used; otherwise the fallback. |
| Announcements.DateOrUnset | src/sections/AnnouncementManager.tsx:91-92 | An empty or absent date becomes unset; a set date is kept. |
| Announcements.Built | src/sections/AnnouncementManager.tsx:84-96 | Title and content are trimmed, the kind is the form's, unset active flag reads true, empty dates are unset, and the update stamp is now. A new announcement gets the fresh id and now; an edit keeps the form's id and creation stamp when present. |
| Announcements.Save | src/sections/AnnouncementManager.tsx:78-108 | Blank content is refused with "请输入公告内容". A new announcement is appended. An edit replaces exactly the entries with the edited id. |
| Announcements.SaveKeepsContentsFilled | src/sections/AnnouncementManager.tsx:78-108 | Saving keeps every stored announcement's content non-empty. |
| Announcements.EditKeepsIdentity | src/sections/AnnouncementManager.tsx:67-108 | Editing an opened announcement keeps its id, creation stamp, kind, active flag and set dates, trims its title, and refreshes its update stamp. |
| Announcements.CreateAppendsFresh | src/sections/AnnouncementManager.tsx:98-100 | A created announcement is stored under the fresh id, stamped now. |
| Announcements.Delete | src/sections/AnnouncementManager.tsx:72-76 | Exactly the announcements with the id are dropped, and the rest keep their order. |
| Validators.MatchFromMeaning | src/sections/PhoneLogin.tsx:31-32 | The anchored matcher accepts exactly eleven characters, each in its position's class. |
| Validators.ValidatePhone | src/sections/BookingForm.tsx:32-35 | A number is accepted exactly when it is '1', then a digit 3–9, then nine digits. |
| Validators.IsMainlandMobile | src/sections/BookingForm.tsx:32-35 | The phone pattern as a predicate. The regular-expression test accepts exactly it (Validators.ValidatePhone). |
| Validators.PhoneExamples | src/sections/PhoneLogin.tsx:30-33 | "13800138000" passes. A second digit of 2 fails, and so do ten digits. |
| Validators.ValidateForm | src/sections/BookingForm.tsx:37-50 | A blank name gives its error, and a blank phone gives its own. A non-blank phone errs exactly when the pattern rejects it as typed. |
| Validators.SubmitsIffValid | src/sections/BookingForm.tsx:37-52 | The form submits exactly for a non-blank name and a well-formed number, so a padded number is refused. |
| Validators.SendCodeError | src/sections/PhoneLogin.tsx:36-41 | Sending is refused exactly for a malformed number. |
| Validators.LoginError | src/sections/PhoneLogin.tsx:63-67 | Login is refused exactly when the code is not six characters long. |
| Validators.DigitsOf | src/sections/PhoneLogin.tsx:159 | The result is the input's digits, in order: a subsequence holding each digit as often as the input does, and nothing else. |
| Validators.SanitizeCode | src/sections/PhoneLogin.tsx:159 | The result is the first six of the input's digits, all digits and at most six long. |
| Validators.SanitizeIdempotent | src/sections/PhoneLogin.tsx:159 | Sanitising a sanitised code changes nothing. |
| Validators.SanitizedCodeLogin | src/sections/PhoneLogin.tsx:159-206 | A typed code passes the login guard exactly when the input held at least six digits. |
| Validators.FirstRun | src/sections/PhoneLogin.tsx:176 | The leftmost position where eleven digits begin, or None when there is none. |
| Validators.MaskPhone | src/sections/PhoneLogin.tsx:176 | The leftmost eleven-digit run keeps its first three and last four digits, with "****" between them. Without such a run the text is unchanged. |
| Validators.MaskOfValidPhone | src/sections/PhoneLogin.tsx:176 | A valid number is shown as its first three digits, "****", then its last four. |
| Admin.ChangeMonth | src/App.tsx:328-340 | The month stays within 0–11, and the year moves by at most one. |
| Admin.ChangeMonthIsOneMonth | src/App.tsx:328-340 | One step forward or back moves exactly one calendar month: year·12 + month changes by the step. |
| Admin.ChangeMonthRoundTrip | src/App.tsx:328-340 | A step back undoes a step forward, and the other way round. |
| Admin.SavePrice | src/App.tsx:347-362 | A NaN or non-positive price is refused with "请输入有效的价格" and the configuration kept. Otherwise only the price and the stamp change. |
| Admin.SavePriceKeepsPricePositive | src/App.tsx:347-352 | A positive price stays positive whatever is typed. |
| Admin.SaveServerChanKey | src/App.tsx:378-387 | A blank key is removed and any other key is stored trimmed; nothing else changes but the stamp. |
| Admin.ResavingKeyKeepsIt | src/App.tsx:378-387 | Saving the key the dialog shows again keeps it. |
| Admin.YearMonth | src/App.tsx:407-410 | A well-formed date key yields its year and zero-based month. |
| Admin.YearMonthOfKey | src/App.tsx:404-416 | The YYYY-MM-DD key of a day in a four-digit year reads back as that year and the zero-based month. |
| Admin.Selected | src/App.tsx:399-426 | A booking is kept, as often as it is stored, exactly when it is in the view and its phone contains the query. |
| Admin.MonthWithinYear | src/App.tsx:406-416 | A booking in the month view is in that year's view. |
| Admin.ComputeStats | src/App.tsx:428-436 | The total is the selected count. The confirmed and cancelled counts are those of the selection and never exceed the total. Hours are the confirmed selection's hours, and revenue is the price times them. |
| Admin.PendingCountsOnlyInTotal | src/App.tsx:428-434 | A pending booking counts in the total but in neither status count. |
| Admin.MonthTotalWithinYear | src/App.tsx:406-416 | A month's total never exceeds its year's. |
| Admin.Listed | src/App.tsx:438-439 | The result is the ordered subsequence of configured stations that are not disabled, each as often as configured. |
| Admin.RowFor | src/App.tsx:440-451 | A row counts the station's confirmed selected bookings, and its hours are theirs. Its revenue is the price times those hours, and its model falls back to "未知型号". |
| Admin.StationStats | src/App.tsx:438-451 | There is one row per listed station, in order. |
| Admin.StationStatsAsWritten | src/App.tsx:445 | As written, the breakdown fails exactly when the model list is missing and some station is listed. Otherwise it is the corrected breakdown. |
| Admin.StatsThrowOnLocalDefault | src/lib/supabase.ts:21-30 | On the local store's default configuration, the breakdown as written fails. |
| Admin.StatsOnLocalDefault | src/lib/supabase.ts:21-30 | Corrected, that configuration gives four rows, all showing "未知型号". |
| Admin.StatsWithoutModelList | src/App.tsx:445 | Without a model list every row shows the fallback model text. |
| Admin.ViewBookings | src/App.tsx:458-493 | The list is the selected bookings, later dates first and, on the same date, earlier start times first. |
| Analytics.Filtered | src/sections/DataAnalytics.tsx:56-83 | Exactly the confirmed bookings in range, each as often as stored, in order. |
| Analytics.NarrowerRangeCountsFewer | src/sections/DataAnalytics.tsx:73-81 | A later first day never analyses more bookings, and no range analyses more than "all". |
| Analytics.TakingsArePriceTimesHours | src/sections/DataAnalytics.tsx:94-99 | The page's summed takings are the price times the summed hours. |
| Analytics.TakingsAgreeWithRevenue | src/sections/DataAnalytics.tsx:98-99 | On confirmed bookings, the page's sum equals the booking list's revenue. |
| Analytics.Takings | src/sections/DataAnalytics.tsx:94-99 | The page's summed takings. They are the price times the hours (Analytics.TakingsArePriceTimesHours). |
| Analytics.Phones | src/sections/DataAnalytics.tsx:101 | The result holds exactly the phones that booked, no more of them than bookings, and at least one when there are bookings. |
| Analytics.Average | src/sections/DataAnalytics.tsx:102 | With no bookings the average is 0. Otherwise it is NaN exactly with a NaN total, and count × average equals the total. |
| Analytics.ComputeMetrics | src/sections/DataAnalytics.tsx:85-111 | It reports the count and the hours, with revenue as the price times the hours. Unique users are the number of distinct phones. They never exceed bookings and are zero only with no bookings. |
| Analytics.RepeatCustomerCountsOnce | src/sections/DataAnalytics.tsx:101 | A customer who books twice counts once. |
| Analytics.Seed | src/sections/DataAnalytics.tsx:127-134 | The seeded map has distinct keys, zero bookings, and each row under its own date. |
| Analytics.SeedAt | src/sections/DataAnalytics.tsx:127-134 | Exactly the range's days are seeded, each with nothing booked. |
| Analytics.Tally | src/sections/DataAnalytics.tsx:136-153 | The booking's date row gains one booking, or starts at one. Every other date is unchanged and the total rises by one. |
| Analytics.TallyAll | src/sections/DataAnalytics.tsx:136-153 | The row total rises by the number of bookings; keys stay distinct, and rows stay under their dates. |
| Analytics.TallyAllAt | src/sections/DataAnalytics.tsx:136-153 | A date has a row exactly when it had one or a booking has that date, and it gains exactly that date's bookings. |
| Analytics.Trend | src/sections/DataAnalytics.tsx:125-160 | Rows are in ascending date order with pairwise distinct dates, one per day, and their counts sum to the analysed bookings. Each row counts its date's bookings, its hours are theirs, and it earns the price times those hours. |
| Analytics.TallyAllHours | src/sections/DataAnalytics.tsx:138-150 | After the tally, a day's hours are its seeded hours plus the hours of the analysed bookings on that day. |
| Analytics.TrendCoversDays | src/sections/DataAnalytics.tsx:127-153 | Every seeded day, and every date with an analysed booking, has a row. |
| Analytics.DistinctDatesOfMap | src/sections/DataAnalytics.tsx:125-155 | The values of the date-keyed `Map` have pairwise distinct dates, because each row is stored under its own date. |
| Analytics.LeadingNumber | src/sections/DataAnalytics.tsx:183 | A field of digits reads as its decimal value. |
| Analytics.StartHourOfLabel | src/sections/DataAnalytics.tsx:183 | A well-formed label's bar is its hour field. |
| Analytics.StartHour | src/sections/DataAnalytics.tsx:183 | `parseInt` of the hour field. A well-formed label gives its hour (Analytics.StartHourOfLabel). |
| Analytics.EmptyBars | src/sections/DataAnalytics.tsx:177-180 | There are seventeen empty bars, for 6 through 22, in order. |
| Analytics.Bump | src/sections/DataAnalytics.tsx:182-189 | A booking adds one to its start hour's bar, with its takings. Bars of other hours are unchanged, and an hour outside 6–22 changes nothing. |
| Analytics.BumpAll | src/sections/DataAnalytics.tsx:182-189 | Each bar gains exactly the bookings starting in its hour, and their takings. |
| Analytics.Hourly | src/sections/DataAnalytics.tsx:175-194 | There are seventeen bars for 6 through 22. Bar i counts the bookings starting at hour 6+i and earns the price times their hours. |
| Analytics.OutOfHoursIgnored | src/sections/DataAnalytics.tsx:184-189 | A booking starting outside 6–22 changes no bar. |
| Analytics.RowFor | src/sections/DataAnalytics.tsx:211-225 | A row gives the station's name, its analysed bookings and their hours. Revenue is the price times the hours, and the model falls back to "未知". |
| Analytics.StationData | src/sections/DataAnalytics.tsx:209-227 | There is one row per listed station, rearranged so booking counts descend. |
| Analytics.EveryListedStationHasARow | src/sections/DataAnalytics.tsx:209-211 | Every station that is not disabled has its row. |
| Analytics.StationDataAsWritten | src/sections/DataAnalytics.tsx:224 | As written, the chart fails exactly when the model list is missing and some station is listed. Otherwise it is the corrected rows. |

## Left out

- Rendering, styling, modals, toasts, and React state plumbing. Only the state transitions they wrap are modelled.
- The remote database client and its API (src/lib/supabase.ts:157-327), and the realtime channel that delivers inserted rows. Rows arrive as a parameter of `Notifications.OnInsert`.
- Browser storage and JSON. The store, the dismissed list and the inbox are plain values, and unreadable storage is not modelled.
- The push webhook, the WeChat helpers, audio playback and the admin login. They are I/O or a fixed password comparison.
- Clocks, "today", "now", generated ids and `confirm()` answers. They are parameters, and the code does not make ids unique.
- Calendar arithmetic. Date keys are taken as given. The analysis range is given by its first date key, and the trend's seeded days are passed in.
- `Admin.YearMonth`: reads a key's fields rather than going through `new Date(key)` and local-time getters. The model ignores the time-zone shift and the roll-over of out-of-range days.
- Floating point. Hours and money are exact reals, and `Math.round` on the end minute is left out.
- `Time.ParseTime`: `Number()` is modelled for digit runs with an optional fraction. Other numerals read as NaN, while JavaScript accepts spaces, signs, exponents and hex.
- `Time.ParseTime`: empty fields and short fractions read as NaN, where JavaScript reads more. `Number("")` is 0, so ":30" is 30 minutes and "10:" is 600. "9." is 9 and ".5" is 0.5. A third field is dropped by the destructuring, so "09:00:00" is 540. The model reads all of these as NaN; the code only ever writes two non-empty digit fields.
- `BookingHooks.RealtimeEnd`: only a start with two whole digit fields is modelled field by field; every other start is written "NaN:NaN". The source (src/hooks/useBookingRealtime.ts:147-150, and the same code at src/sections/StationSelector.tsx:43-46) converts and formats each field on its own. So "ab:30" gives "NaN:30", and "9.5:30" plus one hour gives "10.5:30", which reads back as a number. On such a start `StationSelector.AvailableIds` therefore tests a NaN end where the source tests a real interval. This is acceptable because the booking page only passes start labels taken from the generated "HH:MM" slot list. On those, both labels read back exactly as the numeric end (`BookingHooks.RealtimeEndReadsBack`, `BookingHooks.LegacyEndReadsBack`). JavaScript's number-to-text conversion for fractional fields is not modelled.
- `BookingHooks.LegacyEnd`: writes "NaN:NaN" for every start without two whole digit fields. The source (src/hooks/useBooking.ts:141-143) formats each field on its own: "10:ab" for one hour gives "11:NaN", and "9.5:30" gives "10.5:30". A start without a colon throws, because `minute` is undefined and has no `toString`. The page only passes generated "HH:MM" labels, as for RealtimeEnd.
- `StationManager.AddModel`: the add-model form's own fields (`newModelName`, `newModelDesc`, `showAddModel`) and their clearing after a successful add (src/sections/StationManager.tsx:115-118) are not part of the editor state; the name and description are parameters.
- `Admin.ViewBookings`: returns a fresh sorted sequence. In the by-station view with no phone search, src/App.tsx:488 sorts the stored `allBookings` array in place, so the admin list's order also changes as a side effect; that mutation is not modelled.
- `Notifications.OnInsert`: takes the inserted row as an already-mapped booking. The realtime channel delivers the raw database row, with snake_case columns such as `start_time`, `station_id` and `member_name`. The fetch path maps those names (src/lib/supabase.ts:173-184); the listener (src/hooks/useNotifications.ts:134-140) does not. So in the source the notification's name, phone, station and times read `undefined`. `id`, `date` and `status` have the same names either way, so which rows are accepted, and the badge count, are as modelled.
- `Analytics.LeadingNumber`: `parseInt`'s leading whitespace and sign are not modelled.
- `BusinessHours.GenerateTimeSlots` and `TimeSelector.Show`: they require each bound to have whole digit fields or to read as NaN. Fractional bounds are not modelled.
- `Strings.ToLower` lower-cases ASCII letters only.
- `localeCompare`, `Date` comparisons and timestamp sorting are modelled as code-point string order. This is the same order for the fixed-width keys and ISO stamps the code writes.
- `Admin.ViewBookings`, `Announcements.SortNewestFirst` and `Analytics.StationData`: they state a sorted permutation, not that ties keep their original order. The sort is stable.
- `Announcements.Shown`: it sorts with the same stable `SortNewestFirst`, and likewise does not state the order of announcements with equal creation stamps.
- `BookingHooks.RealtimeSubmit`: a store failure is a boolean parameter, not a modelled exception.
- `StationManager.Save`: the dialog's loading flag, its closing after a save, and the `catch` path that shows "保存失败" when the save callback throws (src/sections/StationManager.tsx:150-153) are left out; the callback is modelled as never failing.
- `TimeSelector.Show`: takes the business-hours configuration as a parameter, but the booking page renders `DateSelector` and `TimeSelector` without `businessHours` (src/App.tsx:138-139), although both components declare it required (src/sections/TimeSelector.tsx:10, src/sections/DateSelector.tsx:10). No file in this model renders the business-hours editor either. On that page `isBusinessOpen` and `getBusinessHoursForDate` therefore see `undefined`, so every date is open from 06:00 to 22:00 whatever exceptions are saved (`BusinessHours.NoConfigIsDefault`), and the offered slots are the hard-coded half-hour list without 22:00 (`TimeSelector.DefaultDayIsHardCodedList`). The page's wiring is not modelled as a separate member.
- The booking page's pre-fill of name and phone from a logged-in user (src/App.tsx:37-46) is left out. It is UI state with no rule beyond "fill empty fields".
- The weekday chart, the CSV export and the display labels (`displayDate`, `displayHour`, `formatDate`, `isToday`) are left out.
- The 14-day and 30-day date lists are left out.
- The duplicate formulas in the admin overview, "my bookings" and the success dialog are left out. They repeat `Bookings.Revenue` and `Time.DurationHours`.

## Findings

| source | as written | input that shows it | evidently intended | confidence | as-written member | corrected member |
|---|---|---|---|---|---|---|
| src/App.tsx:445 | `config.bikeModels.find(...)` without `?.` after `bikeModels` | the local store's default configuration (src/lib/supabase.ts:21-30), which has stations and no `bikeModels` | fall back to "未知型号" when there is no model list | not executed | Admin.StatsThrowOnLocalDefault | Admin.StatsOnLocalDefault |
| src/sections/DataAnalytics.tsx:224 | the same `config.bikeModels.find(...)` | the same default configuration | fall back to "未知" | not executed | Analytics.StationDataAsWritten | Analytics.EveryListedStationHasARow |
| src/lib/supabase.ts:73-83 | `createBooking` stores any request without checking availability | the same confirmed 09:00–10:00 request on station 1 created twice | refuse a request that clashes with a stored live booking | not executed | Store.CreateAllowsDoubleBooking | Store.ReservePreservesNoDoubleBooking |
| src/hooks/useBookingRealtime.ts:147-150 | the end minute is not carried into the hour | start "09:30", duration 1.5 gives "10:60" | "11:00" | not executed | Time.EndTimeNoCarryExample | Time.EndTimeCarriedMeaning |
| src/sections/StationSelector.tsx:28-31 | the card reads the legacy `bikeModel` text, which current configurations no longer carry | station 3 of the page default, model "neo", shows "Stages bike" | show the name of the model the station's `bikeModelId` names | not executed | StationSelector.NeoStationShownAsStages | StationSelector.ResolvedNeoStation |
| src/sections/StationSelector.tsx:49 | availability is checked only for ids 1 to 4 | a fifth station added in the station manager (id 5) is never offered | check every station of the roster | not executed | StationSelector.FifthStationNeverOffered | StationSelector.RosterOffersEveryFreeStation |
