# Booking UI: a Dafny model

This project models the logic of a small client-side appointment booking
application written in TypeScript and React. A customer picks a service from
a six-item catalog and a weekday on a month calendar. They then pick one of the
time windows offered that day, fill in their details and confirm. The
appointment goes into a shared store. The customer can later list it as
upcoming, past or cancelled, and can cancel it.

The modules follow the source files:

| module | file | what it holds |
|---|---|---|
| `Dates` (`dates.dfy`) | `src/utils/dates.ts` | Gregorian calendar days as `(year, month 0-11, day)`, the month and day carrying done by `new Date(y, m, d)`, weekdays, `getDaysInMonth`, `getNextAvailableDay` |
| `Slots` (`slots.dfy`) | `src/utils/dates.ts` | `generateTimeSlots`: a method with the source's nested loops, proved against the function `SlotStarts` |
| `CalendarGrid` (`calendar.dfy`) | `src/components/ui/Calendar.tsx` | the grid-building effect (three loops), month navigation, `isDateSelectable`, `isSelectedDate`, `handleDateClick` |
| `Catalog` (`catalog.dfy`) | `src/data/services.ts` | the catalog and its three queries |
| `Store` (`store.dfy`) | `src/context/AppointmentContext.tsx` | the appointment store as a class whose methods reassign its fields |
| `BookingFlow` (`booking.dfy`) | `src/pages/Booking.tsx` | the four-step booking machine, button gating, slot invalidation |
| `AppointmentLists` (`appointments.dfy`) | `src/pages/Appointments.tsx` | the four appointment lists, the cancel gating, the cancel dialog |
| `ServicesView` (`services_page.dfy`) | `src/pages/Services.tsx` | the category read from the address, the filter, the category toggle |
| `Options` (`options.dfy`), `Seqs` (`seqs.dfy`), `Arith` (`arith.dfy`) | (shared) | `Option`, `filter` with its membership and order facts, small arithmetic facts |

**Representations.**
- A time of day is the number of minutes since local midnight. An ISO timestamp is a `DateTime(date, minute)`, and comparing two timestamps compares `Stamp` (days since 1970-01-01 times 1440, plus minutes).
- The two sources of randomness become parameters:
  - `Math.random() > 0.3`, which marks a slot available, becomes `isFree: int -> bool`, read at the slot's start minute.
  - `crypto.randomUUID()` becomes the `newId` argument of `BookAppointment`.
- Every `new Date()` clock read becomes a parameter: `now`, `minDate`, or `today` for the store's initial `selectedDate`.
- React state of the store and of each page becomes a class field. Each handler or effect is one method, that is, one atomic state change.
- A `navigate(...)` call becomes a returned `exit` flag, or is simply omitted where nothing follows it.

## Model

| member | source | states |
|---|---|---|
| `Dates.DaysInMonth` | src/utils/dates.ts:32-34 | the length of the month (a month past 11 carries into the year); always 28 to 31, and 29 exactly for February of a Gregorian leap year |
| `Dates.MakeDateDayZero` | src/utils/dates.ts:33 | day 0 of the following month normalises to the last day of the month |
| `Dates.MakeDate` | src/components/ui/Calendar.tsx:41-53 | the day/month overflow of `new Date(y, m, d)` always yields a real calendar day |
| `Dates.MakeDateOfValid` | src/components/ui/Calendar.tsx:47 | a day that exists is left as it is |
| `Dates.MakeDateBeforeMonth` | src/components/ui/Calendar.tsx:41 | day `k <= 0` of a month is day `k` counted back from the end of the previous month, across the year boundary in January |
| `Dates.MakeDateFollowingMonth` | src/components/ui/Calendar.tsx:53 | day `i` of month + 1 is day `i` of the next month, across the year boundary in December |
| `Dates.MakeDateTomorrow` | src/utils/dates.ts:73 | `setDate(getDate() + 1)` gives the next calendar day, across month and year ends |
| `Dates.MakeDateInTwoDays` | src/utils/dates.ts:76 | `setDate(getDate() + 2)` gives the day after the next day |
| `Dates.NextDayNumber` | src/utils/dates.ts:73 | the day count of the next day is one more, so the day count is the calendar's linear order |
| `Dates.NextDayWeekday` | src/utils/dates.ts:75-76 | `getDay` of the next day is the following weekday, Saturday (6) followed by Sunday (0) |
| `Dates.WeekdayExamples` | src/utils/dates.ts:74-76 | `getDay` is anchored to the real calendar: 1 January 1970 and 1 February 2024 are Thursdays, 3 February 2024 is a Saturday and a weekend day |
| `Dates.GetNextAvailableDay` | src/utils/dates.ts:71-77 | the result is a Monday to Friday, at the same time of day, and 1, 2 or 3 days ahead, skipping only weekend days; it is exactly tomorrow when tomorrow is a weekday |
| `Dates.NextAvailableDayDistance` | src/utils/dates.ts:71-77 | any of the three possible results lies 1 to 3 days after the input in the day count |
| `Slots.GenerateTimeSlots` | src/utils/dates.ts:36-69 | the nested loops return the slots built for exactly the start list `SlotStarts(d)`, in order, for a positive duration |
| `Slots.SlotStarts` | src/utils/dates.ts:45-57 | the start minutes the loops emit: the candidates of the loops that pass the end-of-day test, in visiting order; what it holds is proved in `SlotStartsExactly`, `SlotStartsAscending`, `SlotStartShape`, `SlotsEndByClose` and `TwoPerHourSlots` |
| `Slots.InnerStep` | src/utils/dates.ts:48-64 | one pass of the inner loop body: the end-of-day test on the end's clock is `Fits`, and a passing start appends its slot |
| `Slots.EndClock` | src/utils/dates.ts:51-57 | the test on the end's hours and minutes equals `Fits` on the start |
| `Slots.SlotsForDay` | src/utils/dates.ts:51-64 | one slot per start; each slot's id is its start time and its end is start plus duration; starts are strictly ascending and ids distinct; below 480 minutes every end is on the same day at or before 17:00 |
| `Slots.SlotStartsExactly` | src/utils/dates.ts:45-57 | the starts are exactly the loop's grid points whose window passes the end-of-day test |
| `Slots.SlotStartsAscending` | src/utils/dates.ts:45-61 | the starts are strictly ascending, hence distinct |
| `Slots.SlotStartShape` | src/utils/dates.ts:45-48 | every start is in an hour from 9 to 16, at an offset below 60 that is a multiple of the duration; on the hour for durations of 60 or more |
| `Slots.ClockWithinHoursExactly` | src/utils/dates.ts:55 | on a same-day clock reading the test accepts exactly the ends up to 17:00 |
| `Slots.FitsBelow480` | src/utils/dates.ts:51-57 | below 480 minutes a grid start passes the clock test exactly when its window ends by 17:00 on the same day |
| `Slots.SlotsEndByClose` | src/utils/dates.ts:55-57 | below 480 minutes every emitted window ends at or before 17:00 and does not cross midnight |
| `Slots.TwoPerHourSlots` | src/utils/dates.ts:45-57 | durations of 30 to 59 minutes: starts at the hour and `d` past from 9:00; 16 starts for 30 minutes (9:00 to 16:30), 15 otherwise |
| `Slots.AsWrittenAgreesBelow480` | src/utils/dates.ts:55-57 | below 480 minutes the code as written returns exactly the starts of the intended same-day rule |
| `Slots.IntendedStartsEndByClose` | src/utils/dates.ts:55-57 | the intended rule keeps exactly the grid starts whose window ends by 17:00, for every duration |
| `Slots.LongServiceOfferedAtFour` | src/utils/dates.ts:55-57 | for 480 to 1500 minutes the code as written offers 16:00 although the window runs past closing; the intended rule does not |
| `CalendarGrid.PreviousMonth` | src/components/ui/Calendar.tsx:60-69 | the result is a valid month one before the input in the linear month order |
| `CalendarGrid.NextMonth` | src/components/ui/Calendar.tsx:71-80 | the result is a valid month one after the input in the linear month order |
| `CalendarGrid.NavigationWraps` | src/components/ui/Calendar.tsx:60-80 | from January back to December of the year before and from December on to January of the next year; otherwise the year is kept |
| `CalendarGrid.NavigationRoundTrip` | src/components/ui/Calendar.tsx:60-80 | next after previous, and previous after next, is the identity |
| `CalendarGrid.BuildMonthGrid` | src/components/ui/Calendar.tsx:28-57 | the three loops build a month grid: the previous month's last days, then days 1..n of the month, then the next month's first days up to a whole week |
| `CalendarGrid.PushLeadingDays` | src/components/ui/Calendar.tsx:40-43 | as many entries as the weekday of the 1st, the last days of the previous month in increasing order |
| `CalendarGrid.PushMonthDays` | src/components/ui/Calendar.tsx:46-48 | appends days 1..daysInMonth of the month, in order, keeping what was there |
| `CalendarGrid.PushTrailingDays` | src/components/ui/Calendar.tsx:51-54 | appends days 1..k of the next month, keeping what was there |
| `CalendarGrid.PadToWeek` | src/components/ui/Calendar.tsx:51 | the padding is below 7 and completes a whole week |
| `CalendarGrid.LeadingEntry` | src/components/ui/Calendar.tsx:41 | the date built for leading entry `i` is the matching last day of the previous month |
| `CalendarGrid.TrailingEntry` | src/components/ui/Calendar.tsx:53 | the date built for trailing entry `i` is day `i` of the next month |
| `CalendarGrid.GridLength` | src/components/ui/Calendar.tsx:40-54 | the grid length is a multiple of 7 between 28 and 42 |
| `CalendarGrid.GridValid` | src/components/ui/Calendar.tsx:40-54 | every grid entry is a real calendar day |
| `CalendarGrid.GridConsecutive` | src/components/ui/Calendar.tsx:37-54 | consecutive grid entries are consecutive calendar days |
| `CalendarGrid.GridDayNumbers` | src/components/ui/Calendar.tsx:37-54 | entry `i` lies `i` days after the first entry |
| `CalendarGrid.GridWeekdays` | src/components/ui/Calendar.tsx:37-54 | entry `i` falls on weekday `i mod 7`, so every row runs Sunday to Saturday |
| `CalendarGrid.GridStartsOnSunday` | src/components/ui/Calendar.tsx:37-43 | the first grid entry is a Sunday |
| `CalendarGrid.GridMonths` | src/components/ui/Calendar.tsx:40-54 | an entry is in the displayed month exactly when it lies in the middle run |
| `CalendarGrid.GridDistinct` | src/components/ui/Calendar.tsx:40-54 | grid entries are strictly increasing days, so no day is shown twice |
| `CalendarGrid.February2024Grid` | src/components/ui/Calendar.tsx:28-57 | the grid of February 2024 is five weeks, from Sunday 28 January through 1 and 29 February to Saturday 2 March |
| `CalendarGrid.Calendar.constructor` | src/components/ui/Calendar.tsx:13-22 | the calendar opens on the month of the selected date with its grid built |
| `CalendarGrid.Calendar.GoToPreviousMonth` | src/components/ui/Calendar.tsx:60-69 | the displayed month becomes the previous month and the grid is rebuilt for it |
| `CalendarGrid.Calendar.GoToNextMonth` | src/components/ui/Calendar.tsx:71-80 | the displayed month becomes the next month and the grid is rebuilt for it |
| `CalendarGrid.Calendar.SelectableGridEntries` | src/components/ui/Calendar.tsx:89-106 | a grid entry is selectable exactly when it is in the displayed month, not a Saturday or Sunday, not before `minDate`, and not after `maxDate` when one is given |
| `CalendarGrid.Calendar.IsDateSelectable` | src/components/ui/Calendar.tsx:89-106 | the four tests of the source: month number, not before `minDate`, not after `maxDate` when given, not a weekend; its meaning on the grid is proved in `SelectableGridEntries`, and `HandleDateClick` forwards exactly the dates it accepts |
| `CalendarGrid.Calendar.IsSelectedDate` | src/components/ui/Calendar.tsx:109-115 | true exactly for the selected day |
| `CalendarGrid.Calendar.AtMostOneSelected` | src/components/ui/Calendar.tsx:109-115 | at most one grid entry is shown as selected |
| `CalendarGrid.Calendar.HandleDateClick` | src/components/ui/Calendar.tsx:118-122 | a click is forwarded exactly when the date is selectable, and then it is a weekday of the displayed month |
| `Catalog.GetServiceById` | src/data/services.ts:60-62 | a found service is in the catalog and has the id; nothing is found exactly when no service has the id |
| `Catalog.GetServiceCategories` | src/data/services.ts:64-67 | each category is appended at its first occurrence, as insertion into a `Set` does; proved distinct and exactly the catalog's categories in `CategoriesExactly`, in first-occurrence order in `CategoriesInFirstOccurrenceOrder` |
| `Catalog.GetServiceByIdFirst` | src/data/services.ts:60-62 | the service found is the first one with the id |
| `Catalog.CategoriesExactly` | src/data/services.ts:64-67 | the category list has no duplicates and holds exactly the categories of the catalog |
| `Catalog.CategoriesInFirstOccurrenceOrder` | src/data/services.ts:64-67 | the categories are listed in the order in which they first occur |
| `Catalog.GetServicesByCategory` | src/data/services.ts:69-71 | exactly the services of the category, in catalog order |
| `Catalog.ListedCategoriesAreNonEmpty` | src/data/services.ts:64-71 | every listed category has at least one service |
| `Catalog.CatalogWellFormed` | src/data/services.ts:3-58 | the ids are distinct and every duration is positive and below 480 minutes, so every service meets the slot generator's needs |
| `Catalog.CatalogCategories` | src/data/services.ts:3-67 | the shipped catalog lists Hair, Skin, Wellness, Nails |
| `Store.CancelById` | src/context/AppointmentContext.tsx:72-80 | the length and order are kept; entries with the id become cancelled with all other fields unchanged; other entries are untouched |
| `Store.CancelIdempotent` | src/context/AppointmentContext.tsx:72-80 | cancelling twice is cancelling once |
| `Store.CancelUnknownId` | src/context/AppointmentContext.tsx:72-80 | cancelling an id that no appointment has changes nothing |
| `Store.CancelStatuses` | src/context/AppointmentContext.tsx:72-80 | after a cancellation an entry is cancelled exactly when it was already cancelled or has the id |
| `Store.AppointmentStore.constructor` | src/context/AppointmentContext.tsx:31-38 | no appointments and no booking in progress |
| `Store.AppointmentStore.NewAppointment` | src/context/AppointmentContext.tsx:56-66 | the new appointment is scheduled and carries the service id, the slot, the date and the four customer fields of the store |
| `Store.AppointmentStore.BookAppointment` | src/context/AppointmentContext.tsx:53-70 | with no service or no slot selected nothing changes; otherwise exactly one new appointment is appended after the unchanged old ones and the booking fields are cleared; the selected date is kept |
| `Store.AppointmentStore.CancelAppointment` | src/context/AppointmentContext.tsx:72-80 | the list becomes `CancelById` of the old list and nothing else changes |
| `Store.AppointmentStore.ClearBookingData` | src/context/AppointmentContext.tsx:82-89 | service and slot are cleared and the customer fields are emptied; appointments and date are kept |
| `Store.AppointmentStore.SetSelectedService` | src/context/AppointmentContext.tsx:32 | sets the service, keeping the appointments, the date, the slot and the four customer fields |
| `Store.AppointmentStore.SetSelectedDate` | src/context/AppointmentContext.tsx:33 | sets the date, keeping the appointments, the service, the slot and the four customer fields |
| `Store.AppointmentStore.SetSelectedTimeSlot` | src/context/AppointmentContext.tsx:34 | sets the slot, keeping the appointments, the service, the date and the four customer fields |
| `AppointmentLists.ActiveAppointments` | src/pages/Appointments.tsx:18 | exactly the appointments that are not cancelled, in order |
| `AppointmentLists.PastAppointments` | src/pages/Appointments.tsx:21-23 | exactly the non-cancelled appointments that started before now, in order |
| `AppointmentLists.UpcomingAppointments` | src/pages/Appointments.tsx:26-28 | exactly the active appointments that start at or after now |
| `AppointmentLists.CancelledAppointments` | src/pages/Appointments.tsx:31-33 | exactly the cancelled appointments, in order |
| `AppointmentLists.ActiveCancelledPartition` | src/pages/Appointments.tsx:18-33 | active and cancelled together are the appointments, each exactly once |
| `AppointmentLists.PastUpcomingPartition` | src/pages/Appointments.tsx:18-28 | for one clock value, past and upcoming together are the active list, each exactly once |
| `AppointmentLists.UpcomingInOrder` | src/pages/Appointments.tsx:18-28 | the upcoming list keeps the order of the appointments |
| `AppointmentLists.CancelOfferedOnlyWhenUpcoming` | src/pages/Appointments.tsx:119-130 | cancelling is offered on every upcoming card and on no past or cancelled card |
| `AppointmentLists.CancelOffered` | src/pages/Appointments.tsx:119 | the card gate: the card is not drawn as cancelled and the start is not before now; `CancelOfferedOnlyWhenUpcoming` proves on which lists it holds |
| `AppointmentLists.AppointmentsPage.constructor` | src/pages/Appointments.tsx:14-15 | no appointment selected and the dialog closed |
| `AppointmentLists.AppointmentsPage.HandleCancelClick` | src/pages/Appointments.tsx:36-39 | remembers the appointment and opens the dialog |
| `AppointmentLists.AppointmentsPage.DismissCancelModal` | src/pages/Appointments.tsx:186-203 | closes the dialog and keeps the selection |
| `AppointmentLists.AppointmentsPage.ConfirmCancelAppointment` | src/pages/Appointments.tsx:42-47 | with an id selected, that id is cancelled in the store and the dialog closes; otherwise the list and the dialog are unchanged; the store's selections and customer fields are kept either way |
| `BookingFlow.BookingPage.constructor` | src/pages/Booking.tsx:32-34 | starts at the service step with no slots and no confirmation |
| `BookingFlow.BookingPage.HandleNextStep` | src/pages/Booking.tsx:61-65 | advances one step below confirmation, otherwise stays, so the step never passes 3 |
| `BookingFlow.BookingPage.HandlePreviousStep` | src/pages/Booking.tsx:68-74 | goes back one step above the service step; at the service step it leaves the flow instead, so the step never goes below 0 |
| `BookingFlow.BookingPage.CanProceed` | src/pages/Booking.tsx:89-98 | needs a service at the service step and a slot at the date step; true at every other step |
| `BookingFlow.BookingPage.HandleBookingComplete` | src/pages/Booking.tsx:77-79 | opens the confirmation and keeps the step |
| `BookingFlow.BookingPage.PressForwardButton` | src/pages/Booking.tsx:231-241 | a disabled button does nothing; below details it advances; at details it opens the confirmation; the step stays between service and details |
| `BookingFlow.BookingPage.PressBackButton` | src/pages/Booking.tsx:226-229 | one step back above the service step; at the service step the step stays and the flow is left; the step stays between service and details, and the slots and the confirmation are kept |
| `BookingFlow.BookingPage.HandleCloseConfirmation` | src/pages/Booking.tsx:82-86 | hides the confirmation, clears the booking data keeping appointments and date, keeps the step and the slots, and leaves the flow |
| `BookingFlow.BookingPage.RefreshSlots` | src/pages/Booking.tsx:44-54 | with a service selected the slots are regenerated for the date (the intended same-day rule for every catalog duration); a selected slot whose id is not among them becomes none, any other selection (including none) is kept, so afterwards the selection is none or one of the new slots; the appointments and customer fields are kept |
| `BookingFlow.BookingPage.SelectTimeSlot` | src/components/ui/TimeSlots.tsx:35 | only an available slot becomes the selection; the rest of the store is kept |
| `ServicesView.FilterServices` | src/pages/Services.tsx:31-37 | the whole catalog for '', otherwise exactly the services of the category, in catalog order |
| `ServicesView.KnownCategoryShowsServices` | src/pages/Services.tsx:23-37 | a known category never shows an empty list |
| `ServicesView.ServicesPage.constructor` | src/pages/Services.tsx:15-16 | no category and the whole catalog |
| `ServicesView.ServicesPage.ApplyUrlCategory` | src/pages/Services.tsx:20-28 | a category from the address is adopted only when non-empty and listed; otherwise the selection becomes '' |
| `ServicesView.ServicesPage.ApplyCategoryFilter` | src/pages/Services.tsx:31-37 | the list becomes the filter of the selection, and is non-empty while the selection is '' or a listed category |
| `ServicesView.ServicesPage.HandleCategoryClick` | src/pages/Services.tsx:39-48 | clicking the selected category clears it and clicking another selects it; the buttons keep the selection '' or a listed category |
| `ServicesView.ServicesPage.HandleServiceSelect` | src/pages/Services.tsx:50-53 | the chosen service becomes the store's selection; the appointments, the date, the slot and the customer fields are kept |

## Left out

- The formatters `formatDate`, `formatTime`, `formatDateTime` and `formatCurrency` (src/utils/dates.ts:3-30) are left out. They are locale and `Intl` formatting done by library calls.
- Time zones, daylight saving and the UTC conversion of `toISOString` are not modelled. Dates and times are naive local integers, and an ISO string is represented by the `DateTime` it denotes.
- Dates.MakeDate does not model the `Date` constructor's reading of a year from 0 to 99 as 1900 + year. For those years `getDaysInMonth` and the calendar grid differ from the model: `getDaysInMonth(0, 1)` is 28 (February 1900), while `Dates.DaysInMonth(0, 1)` is 29. The application only shows dates around the current year.
- Randomness is not modelled: the availability flag is the `isFree` parameter and the appointment id is the `newId` parameter.
- Clock reads (`new Date()`) are parameters. The two separate clock reads in the appointment filters become one `now`.
- Loading and saving appointments in `localStorage` (src/context/AppointmentContext.tsx:40-51) is browser I/O and is left out.
- Routing and `navigate` are modelled only as the `exit` result of the handlers that leave the flow. The redirect effect of src/pages/Booking.tsx:37-41 is pure routing and is not modelled.
- React effect scheduling is not modelled: each handler or effect is one atomic step, and `RefreshSlots`, `ApplyCategoryFilter` and `ApplyUrlCategory` are the effects run once.
- The `description` and `image` fields of a service are display text and are not kept.
- `renderAppointmentCard` finds each card's appointment by id and its service with `getServiceById`. The cancel gating is modelled directly on the appointment (`CancelOffered`).
- The customer-field setters used by the booking form are plain assignments and are not modelled. The form binding, the step contents and all other rendering are left out.
- CalendarGrid.Calendar.SelectableGridEntries states selectability for grid entries only. The source compares only the month number, not the year, which makes no difference for grid entries (they span three consecutive months). For an arbitrary date of the same month in another year, `IsDateSelectable` checks the month alone, exactly as written.
- Slots.GenerateTimeSlots requires a positive duration. For a duration of 0 or less the source's inner loop never ends.
- BookingFlow.BookingPage.RefreshSlots requires that the selected service has a positive duration and that the date is a real day. Every catalog service has a positive duration, and a JavaScript `Date` is always a real day.

## Findings

| source | as written | input that shows it | evidently intended | confidence | as-written member | corrected member |
|---|---|---|---|---|---|---|
| src/utils/dates.ts:55-57 | the end-of-business test reads only the end's clock hour and minute, so a window that ends on the next day reads as early morning and is kept | a service of 480 minutes: the 16:00 start ends at 00:00 the next day, hour 0, and is offered | keep only windows that end by 17:00 on the same day | not executed | `Slots.LongServiceOfferedAtFour` | `Slots.IntendedStartsEndByClose` |

The corrected rule is `Slots.IntendedStarts`. `Slots.AsWrittenAgreesBelow480` proves that the code as written returns the same starts for every duration below 480 minutes. `Catalog.CatalogWellFormed` proves that every shipped service is below 480 minutes. So the booking page (`BookingFlow.BookingPage.RefreshSlots`) shows exactly the slots of the intended rule for every catalog service.
