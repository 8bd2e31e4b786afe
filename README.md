# Aqua-agro dashboard: verified model of the page logic

The dashboard is a single-page admin UI for a water and agro leisure park. Almost all of it is layout over literal tables. This project models the parts that hold real rules, and proves what those rules promise:

- **Ticket Bookings** (`TicketBookings`). The module covers:
  - the per-tier rate table and the total-price expression;
  - the guest counters, each clamped at its minimum;
  - the Book Now enabling rule;
  - the booking dialog.

  The component's six `useState` variables are the fields of the class `BookingForm`, and each event handler is a method. The browser's queue of pending `setTimeout` callbacks is an explicit `pendingTimers` counter. The timer callback becomes the method `TimerFired`.
- **Staff Management** (`StaffManagement`). The module covers:
  - the three-part staff filter: a case-insensitive search on name or role, plus department and status selectors where `"all"` switches the test off;
  - the summary counts;
  - the status-badge table, which is only defined for the three known statuses;
  - the department colour table, with its fallback.
- **Agro Activities** and **Water Rides** (`AgroActivities`, `WaterRides`). Each module covers:
  - a case-insensitive name search;
  - the "open" summary count;
  - the status badge;
  - the Manage or Service button.

  Both pages share the capacity colour, modelled once in `Capacity`.
- **Sidebar** (`AppSidebar`). The module covers:
  - the `isActive` route test: the root `/` matches only exactly, and every other url matches by string prefix;
  - `getNavClassName`;
  - the fixed menu table. Over this table at most one item is ever highlighted.

Three shared modules support these:
- `Text` models ASCII `toLowerCase` and `includes`. `includes` is proved equivalent to a declarative "occurs at some offset" definition.
- `Filters` models `filter` and `filter(...).length`. It proves subsequence, exact membership, occurrence counts, identity, fusion and commutation lemmas.
- `Ui` holds the `Button` shape: enabled, plus its caption.

Behaviour of the code worth knowing. The model follows the code:
- `handleBookNow` never clears `bookingSuccess`. `resetForm` is the only place that does.
- Closing the dialog with Done, or dismissing it, leaves the flag set. The scheduled timer is not cancelled either.
- So a second Book Now after Done, or after a dismissal once the timer has fired, opens the dialog directly on "Booking Confirmed!" and skips the Processing state. `RebookAfterDone` shows this sequence.
- As a result, Book Now opens on the Processing spinner exactly when no timer has fired since the page loaded or since the last Book Another (`BookingForm.BookNow` states this as `Dialog() == if old(bookingSuccess) then Confirmed else Processing`).
- A booking that is not the first can still show the spinner: dismissing the dialog before the timer fires and booking again does (`RebookBeforeTimer`).
- A first booking after Book Another can skip the spinner: a timer still pending when Book Another is pressed fires afterwards and sets the flag again (`StaleTimerAfterBookAnother`).
- The Agro and Water pages show a badge and a button that agree only because the seed statuses are `open` and `maintenance`. Any third status would get a "Closed" or "Maintenance" badge and still have an enabled button (`BadgeAndButtonDisagreeOnOtherStatus`).

## Model

| member | source | states |
|---|---|---|
| `Text.ToLower` | src/pages/StaffManagement.tsx:118-119 | folding keeps the length, maps every character through ASCII lower-casing and leaves no upper-case letter |
| `Text.Contains` | src/pages/StaffManagement.tsx:118-119 | `includes` finds a needle at the front of the haystack, and never finds one longer than the haystack |
| `Text.IncludesIgnoringCase` | src/pages/StaffManagement.tsx:118-119 | `toLowerCase().includes(term.toLowerCase())` holds of a string and itself, and fails for any term longer than the string |
| `Text.ContainsIffOccurs` | src/pages/StaffManagement.tsx:118-119 | the left-to-right `includes` scan holds exactly when the needle occurs at some offset of the haystack |
| `Text.EmptyNeedleAlwaysIncluded` | src/pages/StaffManagement.tsx:113 | the initial empty search term is contained, ignoring case, in every string |
| `Text.IncludesIgnoresNeedleCase` | src/pages/AgroActivities.tsx:88 | lower-casing the search term first does not change the case-insensitive test |
| `Filters.Filter` | src/pages/StaffManagement.tsx:117-123 | `filter` returns no more elements than its input, and every element it returns is kept |
| `Filters.FilterIsSubsequence` | src/pages/StaffManagement.tsx:117-123 | the filtered list is an order-preserving subsequence of the input |
| `Filters.FilterMembership` | src/pages/StaffManagement.tsx:117-123 | an element is in the filtered list iff it is in the input and is kept |
| `Filters.FilterMultiset` | src/pages/StaffManagement.tsx:117-123 | every occurrence of a kept element survives and no occurrence of a dropped one does, so duplicates are neither merged nor lost |
| `Filters.FilterMultisetExact` | src/pages/StaffManagement.tsx:117-123 | the same occurrence count, for every element at once |
| `Filters.FilterKeepsAll` | src/pages/StaffManagement.tsx:117-123 | when every element is kept, the input comes back unchanged |
| `Filters.FilterKeepsNone` | src/pages/StaffManagement.tsx:117-123 | when no element is kept, the result is empty |
| `Filters.FilterEmptyIff` | src/pages/AgroActivities.tsx:143 | the result is empty exactly when no element is kept |
| `Filters.FilterFuse` | src/pages/StaffManagement.tsx:122 | filtering by p and then by q equals one filter by p AND q |
| `Filters.FilterCommute` | src/pages/StaffManagement.tsx:122 | two filters may be applied in either order |
| `Filters.FilterAtMostOne` | src/components/layout/AppSidebar.tsx:82-88 | if no two positions are both kept, at most one element survives |
| `Filters.CountThreeWay` | src/pages/StaffManagement.tsx:181-189 | if every element meets exactly one of three tests, the three counts sum to the length |
| `Filters.Count` | src/pages/WaterRides.tsx:137 | `filter(...).length` is at most the length, and it is 0 exactly when nothing is kept |
| `Capacity.CapacityColor` | src/pages/AgroActivities.tsx:98-103 | for `max > 0`: red iff the exact percentage `current/max*100` is at least 80, yellow iff it is in [60, 80), green iff below 60; for `max = 0`: red iff `current > 0` (Infinity), green at 0/0 (NaN) |
| `Capacity.CapacityColorInIntegers` | src/pages/WaterRides.tsx:92-97 | the same buckets as integer cross-multiplication: red iff `current*100 >= 80*max`, yellow iff `60*max <= current*100 < 80*max`, green otherwise |
| `Capacity.CapacityColorMonotone` | src/pages/WaterRides.tsx:92-97 | more guests at the same capacity never give a less severe colour |
| `Capacity.ClassNamesDistinct` | src/pages/AgroActivities.tsx:100-102 | the three buckets render as three different classes |
| `Capacity.Percentage` | src/pages/AgroActivities.tsx:99 | the occupancy percentage is never negative, is at most 100 while the guests fit and is exactly 100 at full occupancy |
| `Capacity.ClassName` | src/pages/AgroActivities.tsx:100-102 | the Tailwind class each colour bucket renders as |
| `AgroActivities.FilteredActivities` | src/pages/AgroActivities.tsx:87-89 | the result is a subsequence of the table; an activity is in it iff it is in the table and its lower-cased name contains the lower-cased term at some offset; and each matching activity occurs as often as in the table |
| `AgroActivities.MatchesSearch` | src/pages/AgroActivities.tsx:88 | the filter callback: the lower-cased name includes the lower-cased term |
| `AgroActivities.SearchMeaning` | src/pages/AgroActivities.tsx:88 | the search test holds iff the folded term occurs in the folded name |
| `AgroActivities.EmptySearchKeepsAll` | src/pages/AgroActivities.tsx:85-89 | the initial empty search shows every activity in table order |
| `AgroActivities.OpenCount` | src/pages/AgroActivities.tsx:143 | the open count is at most the number of activities, and it is 0 iff none is open |
| `AgroActivities.SeedOpenCount` | src/pages/AgroActivities.tsx:9-82 | the seed table gives the summary "5/6" |
| `AgroActivities.StatusBadge` | src/pages/AgroActivities.tsx:91-96 | the badge is "Active" iff the status is `open`, otherwise "Closed" |
| `AgroActivities.ManageButton` | src/pages/AgroActivities.tsx:230-238 | the button is disabled iff the status is `maintenance`, captioned "Closed" iff disabled, otherwise "Manage" |
| `AgroActivities.SeedStatusesKnown` | src/pages/AgroActivities.tsx:9-82 | every seed activity is `open` or `maintenance` |
| `AgroActivities.SeedBadgeAgreesWithButton` | src/pages/AgroActivities.tsx:166 | on the seed table an activity is badged "Active" exactly when its Manage button is enabled |
| `AgroActivities.BadgeAndButtonDisagreeOnOtherStatus` | src/pages/AgroActivities.tsx:91-96 | any status other than `open` or `maintenance` gets the "Closed" badge together with an enabled "Manage" button |
| `AgroActivities.SeedParticipantColors` | src/pages/AgroActivities.tsx:182 | the participants colours of the six seed activities |
| `AgroActivities.SeedWithinCapacity` | src/pages/AgroActivities.tsx:9-82 | no seed activity has more guests than capacity; no code enforces this |
| `WaterRides.FilteredRides` | src/pages/WaterRides.tsx:81-83 | the result is a subsequence of the table; a ride is in it iff it is in the table and its lower-cased name contains the lower-cased term at some offset; and each matching ride occurs as often as in the table |
| `WaterRides.MatchesSearch` | src/pages/WaterRides.tsx:82 | the filter callback: the lower-cased name includes the lower-cased term |
| `WaterRides.SearchMeaning` | src/pages/WaterRides.tsx:82 | the search test holds iff the folded term occurs in the folded name |
| `WaterRides.EmptySearchKeepsAll` | src/pages/WaterRides.tsx:79-83 | the initial empty search shows every ride in table order |
| `WaterRides.OpenCount` | src/pages/WaterRides.tsx:137 | the open count is at most the number of rides, and it is 0 iff none is open |
| `WaterRides.SeedOpenCount` | src/pages/WaterRides.tsx:9-76 | the seed table gives the summary "4/6" |
| `WaterRides.StatusBadge` | src/pages/WaterRides.tsx:85-90 | the badge is "Open" iff the status is `open`, otherwise "Maintenance" |
| `WaterRides.ServiceButton` | src/pages/WaterRides.tsx:215-223 | the button is disabled iff the status is `maintenance`, captioned "In Service" iff disabled, otherwise "Service" |
| `WaterRides.SeedStatusesKnown` | src/pages/WaterRides.tsx:9-76 | every seed ride is `open` or `maintenance` |
| `WaterRides.SeedBadgeAgreesWithButton` | src/pages/WaterRides.tsx:160 | on the seed table a ride is badged "Maintenance" exactly when its Service button is disabled |
| `WaterRides.BadgeAndButtonDisagreeOnOtherStatus` | src/pages/WaterRides.tsx:85-90 | any status other than `open` or `maintenance` gets the "Maintenance" badge together with an enabled "Service" button |
| `WaterRides.SeedCapacityColors` | src/pages/WaterRides.tsx:176 | the capacity colours of the six seed rides |
| `WaterRides.SeedWithinCapacity` | src/pages/WaterRides.tsx:9-76 | no seed ride has more guests than capacity; no code enforces this |
| `StaffManagement.FilteredStaff` | src/pages/StaffManagement.tsx:117-123 | the result is a subsequence of the table ("Showing X of Y" has X ≤ Y); a record is in it iff it is in the table and passes the search AND department AND status tests; and each matching record occurs as often as in the table |
| `StaffManagement.MatchesSearch` | src/pages/StaffManagement.tsx:118-119 | the search test: the term occurs, ignoring case, in the name or in the role |
| `StaffManagement.MatchesDepartment` | src/pages/StaffManagement.tsx:120 | the department test, switched off by `"all"` |
| `StaffManagement.MatchesStatus` | src/pages/StaffManagement.tsx:121 | the status test, switched off by `"all"` |
| `StaffManagement.Matches` | src/pages/StaffManagement.tsx:122 | the conjunction of the three tests |
| `StaffManagement.KeptRecordsMatchSearch` | src/pages/StaffManagement.tsx:118-119 | every kept record has the folded term occurring in its folded name or its folded role |
| `StaffManagement.InitialCriteriaKeepsAll` | src/pages/StaffManagement.tsx:113-115 | with search `""`, department `"all"` and status `"all"` the filter returns the table unchanged |
| `StaffManagement.DepartmentFilterExact` | src/pages/StaffManagement.tsx:120 | a department selector other than `"all"` keeps exactly the records of that department |
| `StaffManagement.StatusFilterExact` | src/pages/StaffManagement.tsx:121 | a status selector other than `"all"` keeps exactly the records with that status |
| `StaffManagement.FilterStagesSearchFirst` | src/pages/StaffManagement.tsx:122 | the combined filter equals the search, department and status filters applied in that order |
| `StaffManagement.FilterStagesStatusFirst` | src/pages/StaffManagement.tsx:122 | the combined filter also equals the three filters applied in the reverse order |
| `StaffManagement.UnmatchedDepartmentEmpty` | src/pages/StaffManagement.tsx:120 | a department selector that no record carries empties the list |
| `StaffManagement.CountWithStatus` | src/pages/StaffManagement.tsx:181 | a status count is at most the total, and it is 0 iff no record has that status |
| `StaffManagement.CountInDepartment` | src/pages/StaffManagement.tsx:197 | a department count is at most the total, it is 0 iff no record is in that department, and it equals the number of rows the department selector alone would list |
| `StaffManagement.InDepartment` | src/pages/StaffManagement.tsx:197 | the counting test `s => s.department === department` |
| `StaffManagement.StatusCardMatchesFilter` | src/pages/StaffManagement.tsx:181-189 | a status card shows as many records as selecting that status in the filter lists |
| `StaffManagement.StatusCountsSumToTotal` | src/pages/StaffManagement.tsx:181-189 | when every status is configured, the active, on-leave and inactive counts sum to the total |
| `StaffManagement.SeedStatusesKnown` | src/pages/StaffManagement.tsx:25-110 | every seed status is `active`, `on-leave` or `inactive` |
| `StaffManagement.SeedSummaryCounts` | src/pages/StaffManagement.tsx:174-197 | the seed table gives the cards 7 total, 5 active, 1 on leave and 4 in the agro team |
| `StaffManagement.StatusBadge` | src/pages/StaffManagement.tsx:125-134 | defined only for a configured status; the badge it returns is in the table and belongs to no other status |
| `StaffManagement.ShownRowsHaveBadges` | src/pages/StaffManagement.tsx:324 | whatever the criteria, every shown row has a configured status, so the badge lookup never misses |
| `StaffManagement.DepartmentColor` | src/pages/StaffManagement.tsx:136-144 | a listed department gets its mapped class; the fallback class is returned iff the department is not listed |
| `StaffManagement.DepartmentColorsDistinct` | src/pages/StaffManagement.tsx:137-142 | the four listed departments get four different classes |
| `AppSidebar.IsActive` | src/components/layout/AppSidebar.tsx:41-45 | `isActive`: the root matches only itself, every other url matches by `startsWith` (its properties are the three lemmas below) |
| `AppSidebar.RootActiveOnlyAtRoot` | src/components/layout/AppSidebar.tsx:42 | `isActive("/")` holds iff the current path is exactly `/` |
| `AppSidebar.NonRootActiveByPrefix` | src/components/layout/AppSidebar.tsx:43-44 | for any other url, `isActive` holds iff the current path starts with it |
| `AppSidebar.NonSegmentPrefixActive` | src/components/layout/AppSidebar.tsx:43 | the prefix test is not segment-aware: `/staff` is active on `/staffing` |
| `AppSidebar.NavClassName` | src/components/layout/AppSidebar.tsx:47-51 | the highlighted class is returned iff `isActive` holds, the muted class iff it does not |
| `AppSidebar.MenuUrlsWellFormed` | src/components/layout/AppSidebar.tsx:25-33 | menu urls all begin with `/` and are pairwise distinct |
| `AppSidebar.NoUrlPrefixOfAnother` | src/components/layout/AppSidebar.tsx:25-33 | no non-root menu url is a prefix of another |
| `AppSidebar.PrefixesComparable` | src/components/layout/AppSidebar.tsx:43 | two prefixes of the same path are prefixes of one another |
| `AppSidebar.AtMostOneActive` | src/components/layout/AppSidebar.tsx:25-45 | for every current path, no two menu items are active together |
| `AppSidebar.ActiveItems` | src/components/layout/AppSidebar.tsx:82-88 | the highlighted items are exactly the active menu items, and there is at most one |
| `AppSidebar.RootHighlightsDashboard` | src/components/layout/AppSidebar.tsx:26 | at `/` only the Dashboard item is highlighted |
| `AppSidebar.OwnPageHighlightsOwnItem` | src/components/layout/AppSidebar.tsx:25-45 | on each menu item's own url exactly that item is highlighted |
| `TicketBookings.TicketTypesArePriced` | src/pages/TicketBookings.tsx:34-62 | the selectable cards and the rate table have the same ids, and all rates are positive |
| `TicketBookings.TotalPrice` | src/pages/TicketBookings.tsx:72-75 | without a non-empty tier that has a rate entry, the total is 0 |
| `TicketBookings.IsPricedTier` | src/pages/TicketBookings.tsx:72 | the guard of `totalPrice`: a non-empty tier with an entry in the rate table |
| `TicketBookings.PerHeadRates` | src/pages/TicketBookings.tsx:72-74 | for a priced tier, one adult costs its adult rate and one child costs its child rate |
| `TicketBookings.TotalIsSumOfPerHeadPrices` | src/pages/TicketBookings.tsx:72-74 | the total is adults × the per-adult price plus children × the per-child price |
| `TicketBookings.ComboExample` | src/pages/TicketBookings.tsx:37 | combo with 2 adults and 1 child totals 105 |
| `TicketBookings.NoGuestsNoCharge` | src/pages/TicketBookings.tsx:72-75 | zero adults and zero children cost 0 for every tier |
| `TicketBookings.UnpricedTierTotalZero` | src/pages/TicketBookings.tsx:72-75 | an empty or unknown tier totals 0 whatever the counts |
| `TicketBookings.TotalAtLeastAdultRate` | src/pages/TicketBookings.tsx:72-74 | with adults ≥ 1 and children ≥ 0, a priced tier totals at least its adult rate, which is positive |
| `TicketBookings.TotalZeroIffUnpriced` | src/pages/TicketBookings.tsx:72-75 | within the counter bounds, the total is 0 iff no priced tier is chosen |
| `TicketBookings.IncrementAddsOneRate` | src/pages/TicketBookings.tsx:118 | one more adult adds one adult rate, and one more child adds one child rate |
| `TicketBookings.CounterDecrement` | src/pages/TicketBookings.tsx:107 | the decremented value is never below the minimum; it is value − 1 above the minimum and the minimum otherwise |
| `TicketBookings.DecrementDisabled` | src/pages/TicketBookings.tsx:108 | the minus button's `disabled={value <= min}` |
| `TicketBookings.DecrementDisabledIffNoEffect` | src/pages/TicketBookings.tsx:107-108 | for a counter within its bound, the minus button is disabled exactly when pressing it would change nothing |
| `TicketBookings.BookNowRule` | src/pages/TicketBookings.tsx:303 | within the counter bounds, Book Now is enabled iff a priced tier and a date are chosen |
| `TicketBookings.BookNowEnabled` | src/pages/TicketBookings.tsx:303 | the Book Now button's enabling condition, as written |
| `TicketBookings.View` | src/pages/TicketBookings.tsx:313-316 | which face the dialog shows: hidden when closed, Processing until the success flag is set, Confirmed after |
| `TicketBookings.BookingForm.constructor` | src/pages/TicketBookings.tsx:65-70 | the six initial state values: no tier, no date, 1 adult, 0 children, dialog closed, no success |
| `TicketBookings.BookingForm.Total` | src/pages/TicketBookings.tsx:72-75 | `totalPrice`, computed from the component's current tier and counters |
| `TicketBookings.BookingForm.CanBookNow` | src/pages/TicketBookings.tsx:303 | whether the Book Now button is enabled in the current state; `BookNow` requires it |
| `TicketBookings.BookingForm.Dialog` | src/pages/TicketBookings.tsx:313-316 | the dialog face shown in the current state |
| `TicketBookings.BookingForm.SelectTicketType` | src/pages/TicketBookings.tsx:194 | sets the tier and nothing else |
| `TicketBookings.BookingForm.SelectDate` | src/pages/TicketBookings.tsx:243 | sets or clears the date and nothing else |
| `TicketBookings.BookingForm.DecrementAdults` | src/pages/TicketBookings.tsx:256-261 | adults become `max(1, adults − 1)` and nothing else changes |
| `TicketBookings.BookingForm.IncrementAdults` | src/pages/TicketBookings.tsx:118 | adults grow by one, the total grows by one adult rate, and nothing else changes |
| `TicketBookings.BookingForm.DecrementChildren` | src/pages/TicketBookings.tsx:262-266 | children become `max(0, children − 1)` and nothing else changes |
| `TicketBookings.BookingForm.IncrementChildren` | src/pages/TicketBookings.tsx:118 | children grow by one, the total grows by one child rate, and nothing else changes |
| `TicketBookings.BookingForm.BookNow` | src/pages/TicketBookings.tsx:77-82 | callable only with the button enabled. It opens the dialog, leaves the success flag as it was and schedules one timer. The view is Processing unless an earlier confirmation is still recorded. The booked total is at least the tier's adult rate |
| `TicketBookings.BookingForm.TimerFired` | src/pages/TicketBookings.tsx:79-81 | the timer callback sets success unconditionally, with no failure path. An open dialog moves to Confirmed. The form is untouched |
| `TicketBookings.BookingForm.CloseDialog` | src/pages/TicketBookings.tsx:372 | closes the dialog and keeps the form and the success flag |
| `TicketBookings.BookingForm.ResetForm` | src/pages/TicketBookings.tsx:84-91 | restores all six state fields to their initial values, after which Book Now is disabled. Pending timers stay scheduled |
| `TicketBookings.FirstBooking` | src/pages/TicketBookings.tsx:77-82 | from the initial state, a booking shows Processing after Book Now and Confirmed after the timer |
| `TicketBookings.RebookAfterDone` | src/pages/TicketBookings.tsx:313-372 | after Done, a second Book Now opens directly on Confirmed while a new timer is still pending |
| `TicketBookings.RebookBeforeTimer` | src/pages/TicketBookings.tsx:77-82 | dismissing the dialog before the timer fires and booking again shows Processing, with two timers pending |
| `TicketBookings.StaleTimerAfterBookAnother` | src/pages/TicketBookings.tsx:77-91 | a timer left pending across Book Another fires later, and the next Book Now opens directly on Confirmed |
| `TicketBookings.BookAnother` | src/pages/TicketBookings.tsx:84-91 | after Book Another the total is 0 and Book Now is disabled |

## Left out

- Rendering, Tailwind styling beyond the selection rules above, framer-motion animations, icons and the collapsed or expanded sidebar: presentational.
- The capacity bar width `(current / max) * 100%` and the chart percentage labels: floating-point display values.
- `Capacity.CapacityColor`: compares the exact rational percentage, while the page compares IEEE doubles. Rounding could in principle differ from the exact comparison right at a threshold.
- The one-second `setTimeout` delay: time is not modelled. The callback is the explicit event `TimerFired`, which is possible only while a scheduled timer is pending.
- The random booking ID and the calendar's "no past dates" guard depend on randomness and the wall clock. A date is an opaque `CalendarDay`; the model only asks whether one is set.
- `date-fns` formatting: a foreign library.
- Unicode case folding: `toLowerCase` is modelled for ASCII only.
- JavaScript object lookups also see prototype keys such as `"constructor"` or `"toString"` in `ticketPrices`, `statusConfig` and the department colours. The model treats these tables as plain dictionaries. No control of the page can produce such a key.
- `TicketBookings.BookingForm.BookNow`: requires the Book Now button to be enabled, because a disabled button never calls the handler.
- The search inputs and selectors only assign their state (`setSearchTerm`, `setDepartmentFilter`, `setStatusFilter`). The filters are modelled as functions of that state. The staff department selector offers three departments, but the model accepts any selector string.
- The Edit, Remove, Add and Service or Manage buttons have no handlers in the source. Only their enabled state and caption are modelled.
- The sidebar's `NavLink` `end` prop feeds react-router's own matching, which the class-name string ignores. It is not modelled.
- src/pages/Dashboard.tsx, src/pages/Reports.tsx, src/pages/Settings.tsx, src/components/layout/TopNavbar.tsx and src/components/dashboard/StatsCard.tsx are not part of this model. They hold literal chart data, a record-field merge with a toast, and presentation only.
