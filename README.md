# Queue management system — a verified model of its core

The queue management system issues numbered tickets to customers, shows
the line on a public display and on the home page, lets staff call and
finish tickets from a dashboard, lets customers look up their tickets by
name, and registers and logs in staff members.

This project models the logic under that interface. The two database
tables are in-memory sequences of records: the `queue` table of tickets
and the `staff` table. Times are integers.

- `TicketTable` (module `QueueRoute`) is the `queue` table. Its `Issue`
  method is `POST /api/queue`: it reads the largest ticket number and
  appends one row with the next number. `Listing` is `GET /api/queue`.
- `StaffTable` (module `RegisterRoute`) is the `staff` table. Its
  `Register` method is `POST /api/staff/register`.
- `LoginRoute.Login` is `POST /api/staff/login`. It only reads the table.
- `SearchRoute.Search` is `GET /api/queue/search`. It only reads the table.
- `DisplayQueue` holds the views of the public display.
- `Dashboard` holds the staff dashboard's lists, counters, identifiers,
  offered status changes, `updateStatus` and `formatAverageTime`.
- `HomePage` holds the home page's statistics, its search form and the
  status badge colour and text.
- `QueueNumberPage` holds the ticket page shown after issuing.
- `Sorting` and `Text` give the JavaScript and SQL building blocks the
  pages use: stable sort by key, `filter`, `find`, counting, decimal
  rendering, `String.prototype.trim`, `LOWER` and substring search.

Values the code gets from outside are parameters:

- the password hash (bcrypt) is a function `hash`, and a password matches
  a stored hash exactly when `hash(password)` equals it;
- the reply of a `fetch` in the pages (`SearchOutcome`, `UpdateOutcome`);
- the column defaults of a new ticket row (`status`, `created_at`);
- the logged-in staff member read from local storage.

Each ticket and staff row gets its id from an AUTO_INCREMENT counter
(`nextId`) kept by the table class. Like MySQL's AUTO_INCREMENT, the
counter starts at 1, so no row has the falsy id 0.

The model follows the code where names suggest otherwise. The dashboard's
`waitingQueues` variable, despite its name, holds the `serving` tickets
as well as the `waiting` ones; the model calls it `ActiveList`. The
dashboard's "Waiting" counter counts only the `waiting` ones.

## Model

| member | source | states |
|---|---|---|
| QueueRoute.MaxNumber | app/api/queue/route.ts:7 | `MAX(queue_number)` is NULL exactly on an empty table; otherwise it is some row's number and no row's number exceeds it |
| QueueRoute.NextNumber | app/api/queue/route.ts:7-8 | the next number is 1 on an empty table, exceeds every existing number, and is one more than some existing number |
| QueueRoute.Issued | app/api/queue/route.ts:10 | one POST appends exactly one row with the given name, the new number and no service data, and leaves every existing row unchanged; the new number exceeds all others |
| QueueRoute.IssuedKeepsNumbersIncreasing | app/api/queue/route.ts:7-10 | issuing keeps ticket numbers strictly increasing in row order, so they stay pairwise distinct |
| QueueRoute.IssuedExtendsNumbering | app/api/queue/route.ts:7-10 | a table numbered 1..n gets ticket n+1 |
| QueueRoute.IssuedAll | app/api/queue/route.ts:7-10 | a sequence of POSTs adds one row per call |
| QueueRoute.IssuedAllNumbersOneToN | app/api/queue/route.ts:7-10 | issuing n tickets from an empty table yields the numbers 1..n in order, each row carrying its call's name, earlier rows untouched |
| QueueRoute.TicketTable.Issue | app/api/queue/route.ts:4-13 | POST replaces the table by `Issued` of the old table, replies `success: true` with the number stored in the inserted row, and on a table shaped by issuing that number is the new row count |
| QueueRoute.TicketTable.Listing | app/api/queue/route.ts:15-18 | GET returns a permutation of the table sorted ascending by ticket number |
| QueueRoute.TicketTable.ListingOfValidTable | app/api/queue/route.ts:16 | on a table shaped by issuing, the listing is the table in row order |
| DisplayQueue.WaitingQueues | app/display-queue/page.tsx:21-23 | the waiting list is a permutation of the `waiting` tickets of the list (each as often as in the list), sorted ascending by number |
| DisplayQueue.ServingQueue | app/display-queue/page.tsx:25 | the serving ticket is the first `serving` ticket in list order, and is absent exactly when none is serving |
| DisplayQueue.NextQueue | app/display-queue/page.tsx:26 | "Up Next" is absent exactly when nobody waits; otherwise it is a waiting ticket with the least number among waiting tickets |
| DisplayQueue.TotalServed | app/display-queue/page.tsx:29 | the served count is at most the list length |
| DisplayQueue.TotalServedCountsDone | app/display-queue/page.tsx:29 | the served count counts each `done` ticket once per occurrence and nothing else |
| DisplayQueue.WaitingLine | app/display-queue/page.tsx:109-125 | the line shows positions 1..n in waiting-list order with each ticket's number and name, only position 1 highlighted |
| DisplayQueue.WaitingLineStartsWithNext | app/display-queue/page.tsx:109-125 | position 1 of the line is the "Up Next" ticket, and the line is empty exactly when nobody is up next |
| DisplayQueue.UpNextCount | app/display-queue/page.tsx:149 | the "Up Next" counter is 1 when someone waits and 0 otherwise |
| DisplayQueue.InLineCount | app/display-queue/page.tsx:153 | the "In Line" counter is the number of waiting tickets and is 0 exactly when "Up Next" is 0 |
| Dashboard.GetIdentifier | app/staff/dashboard/page.tsx:194-199 | the identifier is `queue_number` if truthy, else `id` if truthy, else `queueNumber` if truthy, else null; a returned identifier is truthy |
| Dashboard.IssuedTicketsHaveDistinctIdentifiers | app/staff/dashboard/page.tsx:194-199 | on a table shaped by issuing, each ticket's identifier is its number and no two tickets share one |
| Dashboard.ActiveList | app/staff/dashboard/page.tsx:206-208 | the active list is a permutation of the `waiting` and `serving` tickets of the list (each as often as in the list, so its length is their count), sorted ascending by number |
| Dashboard.LatestServedFirst | app/staff/dashboard/page.tsx:212 | the served-time comparator yields a permutation in descending served time |
| Dashboard.HistoryList | app/staff/dashboard/page.tsx:210-212 | the history list is a permutation of the `done` tickets of the list, one entry per `done` row, in descending order of `served_at`, falling back to `updated_at` |
| Dashboard.WaitingCounter | app/staff/dashboard/page.tsx:674 | the Waiting counter, taken over the active list, counts every `waiting` ticket of the whole list |
| Dashboard.ServingCounter | app/staff/dashboard/page.tsx:680 | the Serving counter, taken over the active list, counts every `serving` ticket of the whole list |
| Dashboard.CountersAddUp | app/staff/dashboard/page.tsx:674-680 | the Waiting and Serving counters add up to the length of the active list |
| Dashboard.WaitingCounterMatchesDisplay | app/staff/dashboard/page.tsx:674 | the dashboard's Waiting counter equals the display's "In Line" counter |
| Dashboard.OfferedTransition | app/staff/dashboard/page.tsx:414-433 | only the queue tab (`activeTab === 'waiting'`) offers changes; only `waiting` to `serving` and `serving` to `done` are offered |
| Dashboard.OfferedTransitionAdvancesOneStage | app/staff/dashboard/page.tsx:414-433 | every offered change moves a ticket exactly one lifecycle stage forward, so a `done` ticket is offered nothing |
| Dashboard.OffersFollowLists | app/staff/dashboard/page.tsx:414-433 | every ticket of the active list has a button on the queue tab; no history ticket is offered a change on any tab |
| Dashboard.PayloadFor | app/staff/dashboard/page.tsx:111-115 | the payload always carries the status, and carries `staffId` exactly when the status is `done` and a staff member is logged in, with that member's id |
| Dashboard.UpdateErrorText | app/staff/dashboard/page.tsx:125-138 | a refused update shows the reply's `error` when it is non-empty, otherwise "HTTP error: " followed by digits that read back as the HTTP status; a thrown error shows its message |
| Dashboard.DashboardState.UpdateStatus | app/staff/dashboard/page.tsx:99-142 | a falsy identifier sets "No queue identifier found" and sends nothing; otherwise the PUT to that identifier carries the payload, `loading` ends cleared, and `error` ends empty on success or holds the reply's error, the HTTP status text, or the thrown message |
| Dashboard.FormatAverageTime | app/staff/dashboard/page.tsx:83-95 | the text is "N/A" exactly for a missing or zero average |
| Dashboard.FormatAverageTimeRoundTrip | app/staff/dashboard/page.tsx:89-95 | for whole minutes t > 0: below an hour the text is in the "m min" form with m = t; from an hour on it is in the "h" "h " "m" "m" form with h >= 1, m < 60 and h*60+m = t |
| Dashboard.NotApplicableOnlyForNoAverage | app/staff/dashboard/page.tsx:84 | the text reads as "N/A" exactly for a missing or zero average |
| HomePage.NumberLabel | app/page.tsx:36 | the label starts with `#` followed by a rendered number |
| HomePage.NumberLabelRoundTrip | app/page.tsx:36 | the characters after `#` read back as the ticket number |
| HomePage.FetchStats | app/page.tsx:29-36 | Total Served counts `done` tickets and Active Queues counts `waiting` tickets, each at most the list length; Currently Serving is `#` and the number of the first `serving` ticket, null exactly when none is serving |
| HomePage.StatsAgreeWithDisplay | app/page.tsx:29-36 | the home page and the public display agree on the served count, the waiting count and the serving ticket |
| HomePage.SearchErrorText | app/page.tsx:58-64 | a failed search always shows a non-empty message |
| HomePage.Home.SearchQueueByName | app/page.tsx:43-68 | a blank-after-trim name sets "Please enter your name" and sends no request; otherwise the request uses the trimmed name, loading ends false, and the result or the error message is shown |
| HomePage.NonBlankQueryIsAccepted | app/page.tsx:45-55 | a trimmed non-blank name always passes the search endpoint's name check |
| HomePage.StatusColor | app/page.tsx:126-133 | the three known statuses get their colours; exactly the other strings get gray |
| HomePage.StatusColorsDistinct | app/page.tsx:126-133 | distinct known statuses get distinct colours |
| HomePage.StatusText | app/page.tsx:135-142 | the three known statuses get their phrases; any other status is shown unchanged |
| HomePage.StatusTextsDistinct | app/page.tsx:135-142 | distinct known statuses get distinct phrases |
| SearchRoute.NewestFirst | app/api/queue/search/route.ts:20 | the result is a permutation ordered by `created_at` descending |
| SearchRoute.Search | app/api/queue/search/route.ts:4-24 | a missing or empty name gives 400 "Name parameter is required"; otherwise every returned ticket is a table row whose name contains the query ignoring case, every such row is returned, newest first |
| SearchRoute.SearchKeepsMultiplicity | app/api/queue/search/route.ts:16-21 | each matching row is returned as often as it occurs in the table, and no other row at all |
| SearchRoute.NameMatchesIff | app/api/queue/search/route.ts:19-21 | a name matches exactly when the lower-cased query occurs at some position of the lower-cased name |
| SearchRoute.SearchIgnoresCase | app/api/queue/search/route.ts:19-21 | queries that differ only in letter case give the same reply |
| RegisterRoute.RoleOrDefault | app/api/staff/register/route.ts:32 | the stored role is the given role when present, `staff` otherwise |
| RegisterRoute.StaffTable.Register | app/api/staff/register/route.ts:5-37 | a missing field gives 400 and a taken email 409, both leaving the table unchanged; otherwise exactly one row is appended with the name, the email, the hash of the password and the role; unique emails stay unique |
| RegisterRoute.AppendNewEmailKeepsUnique | app/api/staff/register/route.ts:16-33 | appending a row whose email is not taken keeps emails unique |
| LoginRoute.Login | app/api/staff/login/route.ts:5-43 | a missing field gives 400; an unknown email or a wrong password gives the same 401; success happens exactly when the first row with the email has a matching password, and replies with that first row's fields without the password |
| LoginRoute.WithoutPassword | app/api/staff/login/route.ts:38 | the public record keeps the id, name, email and role of the row |
| LoginRoute.WithoutPasswordIgnoresPassword | app/api/staff/login/route.ts:38 | rows differing only in their password give the same public record |
| LoginRoute.FirstOfFilterIsFirstMatch | app/api/staff/login/route.ts:16-28 | the lookup finds nothing exactly when no row has the email, and otherwise its first row is the first table row with the email |
| LoginRoute.LoginWithUniqueEmails | app/api/staff/login/route.ts:16-43 | with unique emails, login with a registered email succeeds exactly when the password matches that row, and replies with that row without its password |
| QueueNumberPage.PadStart2 | app/queue-number/page.tsx:44 | the padded number has length max(2, n), ends with the input, is `0` before it, and equals the input when that has 2 or more characters |
| QueueNumberPage.Page | app/queue-number/page.tsx:17-51 | the invalid card shows exactly when the number or the name is missing or empty; otherwise the padded number and the name are shown |
| QueueNumberPage.PaddedNumberReadsBack | app/queue-number/page.tsx:44 | the padded digits of a ticket number read back as that number |
| QueueNumberPage.LeadingZeroKeepsValue | app/queue-number/page.tsx:44 | a leading `0` does not change a decimal value |
| Sorting.SortBy | app/display-queue/page.tsx:23 | `sort` by a key comparator returns a permutation sorted by the key |
| Sorting.Filter | app/display-queue/page.tsx:22 | `filter` keeps elements that satisfy the test, and every element that does |
| Sorting.FilterMultiset | app/display-queue/page.tsx:22 | `filter` keeps each satisfying element as often as it occurs, and drops the rest |
| Sorting.Count | app/display-queue/page.tsx:29 | `filter(...).length` is at most the list length |
| Sorting.Find | app/display-queue/page.tsx:25 | `find` is undefined exactly when nothing satisfies the test, else it returns the first element that does |
| Sorting.CountSplit | app/staff/dashboard/page.tsx:674-680 | when each element satisfies exactly one of two tests, their counts add up to the length |
| Sorting.CountPermutation | app/staff/dashboard/page.tsx:674 | a count does not depend on order |
| Sorting.CountWithinFilter | app/staff/dashboard/page.tsx:674 | counting inside a wider filter counts the same elements as on the whole list |
| Sorting.SortedHeadIsLeast | app/display-queue/page.tsx:26 | the head of a sorted list has the least key |
| Sorting.SortByStrictlySorted | app/api/queue/route.ts:16 | a list already strictly ordered by the key sorts to itself |
| Text.NatToString | app/page.tsx:36 | a number renders as decimal digits without a leading zero |
| Text.DecimalRoundTrip | app/page.tsx:36 | rendered digits read back as the number |
| Text.IntRoundTrip | app/page.tsx:36 | a rendered integer, sign included, reads back as the integer |
| Text.Trim | app/page.tsx:45 | `trim` gives the empty string exactly on blank input; otherwise a contiguous slice of the input that neither starts nor ends with white space, with only white space before and after it |
| Text.TrimRemovesPadding | app/page.tsx:45 | `trim` of a text padded on both sides with white space is exactly that text, whatever the padding |
| Text.Lower | app/api/queue/search/route.ts:19 | `LOWER` keeps the length, lower-cases each letter, leaves other characters alone, and leaves no upper-case letter |
| Text.ContainsIff | app/api/queue/search/route.ts:19-21 | `LIKE '%q%'` holds exactly when `q` occurs at some position |

## Left out

- React rendering, CSS, routing and the polling timers are not modelled; they hold no logic to state.
- `fetch`, local storage and HTTP plumbing are I/O: each reply is a parameter or a result value.
- The SQL engine and its driver are replaced by sequences of rows.
- `%` and `_` inside a search query are matched as literal characters, not as `LIKE` wildcards.
- `LOWER` and `trim` cover ASCII letters and the ECMAScript white-space set; no Unicode case mapping beyond ASCII is modelled.
- The database collation is not modelled: `email = ?` is exact string equality here, not case-insensitive.
- bcrypt's salting and cost factor are not modelled: `hash` is a deterministic function parameter.
- The race between the `MAX` read and the `INSERT` of two concurrent POSTs is not modelled; issuing is sequential.
- The schema is not part of this model. The initial `status` and `created_at` of a new ticket are parameters, not proved facts.
- QueueRoute.Issued: assumes the schema leaves `served_by`, `served_at` and `updated_at` NULL in a new row; `HistoryList` falls back to `updated_at`, so its order rests on this assumption.
- The AUTO_INCREMENT counters are assumed to start at 1 and to grow by one per insert, as MySQL's default does; the schema that would fix this is not part of the model.
- The `name` of a POST to /api/queue is not validated by the code; a missing name is not modelled, as the model takes a string.
- The status-update endpoint `/api/queue/[id]` and the staff delete endpoint are not part of this model, so the effect of an update on the table is not modelled.
- app/api/reports/staff-performance/route.ts is left out: it is SQL date arithmetic and averages.
- app/api/staff/route.ts is left out: it is a plain ordered `SELECT`.
- The login, registration and add-to-queue form pages are left out: their checks repeat the server-side ones.
- Dashboard.FormatAverageTime: covers whole minutes only; the sub-minute `sec` branch and the `Math.round` of fractional minutes are floating point.
- The dashboard's average-per-staff division and its date-based personal statistics are left out; they are floating point and depend on the wall clock and locale.
- `decodeURIComponent` and `encodeURIComponent` are library codecs: the ticket page shows the name as given, and the search request carries the trimmed name as is.
- Dashboard.HistoryList: times are integers. A ticket whose `served_at` and `updated_at` are both absent sorts as time 0 (`new Date(null)`); the NaN comparison of an undefined `updated_at` is not modelled.
- Dashboard.DashboardState.UpdateStatus: the delayed refresh after a successful update is left out, and so is the crash when no staff member is logged in at that point.
- The 500 replies on a database failure are not modelled, since the database cannot fail here.
- The staff reply of a login holds the modelled columns only (id, name, email, role); other columns of the row are not modelled.
- SQL `ORDER BY` leaves ties open; the listing and search contracts state only order and permutation, and the model breaks ties stably.
- QueueNumberPage.PadStart2: measures length in characters (Unicode scalar values), while JavaScript's `padStart` counts UTF-16 code units, so a single character outside the Basic Multilingual Plane is padded here but not by JavaScript.
- SearchRoute.Search: returns whole ticket records, while the query selects every column except `updated_at`; the missing column is not modelled.
