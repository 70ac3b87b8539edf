/** The staff dashboard (app/staff/dashboard/page.tsx): the active and
    history lists built from the fetched tickets, the identifier a ticket
    is updated by, the status change a staff member is offered, the
    request `updateStatus` sends, the counters, and the formatting of an
    average serving time given in whole minutes. */
module Dashboard {

  import opened Wrappers
  import opened Records
  import opened Sorting
  import opened Text
  import QueueRoute
  import DisplayQueue
  import LoginRoute

  // ---------------------------------------------------------------------
  // Identifiers

  /** The three properties `getIdentifier` looks at: `queue_number`, `id`
      and `queueNumber`; a missing one is `None`. */
  datatype IdentifierFields = IdentifierFields(
    queueNumberColumn: Option<int>, id: Option<int>, queueNumberProperty: Option<int>)

  /** A number is truthy when it is present and not zero. */
  predicate Truthy(v: Option<int>) { v.Some? && v.value != 0 }

  /** `getIdentifier`: the first truthy of `queue_number`, `id`,
      `queueNumber`, else null. */
  function GetIdentifier(q: IdentifierFields): (r: Option<int>)
    ensures r.None? <==> !Truthy(q.queueNumberColumn) && !Truthy(q.id) && !Truthy(q.queueNumberProperty)
    ensures r.Some? ==> Truthy(r)
    ensures r.Some? ==> r == q.queueNumberColumn || r == q.id || r == q.queueNumberProperty
    ensures Truthy(q.queueNumberColumn) ==> r == q.queueNumberColumn
    ensures !Truthy(q.queueNumberColumn) && Truthy(q.id) ==> r == q.id
  {
    if Truthy(q.queueNumberColumn) then q.queueNumberColumn
    else if Truthy(q.id) then q.id
    else if Truthy(q.queueNumberProperty) then q.queueNumberProperty
    else None
  }

  /** The properties a fetched ticket row has: the two columns, no
      `queueNumber`. */
  function FieldsOf(t: Ticket): IdentifierFields {
    IdentifierFields(Some(t.queueNumber), Some(t.id), None)
  }

  /** On a table shaped by ticket issuing every row is identified by its
      ticket number, so no two rows share an identifier and an update
      reaches the ticket it was meant for. */
  lemma IssuedTicketsHaveDistinctIdentifiers(rows: seq<Ticket>)
    requires QueueRoute.NumberedFromOne(rows)
    ensures forall i :: 0 <= i < |rows| ==> GetIdentifier(FieldsOf(rows[i])) == Some(rows[i].queueNumber)
    ensures forall i, j :: 0 <= i < |rows| && 0 <= j < |rows| && i != j ==>
              GetIdentifier(FieldsOf(rows[i])) != GetIdentifier(FieldsOf(rows[j]))
  {
  }

  // ---------------------------------------------------------------------
  // Lists and counters

  predicate IsActive(t: Ticket) { IsWaiting(t) || IsServing(t) }

  /** `waitingQueues` of the dashboard: waiting and serving tickets in
      ascending number order. */
  function ActiveList(queue: seq<Ticket>): (a: seq<Ticket>)
    ensures SortedBy(a, NumberKey)
    ensures forall i :: 0 <= i < |a| ==> IsActive(a[i]) && a[i] in queue
    ensures forall i :: 0 <= i < |queue| && IsActive(queue[i]) ==> queue[i] in a
    ensures multiset(a) == multiset(Filter(queue, IsActive))
    ensures |a| == Count(queue, IsActive)
  {
    var active := Filter(queue, IsActive);
    var a := SortBy(active, NumberKey);
    assert |a| == |multiset(a)| == |multiset(active)| == |active|;
    assert forall i :: 0 <= i < |a| ==> a[i] in multiset(active);
    assert forall i :: 0 <= i < |queue| && IsActive(queue[i]) ==> queue[i] in multiset(a);
    a
  }

  /** `served_at || updated_at` as a time; `new Date(null)` is time 0. */
  function ServedTime(t: Ticket): int {
    if t.servedAt.Some? then t.servedAt.value
    else if t.updatedAt.Some? then t.updatedAt.value
    else 0
  }

  /** The comparator `b - a` on served times, as an ascending key. */
  function LatestServedFirstKey(t: Ticket): int { -ServedTime(t) }

  /** `sort((a, b) => b - a)` on served times. */
  function LatestServedFirst(ts: seq<Ticket>): (r: seq<Ticket>)
    ensures multiset(r) == multiset(ts)
    ensures forall i, j :: 0 <= i < j < |r| ==> ServedTime(r[i]) >= ServedTime(r[j])
  {
    var r := SortBy(ts, LatestServedFirstKey);
    assert forall i, j :: 0 <= i < j < |r| ==> LatestServedFirstKey(r[i]) <= LatestServedFirstKey(r[j]);
    r
  }

  /** `servedQueues`: done tickets, most recently served first. */
  function HistoryList(queue: seq<Ticket>): (h: seq<Ticket>)
    ensures forall i, j :: 0 <= i < j < |h| ==> ServedTime(h[i]) >= ServedTime(h[j])
    ensures forall i :: 0 <= i < |h| ==> IsDone(h[i]) && h[i] in queue
    ensures forall i :: 0 <= i < |queue| && IsDone(queue[i]) ==> queue[i] in h
    ensures |h| == Count(queue, IsDone)
    ensures multiset(h) == multiset(Filter(queue, IsDone))
  {
    var done := Filter(queue, IsDone);
    var h := LatestServedFirst(done);
    assert |h| == |multiset(h)| == |multiset(done)| == |done|;
    assert forall i :: 0 <= i < |h| ==> h[i] in multiset(done);
    assert forall i :: 0 <= i < |queue| && IsDone(queue[i]) ==> queue[i] in multiset(h);
    h
  }

  /** The "Waiting" summary counter: the waiting tickets of the active
      list, which are all the waiting tickets. */
  function WaitingCounter(queue: seq<Ticket>): (n: nat)
    ensures n == Count(queue, IsWaiting)
  {
    CountPermutation(ActiveList(queue), Filter(queue, IsActive), IsWaiting);
    CountWithinFilter(queue, IsActive, IsWaiting);
    Count(ActiveList(queue), IsWaiting)
  }

  /** The "Serving" summary counter: the serving tickets of the active
      list, which are all the serving tickets. */
  function ServingCounter(queue: seq<Ticket>): (n: nat)
    ensures n == Count(queue, IsServing)
  {
    CountPermutation(ActiveList(queue), Filter(queue, IsActive), IsServing);
    CountWithinFilter(queue, IsActive, IsServing);
    Count(ActiveList(queue), IsServing)
  }

  /** The Waiting and Serving counters add up to the length of the active
      list (the badge of the Queue tab). */
  lemma CountersAddUp(queue: seq<Ticket>)
    ensures WaitingCounter(queue) + ServingCounter(queue) == |ActiveList(queue)|
  {
    var a := ActiveList(queue);
    assert forall i :: 0 <= i < |a| ==> (IsWaiting(a[i]) <==> !IsServing(a[i]));
    CountSplit(a, IsWaiting, IsServing);
  }

  /** The dashboard's Waiting counter equals the public display's "In
      Line" counter for the same list. */
  lemma WaitingCounterMatchesDisplay(queue: seq<Ticket>)
    ensures WaitingCounter(queue) == DisplayQueue.InLineCount(queue)
  {
  }

  // ---------------------------------------------------------------------
  // Offered status changes

  datatype Tab = WaitingTab | ServedTab | StaffTab | ReportsTab

  /** The button shown under a ticket: "Start Serving" on a waiting ticket
      and "Mark Done" on a serving one, on the Queue tab only. */
  function OfferedTransition(tab: Tab, status: string): (r: Option<string>)
    ensures r.Some? ==> tab == WaitingTab
    ensures r == Some(Serving) <==> tab == WaitingTab && status == Waiting
    ensures r == Some(Done) <==> tab == WaitingTab && status == Serving
    ensures r.Some? ==> r == Some(Serving) || r == Some(Done)
  {
    if tab != WaitingTab then None
    else if status == Waiting then Some(Serving)
    else if status == Serving then Some(Done)
    else None
  }

  /** The place of a status in the ticket lifecycle. */
  function LifecycleStage(status: string): Option<nat> {
    if status == Waiting then Some(0)
    else if status == Serving then Some(1)
    else if status == Done then Some(2)
    else None
  }

  /** Every offered change moves a ticket exactly one stage forward, so a
      ticket is never offered a way back and a done ticket nothing. */
  lemma OfferedTransitionAdvancesOneStage(tab: Tab, status: string)
    requires OfferedTransition(tab, status).Some?
    ensures LifecycleStage(status).Some?
    ensures LifecycleStage(OfferedTransition(tab, status).value) == Some(LifecycleStage(status).value + 1)
  {
  }

  /** On the Queue tab every listed ticket has a button; no ticket of the
      history list is offered a change. */
  lemma OffersFollowLists(queue: seq<Ticket>)
    ensures forall i :: 0 <= i < |ActiveList(queue)| ==>
              OfferedTransition(WaitingTab, ActiveList(queue)[i].status).Some?
    ensures forall i :: 0 <= i < |HistoryList(queue)| ==>
              forall tab :: OfferedTransition(tab, HistoryList(queue)[i].status).None?
  {
  }

  // ---------------------------------------------------------------------
  // updateStatus

  /** The body of the PUT request: `{ status }`, plus `staffId` when a
      ticket is marked done by a logged-in staff member. */
  datatype UpdatePayload = UpdatePayload(status: string, staffId: Option<nat>)

  /** `PUT /api/queue/${identifier}` with its body. */
  datatype UpdateRequest = UpdateRequest(target: int, payload: UpdatePayload)

  /** What `fetch` produced: success, an error reply (status and `error`
      field, empty when absent), or a thrown error. */
  datatype UpdateOutcome =
    | Updated
    | Refused(httpStatus: nat, error: string)
    | FetchFailed(message: string)

  const NoIdentifier := "No queue identifier found"
  const HttpErrorPrefix := "HTTP error: "

  /** The body `updateStatus` builds. */
  function PayloadFor(status: string, staff: Option<LoginRoute.PublicStaff>): (p: UpdatePayload)
    ensures p.status == status
    ensures p.staffId.Some? <==> status == Done && staff.Some?
    ensures p.staffId.Some? ==> p.staffId.value == staff.value.id
  {
    if status == Done && staff.Some? then UpdatePayload(status, Some(staff.value.id))
    else UpdatePayload(status, None)
  }

  /** The message of a failed update: `data.error || 'HTTP error: ' +
      status`, or the thrown error's message. */
  function UpdateErrorText(outcome: UpdateOutcome): (e: string)
    requires !outcome.Updated?
    ensures outcome.Refused? && outcome.error != "" ==> e == outcome.error
    ensures outcome.Refused? && outcome.error == "" ==>
              |e| > |HttpErrorPrefix| && e[..|HttpErrorPrefix|] == HttpErrorPrefix &&
              AllDigits(e[|HttpErrorPrefix|..]) && DecimalValue(e[|HttpErrorPrefix|..]) == outcome.httpStatus
    ensures outcome.FetchFailed? ==> e == outcome.message
  {
    match outcome
    case Refused(httpStatus, error) =>
      if error != "" then error
      else
        DecimalRoundTrip(httpStatus);
        var e := HttpErrorPrefix + NatToString(httpStatus);
        assert e[|HttpErrorPrefix|..] == NatToString(httpStatus);
        e
    case FetchFailed(message) => message
  }

  /** The dashboard's state: the logged-in staff member (read from local
      storage), the identifier being updated, and the error banner. */
  class DashboardState {
    var staff: Option<LoginRoute.PublicStaff>
    var loading: Option<int>
    var error: Option<string>

    constructor (staff: Option<LoginRoute.PublicStaff>)
      ensures this.staff == staff && loading.None? && error.None?
    {
      this.staff := staff;
      loading := None;
      error := None;
    }

    /** `updateStatus(identifier, status)`: refuse a falsy identifier,
        otherwise send the update and show its error, if any. The outcome
        of the request is a parameter. */
    method UpdateStatus(identifier: Option<int>, status: string, outcome: UpdateOutcome)
      returns (sent: Option<UpdateRequest>)
      modifies this`loading, this`error
      ensures !Truthy(identifier) ==>
                sent.None? && error == Some(NoIdentifier) && loading == old(loading)
      ensures Truthy(identifier) ==>
                sent == Some(UpdateRequest(identifier.value, PayloadFor(status, staff))) && loading.None?
      ensures Truthy(identifier) && outcome.Updated? ==> error.None?
      ensures Truthy(identifier) && !outcome.Updated? ==> error == Some(UpdateErrorText(outcome))
    {
      if !Truthy(identifier) {
        error := Some(NoIdentifier);
        sent := None;
      } else {
        var queueNumber := identifier.value;
        loading := Some(queueNumber);
        error := None;
        var updateData := UpdatePayload(status, None);
        if status == Done && staff.Some? {
          updateData := updateData.(staffId := Some(staff.value.id));
        }
        sent := Some(UpdateRequest(queueNumber, updateData));
        if !outcome.Updated? {
          error := Some(UpdateErrorText(outcome));
        }
        loading := None;
      }
    }
  }

  // ---------------------------------------------------------------------
  // formatAverageTime on whole minutes

  /** `formatAverageTime` for an average given in whole minutes (null when
      nobody was served). */
  function FormatAverageTime(avgMinutes: Option<nat>): (r: string)
    ensures r == "N/A" <==> avgMinutes.None? || avgMinutes.value == 0
  {
    if avgMinutes.None? || avgMinutes.value == 0 then "N/A"
    else
      var t := avgMinutes.value;
      if t < 60 then NatToString(t) + " min"
      else NatToString(t / 60) + "h " + NatToString(t % 60) + "m"
  }

  /** The length of the run of digits at the front of `s`. */
  function LeadingDigits(s: string): (n: nat)
    ensures n <= |s| && AllDigits(s[..n])
    ensures n < |s| ==> !IsDigit(s[n])
  {
    if s != [] && IsDigit(s[0]) then
      assert s[..1 + LeadingDigits(s[1..])] == [s[0]] + s[1..][..LeadingDigits(s[1..])];
      1 + LeadingDigits(s[1..])
    else 0
  }

  /** The reading of a formatted average: which of the three forms the
      text has, and its numbers. */
  datatype Shown =
    | NotApplicable
    | Minutes(minutes: nat)
    | HoursMinutes(hours: nat, minutes: nat)
    | Unreadable

  /** Reads a formatted average back: `"N/A"`, `"m min"` or
      `"h" "h " "m" "m"`; any other text is unreadable. */
  function ParseAverageTime(s: string): Shown {
    if s == "N/A" then NotApplicable
    else
      var n := LeadingDigits(s);
      if n == 0 then Unreadable
      else
        var whole := DecimalValue(s[..n]);
        var rest := s[n..];
        if rest == " min" then Minutes(whole)
        else if |rest| >= 2 && rest[..2] == "h " then
          var tail := rest[2..];
          var m := LeadingDigits(tail);
          if m > 0 && tail[m..] == "m" then HoursMinutes(whole, DecimalValue(tail[..m]))
          else Unreadable
        else Unreadable
  }

  /** The run of digits at the front of `digits + rest` is `digits` when
      `rest` does not start with a digit. */
  lemma {:induction false} LeadingDigitsOf(digits: string, rest: string)
    requires AllDigits(digits)
    requires rest == [] || !IsDigit(rest[0])
    ensures LeadingDigits(digits + rest) == |digits|
  {
    if digits != [] {
      assert (digits + rest)[1..] == digits[1..] + rest;
      LeadingDigitsOf(digits[1..], rest);
    }
  }

  /** A formatted average reads back as the minutes it was made from:
      below an hour in the `"m min"` form with m the input, from an hour
      on in the hours-and-minutes form with at least one hour, fewer than
      60 minutes, and `h * 60 + m` the input. */
  lemma FormatAverageTimeRoundTrip(t: nat)
    requires t > 0
    ensures t < 60 ==> ParseAverageTime(FormatAverageTime(Some(t))) == Minutes(t)
    ensures t >= 60 ==>
              var p := ParseAverageTime(FormatAverageTime(Some(t)));
              p.HoursMinutes? && p.hours >= 1 && p.minutes < 60 && p.hours * 60 + p.minutes == t
  {
    var s := FormatAverageTime(Some(t));
    if t < 60 {
      var d := NatToString(t);
      LeadingDigitsOf(d, " min");
      assert s[..|d|] == d && s[|d|..] == " min";
      DecimalRoundTrip(t);
    } else {
      var h, m := NatToString(t / 60), NatToString(t % 60);
      assert s == h + ("h " + m + "m");
      LeadingDigitsOf(h, "h " + m + "m");
      assert s[..|h|] == h;
      var rest := s[|h|..];
      assert rest == "h " + m + "m";
      assert rest[2..] == m + "m";
      LeadingDigitsOf(m, "m");
      assert rest[2..][..|m|] == m && rest[2..][|m|..] == "m";
      DecimalRoundTrip(t / 60);
      DecimalRoundTrip(t % 60);
    }
  }

  /** A missing or zero average, and only that, reads as "N/A". */
  lemma NotApplicableOnlyForNoAverage(avgMinutes: Option<nat>)
    ensures ParseAverageTime(FormatAverageTime(avgMinutes)) == NotApplicable <==>
              avgMinutes.None? || avgMinutes.value == 0
  {
    if avgMinutes.Some? && avgMinutes.value > 0 {
      FormatAverageTimeRoundTrip(avgMinutes.value);
    }
  }
}
