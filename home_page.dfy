/** The home page (app/page.tsx): the statistics cards computed from the
    ticket list, the "check your number" search form, and the status
    badge colour and text of a search result. */
module HomePage {

  import opened Wrappers
  import opened Records
  import opened Sorting
  import opened Text
  import DisplayQueue
  import SearchRoute

  /** The `stats` state: two counters and the `#n` label of the ticket
      being served. */
  datatype Stats = Stats(totalServed: nat, activeQueues: nat, currentlyServing: Option<string>)

  /** The label `#${queue_number}`. */
  function NumberLabel(n: int): (s: string)
    ensures |s| >= 2 && s[0] == '#'
  {
    "#" + IntToString(n)
  }

  /** `fetchStats` on the fetched list `data`. */
  function FetchStats(data: seq<Ticket>): (s: Stats)
    ensures s.totalServed == Count(data, IsDone) && s.totalServed <= |data|
    ensures s.activeQueues == Count(data, IsWaiting) && s.activeQueues <= |data|
    ensures s.currentlyServing.None? <==> forall i :: 0 <= i < |data| ==> !IsServing(data[i])
    ensures s.currentlyServing.Some? ==>
              exists i :: 0 <= i < |data| && IsServing(data[i]) &&
                          (forall j :: 0 <= j < i ==> !IsServing(data[j])) &&
                          s.currentlyServing.value == NumberLabel(data[i].queueNumber)
  {
    var serving := Find(data, IsServing);
    Stats(Count(data, IsDone), Count(data, IsWaiting),
          if serving.Some? then Some(NumberLabel(serving.value.queueNumber)) else None)
  }

  /** The home page and the public display agree: the same served count,
      the waiting count is the length of the display's waiting line, and
      "Currently Serving" names the display's serving ticket. */
  lemma StatsAgreeWithDisplay(data: seq<Ticket>)
    ensures FetchStats(data).totalServed == DisplayQueue.TotalServed(data)
    ensures FetchStats(data).activeQueues == |DisplayQueue.WaitingQueues(data)|
    ensures FetchStats(data).currentlyServing.None? <==> DisplayQueue.ServingQueue(data).None?
    ensures DisplayQueue.ServingQueue(data).Some? ==>
              FetchStats(data).currentlyServing == Some(NumberLabel(DisplayQueue.ServingQueue(data).value.queueNumber))
  {
  }

  /** The label names the ticket number: reading back the digits after
      `#` gives the number. */
  lemma NumberLabelRoundTrip(n: int)
    ensures var s := NumberLabel(n)[1..];
      s != [] && (s[0] == '-' ==> AllDigits(s[1..])) && (s[0] != '-' ==> AllDigits(s)) &&
      IntValue(s) == n
  {
    assert NumberLabel(n)[1..] == IntToString(n);
    IntRoundTrip(n);
  }

  const EnterName := "Please enter your name"
  const SearchFailedDefault := "Failed to search queue"
  const FindFailedDefault := "Failed to find your queue number"

  /** What `fetch` produced for the search request: the route's reply, or
      a thrown error with its message. */
  datatype SearchOutcome =
    | Answered(reply: SearchRoute.SearchReply)
    | FetchFailed(message: string)

  /** The message shown for a failed search: the reply's `error`, else the
      default, as `data.error || 'Failed to search queue'` and
      `error.message || 'Failed to find your queue number'`. */
  function SearchErrorText(outcome: SearchOutcome): (e: string)
    requires !(outcome.Answered? && outcome.reply.Found?)
    ensures e != ""
  {
    match outcome
    case Answered(reply) => if reply.error != "" then reply.error else SearchFailedDefault
    case FetchFailed(message) => if message != "" then message else FindFailedDefault
  }

  /** The search form's state. */
  class Home {
    var searchName: string
    var searchResult: Option<seq<Ticket>>
    var searchLoading: bool
    var searchError: string

    constructor ()
      ensures searchName == "" && searchResult.None? && !searchLoading && searchError == ""
    {
      searchName, searchResult, searchLoading, searchError := "", None, false, "";
    }

    /** `searchQueueByName`: refuse a blank name, otherwise query with the
        trimmed name and show the tickets found or the error. The outcome
        of the request is a parameter. */
    method SearchQueueByName(outcome: SearchOutcome) returns (query: Option<string>)
      modifies this`searchResult, this`searchLoading, this`searchError
      ensures IsBlank(searchName) ==>
                query.None? && searchError == EnterName &&
                searchResult == old(searchResult) && searchLoading == old(searchLoading)
      ensures !IsBlank(searchName) ==> query == Some(Trim(searchName)) && !searchLoading
      ensures !IsBlank(searchName) && outcome.Answered? && outcome.reply.Found? ==>
                searchResult == Some(outcome.reply.tickets) && searchError == ""
      ensures !IsBlank(searchName) && !(outcome.Answered? && outcome.reply.Found?) ==>
                searchResult.None? && searchError == SearchErrorText(outcome)
    {
      var trimmed := Trim(searchName);
      if trimmed == "" {
        searchError := EnterName;
        query := None;
      } else {
        searchLoading := true;
        searchError := "";
        searchResult := None;
        query := Some(trimmed);
        if outcome.Answered? && outcome.reply.Found? {
          searchResult := Some(outcome.reply.tickets);
        } else {
          searchError := SearchErrorText(outcome);
        }
        searchLoading := false;
      }
    }
  }

  /** A trimmed, non-blank name always passes the route's name check, so
      the route answers with the matching tickets. */
  lemma NonBlankQueryIsAccepted(rows: seq<Ticket>, searchName: string)
    requires !IsBlank(searchName)
    ensures SearchRoute.Search(rows, Some(Trim(searchName))).Found?
  {
  }

  const Yellow := "bg-yellow-500"
  const Orange := "bg-[#F77F00]"
  const Green := "bg-green-500"
  const Gray := "bg-gray-500"

  predicate IsKnownStatus(status: string) {
    status == Waiting || status == Serving || status == Done
  }

  /** `getStatusColor`: a colour for each known status, gray otherwise. */
  function StatusColor(status: string): (c: string)
    ensures c == Gray <==> !IsKnownStatus(status)
    ensures status == Waiting ==> c == Yellow
    ensures status == Serving ==> c == Orange
    ensures status == Done ==> c == Green
  {
    if status == Waiting then Yellow
    else if status == Serving then Orange
    else if status == Done then Green
    else Gray
  }

  /** Distinct known statuses get distinct colours. */
  lemma StatusColorsDistinct(a: string, b: string)
    requires IsKnownStatus(a) && IsKnownStatus(b) && a != b
    ensures StatusColor(a) != StatusColor(b)
  {
  }

  /** `getStatusText`: a phrase for each known status, the status itself
      otherwise. */
  function StatusText(status: string): (t: string)
    ensures !IsKnownStatus(status) ==> t == status
    ensures status == Waiting ==> t == "Waiting in line"
    ensures status == Serving ==> t == "Currently being served"
    ensures status == Done ==> t == "Already served"
  {
    if status == Waiting then "Waiting in line"
    else if status == Serving then "Currently being served"
    else if status == Done then "Already served"
    else status
  }

  /** The known statuses' phrases differ from one another. */
  lemma StatusTextsDistinct(a: string, b: string)
    requires IsKnownStatus(a) && IsKnownStatus(b) && a != b
    ensures StatusText(a) != StatusText(b)
  {
  }
}
