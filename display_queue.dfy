/** The public display (app/display-queue/page.tsx): from the fetched
    ticket list it derives who is being served, who is up next, the
    waiting line with positions, and the footer counters. */
module DisplayQueue {

  import opened Wrappers
  import opened Records
  import opened Sorting

  /** `waitingQueues`: the waiting tickets in ascending number order. */
  function WaitingQueues(queue: seq<Ticket>): (w: seq<Ticket>)
    ensures SortedBy(w, NumberKey)
    ensures forall i :: 0 <= i < |w| ==> IsWaiting(w[i]) && w[i] in queue
    ensures forall i :: 0 <= i < |queue| && IsWaiting(queue[i]) ==> queue[i] in w
    ensures |w| == Count(queue, IsWaiting)
    ensures multiset(w) == multiset(Filter(queue, IsWaiting))
  {
    var waiting := Filter(queue, IsWaiting);
    var w := SortBy(waiting, NumberKey);
    assert forall i :: 0 <= i < |w| ==> w[i] in multiset(waiting);
    assert forall i :: 0 <= i < |queue| && IsWaiting(queue[i]) ==> queue[i] in multiset(w);
    w
  }

  /** `servingQueue`: the first serving ticket in list order, if any. */
  function ServingQueue(queue: seq<Ticket>): (r: Option<Ticket>)
    ensures r.None? <==> forall i :: 0 <= i < |queue| ==> !IsServing(queue[i])
    ensures r.Some? ==> exists i :: 0 <= i < |queue| && queue[i] == r.value && IsServing(queue[i]) &&
                                    forall j :: 0 <= j < i ==> !IsServing(queue[j])
  {
    Find(queue, IsServing)
  }

  /** `nextQueue`: the head of the waiting line. */
  function NextQueue(queue: seq<Ticket>): (r: Option<Ticket>)
    ensures r.None? <==> forall i :: 0 <= i < |queue| ==> !IsWaiting(queue[i])
    ensures r.Some? ==> IsWaiting(r.value) && r.value in queue
    ensures r.Some? ==> forall i :: 0 <= i < |queue| && IsWaiting(queue[i]) ==>
                          r.value.queueNumber <= queue[i].queueNumber
  {
    var w := WaitingQueues(queue);
    if |w| > 0 then
      assert forall i :: 0 <= i < |queue| && IsWaiting(queue[i]) ==> w[0].queueNumber <= queue[i].queueNumber by {
        forall i | 0 <= i < |queue| && IsWaiting(queue[i]) ensures w[0].queueNumber <= queue[i].queueNumber {
          SortedHeadIsLeast(w, NumberKey, queue[i]);
        }
      }
      Some(w[0])
    else
      None
  }

  /** `totalServed`: how many tickets are done. */
  function TotalServed(queue: seq<Ticket>): (n: nat)
    ensures n <= |queue|
  {
    Count(queue, IsDone)
  }

  /** Every done ticket is counted once per occurrence, and nothing else. */
  lemma TotalServedCountsDone(queue: seq<Ticket>, t: Ticket)
    ensures multiset(Filter(queue, IsDone))[t] == if IsDone(t) then multiset(queue)[t] else 0
    ensures TotalServed(queue) == |Filter(queue, IsDone)|
  {
    FilterMultiset(queue, IsDone, t);
  }

  /** One entry of the "Waiting Line" panel. */
  datatype LineEntry = LineEntry(position: nat, queueNumber: int, name: string, highlighted: bool)

  /** `waitingQueues.map((q, index) => ...)`: position `index + 1`, the
      first entry highlighted. */
  function WaitingLine(queue: seq<Ticket>): (line: seq<LineEntry>)
    ensures |line| == |WaitingQueues(queue)|
    ensures forall i :: 0 <= i < |line| ==> line[i].position == i + 1
    ensures forall i :: 0 <= i < |line| ==>
              line[i].queueNumber == WaitingQueues(queue)[i].queueNumber &&
              line[i].name == WaitingQueues(queue)[i].name
    ensures forall i :: 0 <= i < |line| ==> (line[i].highlighted <==> line[i].position == 1)
  {
    var w := WaitingQueues(queue);
    seq(|w|, i requires 0 <= i < |w| => LineEntry(i + 1, w[i].queueNumber, w[i].name, i == 0))
  }

  /** Position 1 of the waiting line is the ticket shown as "Up Next",
      and the line is empty exactly when nobody is up next. */
  lemma WaitingLineStartsWithNext(queue: seq<Ticket>)
    ensures |WaitingLine(queue)| == 0 <==> NextQueue(queue).None?
    ensures |WaitingLine(queue)| > 0 ==>
              WaitingLine(queue)[0].position == 1 &&
              WaitingLine(queue)[0].queueNumber == NextQueue(queue).value.queueNumber &&
              WaitingLine(queue)[0].name == NextQueue(queue).value.name
  {
  }

  /** The "Up Next" footer counter: `nextQueue ? 1 : 0`. */
  function UpNextCount(queue: seq<Ticket>): (n: nat)
    ensures n <= 1
    ensures n == 1 <==> exists i :: 0 <= i < |queue| && IsWaiting(queue[i])
  {
    if NextQueue(queue).Some? then 1 else 0
  }

  /** The "In Line" footer counter and the badge of the waiting line. */
  function InLineCount(queue: seq<Ticket>): (n: nat)
    ensures n == Count(queue, IsWaiting)
    ensures n == 0 <==> UpNextCount(queue) == 0
  {
    |WaitingQueues(queue)|
  }
}
