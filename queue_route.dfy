/** The ticket endpoint (app/api/queue/route.ts): POST issues the next
    ticket number to a customer, GET lists the table by ticket number.
    The `queue` table is a class whose rows the POST handler extends. */
module QueueRoute {

  import opened Wrappers
  import opened Records
  import opened Sorting

  /** `SELECT MAX(queue_number) FROM queue`: NULL on an empty table. */
  function MaxNumber(rows: seq<Ticket>): (m: Option<int>)
    ensures m.None? <==> rows == []
    ensures m.Some? ==> exists i :: 0 <= i < |rows| && rows[i].queueNumber == m.value
    ensures m.Some? ==> forall i :: 0 <= i < |rows| ==> rows[i].queueNumber <= m.value
  {
    if rows == [] then None
    else match MaxNumber(rows[1..])
      case None => Some(rows[0].queueNumber)
      case Some(rest) =>
        assert forall i :: 1 <= i < |rows| ==> rows[i] == rows[1..][i - 1];
        Some(if rows[0].queueNumber > rest then rows[0].queueNumber else rest)
  }

  /** `(maxNum || 0) + 1`: the number the next ticket gets. */
  function NextNumber(rows: seq<Ticket>): (n: int)
    ensures rows == [] ==> n == 1
    ensures forall i :: 0 <= i < |rows| ==> rows[i].queueNumber < n
    ensures rows != [] ==> exists i :: 0 <= i < |rows| && rows[i].queueNumber == n - 1
  {
    MaxNumber(rows).GetOr(0) + 1
  }

  /** What the database supplies for one inserted row besides the name and
      number the INSERT sets: the AUTO_INCREMENT id and the column defaults
      for `status` and `created_at` (the schema is not part of this model,
      so they are parameters). */
  datatype RowDefaults = RowDefaults(id: nat, status: string, createdAt: int)

  /** The table after one POST with body `{ name }`. */
  function Issued(rows: seq<Ticket>, name: string, defaults: RowDefaults): (r: seq<Ticket>)
    ensures |r| == |rows| + 1 && r[..|rows|] == rows
    ensures r[|rows|].name == name && r[|rows|].id == defaults.id
    ensures r[|rows|].status == defaults.status && r[|rows|].createdAt == defaults.createdAt
    ensures r[|rows|].servedBy.None? && r[|rows|].servedAt.None?
    ensures forall i :: 0 <= i < |rows| ==> rows[i].queueNumber < r[|rows|].queueNumber
    ensures rows == [] ==> r[0].queueNumber == 1
  {
    rows + [Ticket(defaults.id, NextNumber(rows), name, defaults.status, None, None, None, defaults.createdAt)]
  }

  /** Ticket numbers strictly increase in row order. */
  ghost predicate StrictlyIncreasing(rows: seq<Ticket>) {
    forall i, j :: 0 <= i < j < |rows| ==> rows[i].queueNumber < rows[j].queueNumber
  }

  /** No two rows share a ticket number. */
  ghost predicate DistinctNumbers(rows: seq<Ticket>) {
    forall i, j :: 0 <= i < |rows| && 0 <= j < |rows| && i != j ==> rows[i].queueNumber != rows[j].queueNumber
  }

  /** Row `i` holds ticket number `i + 1`. */
  ghost predicate NumberedFromOne(rows: seq<Ticket>) {
    forall i :: 0 <= i < |rows| ==> rows[i].queueNumber == i + 1
  }

  /** Issuing keeps ticket numbers strictly increasing, hence distinct,
      whatever the table held before. */
  lemma IssuedKeepsNumbersIncreasing(rows: seq<Ticket>, name: string, defaults: RowDefaults)
    requires StrictlyIncreasing(rows)
    ensures StrictlyIncreasing(Issued(rows, name, defaults))
    ensures DistinctNumbers(Issued(rows, name, defaults))
  {
    var r := Issued(rows, name, defaults);
    forall i, j | 0 <= i < j < |r| ensures r[i].queueNumber < r[j].queueNumber {
      if j < |rows| {
        assert r[i] == rows[i] && r[j] == rows[j];
      } else {
        assert r[i] == rows[i];
      }
    }
  }

  /** A table numbered 1..n gets number n + 1 next. */
  lemma IssuedExtendsNumbering(rows: seq<Ticket>, name: string, defaults: RowDefaults)
    requires NumberedFromOne(rows)
    ensures NumberedFromOne(Issued(rows, name, defaults))
  {
    var r := Issued(rows, name, defaults);
    if rows != [] {
      var i :| 0 <= i < |rows| && rows[i].queueNumber == NextNumber(rows) - 1;
      assert rows[|rows| - 1].queueNumber < NextNumber(rows);
      assert r[|rows|].queueNumber == |rows| + 1;
    }
    forall i | 0 <= i < |rows| ensures r[i].queueNumber == i + 1 {
      assert r[i] == rows[i];
    }
  }

  /** The table after a sequence of POSTs, one per element of `calls`. */
  function IssuedAll(rows: seq<Ticket>, calls: seq<(string, RowDefaults)>): (r: seq<Ticket>)
    ensures |r| == |rows| + |calls|
    decreases |calls|
  {
    if calls == [] then rows
    else IssuedAll(Issued(rows, calls[0].0, calls[0].1), calls[1..])
  }

  /** Issuing n tickets to an empty table yields the numbers 1..n, in
      order, and the i-th call's name on the i-th row. */
  lemma {:induction false} IssuedAllNumbersOneToN(rows: seq<Ticket>, calls: seq<(string, RowDefaults)>)
    requires NumberedFromOne(rows)
    ensures NumberedFromOne(IssuedAll(rows, calls))
    ensures IssuedAll(rows, calls)[..|rows|] == rows
    ensures forall k :: 0 <= k < |calls| ==> IssuedAll(rows, calls)[|rows| + k].name == calls[k].0
    decreases |calls|
  {
    if calls != [] {
      var next := Issued(rows, calls[0].0, calls[0].1);
      IssuedExtendsNumbering(rows, calls[0].0, calls[0].1);
      IssuedAllNumbersOneToN(next, calls[1..]);
      var r := IssuedAll(rows, calls);
      assert r[..|next|][..|rows|] == r[..|rows|];
      forall k | 0 <= k < |calls| ensures r[|rows| + k].name == calls[k].0 {
        if k == 0 {
          assert r[|rows|] == r[..|next|][|rows|] == next[|rows|];
        } else {
          assert calls[1..][k - 1] == calls[k];
        }
      }
    }
  }

  /** The JSON body of a POST reply. */
  datatype IssueReply = IssueReply(success: bool, queueNumber: int)

  /** The `queue` table; `nextId` is its AUTO_INCREMENT counter, which
      starts at 1. */
  class TicketTable {
    var rows: seq<Ticket>
    var nextId: nat

    /** The table as only ticket issuing has shaped it: numbered 1..n in
        row order, with ids increasing from 1 and below the counter. */
    ghost predicate Valid()
      reads this
    {
      && NumberedFromOne(rows)
      && (forall i, j :: 0 <= i < j < |rows| ==> rows[i].id < rows[j].id)
      && (forall i :: 0 <= i < |rows| ==> 1 <= rows[i].id < nextId)
      && 1 <= nextId
    }

    constructor ()
      ensures Valid() && rows == [] && nextId == 1
    {
      rows := [];
      nextId := 1;
    }

    /** POST /api/queue: read the largest number, insert one row with the
        given name and the next number, reply with that number. */
    method Issue(name: string, status: string, createdAt: int) returns (reply: IssueReply)
      modifies this
      ensures rows == Issued(old(rows), name, RowDefaults(old(nextId), status, createdAt))
      ensures nextId == old(nextId) + 1
      ensures reply.success && reply.queueNumber == rows[|rows| - 1].queueNumber
      ensures old(Valid()) ==> Valid() && reply.queueNumber == |rows|
    {
      var maxNum := MaxNumber(rows);
      var nextNumber := maxNum.GetOr(0) + 1;
      rows := rows + [Ticket(nextId, nextNumber, name, status, None, None, None, createdAt)];
      nextId := nextId + 1;
      reply := IssueReply(true, nextNumber);
      if old(Valid()) {
        IssuedExtendsNumbering(old(rows), name, RowDefaults(old(nextId), status, createdAt));
      }
    }

    /** GET /api/queue: the rows ordered by ascending ticket number. */
    function Listing(): (r: seq<Ticket>)
      reads this
      ensures SortedBy(r, NumberKey)
      ensures multiset(r) == multiset(rows)
    {
      SortBy(rows, NumberKey)
    }

    /** On a table shaped only by issuing, the listing is the table in row
        order. */
    lemma ListingOfValidTable()
      requires Valid()
      ensures Listing() == rows
    {
      SortByStrictlySorted(rows, NumberKey);
    }
  }
}
