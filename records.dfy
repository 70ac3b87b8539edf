/** The two tables of the database, as records, and the status values
    the pages compare against. The `status` column is free text: nothing
    restricts it to the three values below. */
module Records {

  import opened Wrappers

  const Waiting: string := "waiting"
  const Serving: string := "serving"
  const Done: string := "done"

  /** A row of the `queue` table; times are integers (milliseconds). */
  datatype Ticket = Ticket(
    id: nat,
    queueNumber: int,
    name: string,
    status: string,
    servedBy: Option<nat>,
    servedAt: Option<int>,
    updatedAt: Option<int>,
    createdAt: int)

  /** A row of the `staff` table; `password` holds the stored hash. */
  datatype Staff = Staff(id: nat, name: string, email: string, password: string, role: string)

  /** No two staff rows share an email (the login key). */
  ghost predicate UniqueEmails(rows: seq<Staff>) {
    forall i, j :: 0 <= i < |rows| && 0 <= j < |rows| && rows[i].email == rows[j].email ==> i == j
  }

  predicate IsWaiting(t: Ticket) { t.status == Waiting }
  predicate IsServing(t: Ticket) { t.status == Serving }
  predicate IsDone(t: Ticket) { t.status == Done }

  /** The order of `ORDER BY queue_number ASC` and of
      `sort((a, b) => a.queue_number - b.queue_number)`. */
  function NumberKey(t: Ticket): int { t.queueNumber }

  /** A string field of a request body is truthy: present and not empty. */
  predicate Present(s: Option<string>) { s.Some? && s.value != "" }
}
