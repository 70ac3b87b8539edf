/** Ticket search by customer name (app/api/queue/search/route.ts):
    `WHERE LOWER(name) LIKE LOWER('%' + name + '%') ORDER BY created_at
    DESC`, refused when the name parameter is missing or empty. The search
    reads the table and returns a new list; the table is a value here, so
    the search cannot change it. */
module SearchRoute {

  import opened Wrappers
  import opened Records
  import opened Sorting
  import opened Text

  datatype SearchReply =
    | Found(tickets: seq<Ticket>)
    | SearchFailed(status: nat, error: string)

  const MissingName := "Name parameter is required"

  /** The lower-cased customer name contains `pattern`. */
  predicate MatchesPattern(pattern: string, t: Ticket) {
    Contains(Lower(t.name), pattern)
  }

  /** The customer's name contains the query, ignoring case. */
  predicate NameMatches(query: string, t: Ticket) {
    MatchesPattern(Lower(query), t)
  }

  /** The order of `ORDER BY created_at DESC`, as an ascending key. */
  function NewestFirstKey(t: Ticket): int { -t.createdAt }

  /** `ORDER BY created_at DESC` over the selected rows. */
  function NewestFirst(ts: seq<Ticket>): (r: seq<Ticket>)
    ensures multiset(r) == multiset(ts)
    ensures forall i, j :: 0 <= i < j < |r| ==> r[i].createdAt >= r[j].createdAt
  {
    var r := SortBy(ts, NewestFirstKey);
    assert forall i, j :: 0 <= i < j < |r| ==> NewestFirstKey(r[i]) <= NewestFirstKey(r[j]);
    r
  }

  /** GET /api/queue/search?name=... on the ticket table `rows`. */
  function Search(rows: seq<Ticket>, name: Option<string>): (r: SearchReply)
    ensures r.SearchFailed? <==> !Present(name)
    ensures r.SearchFailed? ==> r == SearchFailed(400, MissingName)
    ensures r.Found? ==> forall i :: 0 <= i < |r.tickets| ==> r.tickets[i] in rows && NameMatches(name.value, r.tickets[i])
    ensures r.Found? ==> forall i :: 0 <= i < |rows| && NameMatches(name.value, rows[i]) ==> rows[i] in r.tickets
    ensures r.Found? ==> forall i, j :: 0 <= i < j < |r.tickets| ==> r.tickets[i].createdAt >= r.tickets[j].createdAt
  {
    if !Present(name) then
      SearchFailed(400, MissingName)
    else
      var pattern := Lower(name.value);
      var matching := Filter(rows, (t: Ticket) => MatchesPattern(pattern, t));
      var sorted := NewestFirst(matching);
      assert forall i :: 0 <= i < |sorted| ==> sorted[i] in multiset(matching);
      assert forall i :: 0 <= i < |rows| && MatchesPattern(pattern, rows[i]) ==> rows[i] in multiset(sorted);
      Found(sorted)
  }

  /** Each table row appears in the reply as often as it occurs in the
      table when its name matches, and not at all otherwise. */
  lemma SearchKeepsMultiplicity(rows: seq<Ticket>, query: string, t: Ticket)
    requires query != ""
    ensures multiset(Search(rows, Some(query)).tickets)[t] ==
              if NameMatches(query, t) then multiset(rows)[t] else 0
  {
    var pattern := Lower(query);
    FilterMultiset(rows, (u: Ticket) => MatchesPattern(pattern, u), t);
  }

  /** A name matches exactly when the lower-cased query occurs somewhere in
      the lower-cased name. */
  lemma NameMatchesIff(query: string, t: Ticket)
    ensures NameMatches(query, t) <==> exists i :: OccursAt(Lower(query), Lower(t.name), i)
  {
    ContainsIff(Lower(t.name), Lower(query));
  }

  /** A query that differs only in letter case finds the same tickets. */
  lemma SearchIgnoresCase(rows: seq<Ticket>, a: string, b: string)
    requires Present(Some(a)) && Lower(a) == Lower(b)
    ensures Search(rows, Some(a)) == Search(rows, Some(b))
  {
  }
}
