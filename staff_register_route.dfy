/** Staff registration (app/api/staff/register/route.ts): validate the
    body, refuse an email that is already registered, then insert one
    row with the hashed password and the role, `'staff'` by default. */
module RegisterRoute {

  import opened Wrappers
  import opened Records
  import opened Sorting

  /** The JSON body `{ name, email, password, role }`; any field may be
      missing. */
  datatype RegisterRequest = RegisterRequest(
    name: Option<string>, email: Option<string>, password: Option<string>, role: Option<string>)

  datatype RegisterReply =
    | Registered(message: string)
    | RegisterFailed(status: nat, error: string)

  const MissingFields := "Name, email, and password are required"
  const DuplicateEmail := "Staff with this email already exists"
  const DefaultRole := "staff"

  /** `role || 'staff'`. */
  function RoleOrDefault(role: Option<string>): (r: string)
    ensures r != ""
    ensures Present(role) ==> r == role.value
    ensures !Present(role) ==> r == DefaultRole
  {
    if Present(role) then role.value else DefaultRole
  }

  /** Some row of the table has this email. */
  predicate EmailTaken(rows: seq<Staff>, email: string) {
    exists i :: 0 <= i < |rows| && rows[i].email == email
  }

  /** The `staff` table; `nextId` is its AUTO_INCREMENT counter, which
      starts at 1. */
  class StaffTable {
    var rows: seq<Staff>
    var nextId: nat

    /** Every id lies between 1 and the counter. */
    ghost predicate Valid()
      reads this
    {
      && (forall i :: 0 <= i < |rows| ==> 1 <= rows[i].id < nextId)
      && 1 <= nextId
    }

    constructor ()
      ensures Valid() && rows == [] && nextId == 1
    {
      rows := [];
      nextId := 1;
    }

    /** POST /api/staff/register. `hash` stands for bcrypt.hash. */
    method Register(req: RegisterRequest, hash: string -> string) returns (reply: RegisterReply)
      modifies this
      ensures !Present(req.name) || !Present(req.email) || !Present(req.password) ==>
                reply == RegisterFailed(400, MissingFields) && rows == old(rows)
      ensures Present(req.name) && Present(req.email) && Present(req.password) &&
              EmailTaken(old(rows), req.email.value) ==>
                reply == RegisterFailed(409, DuplicateEmail) && rows == old(rows)
      ensures reply.Registered? <==>
                Present(req.name) && Present(req.email) && Present(req.password) &&
                !EmailTaken(old(rows), req.email.value)
      ensures reply.Registered? ==>
                rows == old(rows) + [Staff(old(nextId), req.name.value, req.email.value,
                                           hash(req.password.value), RoleOrDefault(req.role))]
      ensures reply.Registered? ==> nextId == old(nextId) + 1
      ensures reply.RegisterFailed? ==> nextId == old(nextId)
      ensures old(Valid()) ==> Valid()
      ensures UniqueEmails(old(rows)) ==> UniqueEmails(rows)
    {
      if !Present(req.name) || !Present(req.email) || !Present(req.password) {
        return RegisterFailed(400, MissingFields);
      }
      var email := req.email.value;
      var existing := Filter(rows, (s: Staff) => s.email == email);
      if |existing| > 0 {
        assert existing[0] in rows && existing[0].email == email;
        return RegisterFailed(409, DuplicateEmail);
      }
      var hashedPassword := hash(req.password.value);
      rows := rows + [Staff(nextId, req.name.value, email, hashedPassword, RoleOrDefault(req.role))];
      nextId := nextId + 1;
      reply := Registered("Staff registered successfully");
      AppendNewEmailKeepsUnique(old(rows), rows[|rows| - 1]);
    }
  }

  /** Appending a row whose email is not taken keeps emails unique. */
  lemma AppendNewEmailKeepsUnique(rows: seq<Staff>, s: Staff)
    requires !EmailTaken(rows, s.email)
    ensures UniqueEmails(rows) ==> UniqueEmails(rows + [s])
  {
    var r := rows + [s];
    if UniqueEmails(rows) {
      forall i, j | 0 <= i < |r| && 0 <= j < |r| && r[i].email == r[j].email ensures i == j {
        if i < |rows| && j < |rows| {
          assert r[i] == rows[i] && r[j] == rows[j];
        }
      }
    }
  }
}
