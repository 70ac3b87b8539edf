/** Staff login (app/api/staff/login/route.ts): a read-only lookup of the
    staff table by email, a password check, and a reply that carries the
    staff record without its password. */
module LoginRoute {

  import opened Wrappers
  import opened Records
  import opened Sorting

  /** The JSON body `{ email, password }`; a field may be missing. */
  datatype LoginRequest = LoginRequest(email: Option<string>, password: Option<string>)

  /** A staff record with the password field removed. */
  datatype PublicStaff = PublicStaff(id: nat, name: string, email: string, role: string)

  datatype LoginReply =
    | LoggedIn(message: string, staff: PublicStaff)
    | LoginFailed(status: nat, error: string)

  const MissingFields := "Email and password are required"
  const BadCredentials := "Invalid email or password"

  /** bcrypt.compare(password, stored): `hash` stands for the password
      hash, so a password matches exactly the hash it produces. */
  predicate PasswordMatches(hash: string -> string, password: string, stored: string) {
    hash(password) == stored
  }

  /** `const { password: _, ...rest } = staffData`. */
  function WithoutPassword(s: Staff): (p: PublicStaff)
    ensures p.id == s.id && p.name == s.name && p.email == s.email && p.role == s.role
  {
    PublicStaff(s.id, s.name, s.email, s.role)
  }

  /** The reply does not depend on the stored password: rows that differ
      only in it give the same public record. */
  lemma WithoutPasswordIgnoresPassword(s: Staff, password: string)
    ensures WithoutPassword(s.(password := password)) == WithoutPassword(s)
  {
  }

  /** POST /api/staff/login. `staff[0]` of `SELECT * FROM staff WHERE
      email = ?` is the first row with that email in table order. */
  function Login(rows: seq<Staff>, req: LoginRequest, hash: string -> string): (r: LoginReply)
    ensures !Present(req.email) || !Present(req.password) ==> r == LoginFailed(400, MissingFields)
    ensures r.LoginFailed? && r.status != 400 ==> r == LoginFailed(401, BadCredentials)
    ensures Present(req.email) && Present(req.password) &&
            (forall i :: 0 <= i < |rows| ==> rows[i].email != req.email.value) ==>
              r == LoginFailed(401, BadCredentials)
    ensures r.LoggedIn? <==>
              Present(req.email) && Present(req.password) &&
              exists i :: 0 <= i < |rows| && rows[i].email == req.email.value &&
                          (forall j :: 0 <= j < i ==> rows[j].email != req.email.value) &&
                          PasswordMatches(hash, req.password.value, rows[i].password)
    ensures r.LoggedIn? ==>
              exists i :: 0 <= i < |rows| && rows[i].email == req.email.value &&
                          (forall j :: 0 <= j < i ==> rows[j].email != req.email.value) &&
                          r.staff.id == rows[i].id && r.staff.name == rows[i].name &&
                          r.staff.email == rows[i].email && r.staff.role == rows[i].role
  {
    if !Present(req.email) || !Present(req.password) then
      LoginFailed(400, MissingFields)
    else
      var email := req.email.value;
      var matching := Filter(rows, (s: Staff) => s.email == email);
      if |matching| == 0 then
        LoginFailed(401, BadCredentials)
      else
        var staffData := matching[0];
        FirstOfFilterIsFirstMatch(rows, email);
        if !PasswordMatches(hash, req.password.value, staffData.password) then
          LoginFailed(401, BadCredentials)
        else
          LoggedIn("Login successful", WithoutPassword(staffData))
  }

  /** The first row the email query returns is the first row of the table
      with that email. */
  lemma {:induction false} FirstOfFilterIsFirstMatch(rows: seq<Staff>, email: string)
    ensures var m := Filter(rows, (s: Staff) => s.email == email);
      (|m| == 0 <==> forall i :: 0 <= i < |rows| ==> rows[i].email != email) &&
      (|m| > 0 ==> exists i :: 0 <= i < |rows| && rows[i] == m[0] && rows[i].email == email &&
                               forall j :: 0 <= j < i ==> rows[j].email != email)
  {
    if rows != [] {
      FirstOfFilterIsFirstMatch(rows[1..], email);
      var m := Filter(rows, (s: Staff) => s.email == email);
      if rows[0].email != email && |m| > 0 {
        var i :| 0 <= i < |rows[1..]| && rows[1..][i] == m[0] && rows[1..][i].email == email &&
                 forall j :: 0 <= j < i ==> rows[1..][j].email != email;
        assert rows[i + 1] == m[0];
        assert forall j :: 1 <= j < i + 1 ==> rows[j] == rows[1..][j - 1];
      }
    }
  }

  /** With unique emails, login succeeds exactly when some row has the
      email and a matching password, and replies with that row. */
  lemma LoginWithUniqueEmails(rows: seq<Staff>, req: LoginRequest, hash: string -> string, k: nat)
    requires UniqueEmails(rows)
    requires Present(req.email) && Present(req.password)
    requires k < |rows| && rows[k].email == req.email.value
    ensures Login(rows, req, hash).LoggedIn? <==> PasswordMatches(hash, req.password.value, rows[k].password)
    ensures Login(rows, req, hash).LoggedIn? ==> Login(rows, req, hash).staff == WithoutPassword(rows[k])
  {
    FirstOfFilterIsFirstMatch(rows, req.email.value);
  }
}
