/**
 * `POST /api/login`: look the email up, compare the password with the first
 * matching row's hash, and answer with one of three fixed responses. Nothing
 * is written, so the route is a function of the `users` table.
 *
 * Calls, counted for `failAt`: 0 is the SELECT on `users`, 1
 * `bcrypt.compare` (made only when a row was found).
 */
module Login {
  import opened Wrappers
  import opened Seqs
  import opened Schema
  import opened Http
  import opened Bcrypt
  import opened Registration

  /** The parsed request body `{ email, password }`. */
  datatype LoginInput = LoginInput(email: string, password: string)

  /** The one answer for an unknown email and for a wrong password alike. */
  function InvalidCredentials(): Response
  {
    Response(401, Message("Invalid email or password"))
  }

  function LoggedIn(): Response
  {
    Response(200, Message("Login successful"))
  }

  function LoginFailed(): Response
  {
    Response(500, Message("Login failed"))
  }

  function Login(users: seq<UserRow>, body: Option<LoginInput>, failAt: Option<nat>): Response
  {
    if body.None? || FailsWithin(failAt, 1) then LoginFailed()
    else
      var rows := UsersWithEmail(users, body.value.email);
      if rows == [] then InvalidCredentials()
      else if FailsWithin(failAt, 2) then LoginFailed()
      else if !Compare(body.value.password, rows[0].password) then InvalidCredentials()
      else LoggedIn()
  }

  /**
   * With the calls succeeding, the answer is 401 with the one message exactly
   * when no row holds the email or the password does not match the first row
   * that does, and 200 otherwise.
   */
  lemma LoginOutcomes(users: seq<UserRow>, input: LoginInput, failAt: Option<nat>)
    requires !FailsWithin(failAt, 2)
    ensures var r := Login(users, Some(input), failAt);
      var rows := UsersWithEmail(users, input.email);
      && (r.status == 401 <==> rows == [] || !Compare(input.password, rows[0].password))
      && (r.status == 401 ==> r == InvalidCredentials())
      && (r.status != 401 ==> r == LoggedIn())
  {
  }

  /** An unknown email and a known email with a wrong password get the identical answer. */
  lemma UnknownEmailLikeWrongPassword(users: seq<UserRow>, unknown: LoginInput, wrong: LoginInput, failAt: Option<nat>)
    requires !FailsWithin(failAt, 2)
    requires forall i :: 0 <= i < |users| ==> users[i].email != unknown.email
    requires UsersWithEmail(users, wrong.email) != []
    requires !Compare(wrong.password, UsersWithEmail(users, wrong.email)[0].password)
    ensures Login(users, Some(unknown), failAt) == Login(users, Some(wrong), failAt) == InvalidCredentials()
  {
    FilterNone(users, WithEmail(unknown.email));
  }

  /** Only the first row holding the email is consulted: rows after it, whatever they hold, change nothing. */
  lemma FirstMatchOnly(before: seq<UserRow>, row: UserRow, after: seq<UserRow>, input: LoginInput, failAt: Option<nat>)
    requires forall i :: 0 <= i < |before| ==> before[i].email != input.email
    requires row.email == input.email
    ensures Login(before + [row] + after, Some(input), failAt) == Login([row], Some(input), failAt)
  {
    var p := WithEmail(input.email);
    assert before + [row] + after == before + ([row] + after);
    FilterOnlyFirstFails(before, [row] + after, p);
    FilterConcat([row], after, p);
    assert Filter([row], p) == [row];
  }

  /** Every answer is a plain message: no token or session is handed out. */
  lemma LoginAnswersMessage(users: seq<UserRow>, body: Option<LoginInput>, failAt: Option<nat>)
    ensures var r := Login(users, body, failAt);
      r.body.Message? && r in {LoggedIn(), InvalidCredentials(), LoginFailed()}
  {
  }

  /** A user who just registered can log in with the same email and password. */
  lemma RegisterThenLogin(users: seq<UserRow>, id: nat, input: RegisterInput, salt: Salt, registerFailAt: Option<nat>,
                          failAt: Option<nat>)
    requires RegisterResponse(users, Some(input), registerFailAt) == Registered()
    requires !FailsWithin(failAt, 2)
    ensures Login(WithUser(users, id, input, salt), Some(LoginInput(input.email, input.password)), failAt) == LoggedIn()
  {
    var row := UserRow(id, input.name, input.email, Hash(input.password, salt));
    var p := WithEmail(input.email);
    FilterMembers(users, p);
    assert forall i :: 0 <= i < |users| ==> !p(users[i]);
    FilterOnlyFirstFails(users, [row], p);
    assert Filter([row], p) == [row];
    CompareAcceptsHash(input.password, salt);
  }
}
