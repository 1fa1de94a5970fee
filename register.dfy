/**
 * `POST /api/register`: look the email up, refuse it when a row already
 * holds it, otherwise hash the password with cost 10 and append the user.
 *
 * Calls, counted for `failAt`: 0 is the SELECT on `users`, 1 `bcrypt.hash`
 * and 2 the INSERT; any of them throwing, or the body failing to parse,
 * answers 500 with the tables untouched.
 */
module Registration {
  import opened Wrappers
  import opened Seqs
  import opened Schema
  import opened Http
  import opened Store
  import opened Bcrypt

  /** The parsed request body `{ name, email, password }`. */
  datatype RegisterInput = RegisterInput(name: string, email: string, password: string)

  function EmailTaken(): Response
  {
    Response(400, Message("Email already registered"))
  }

  function Registered(): Response
  {
    Response(201, Message("User registered successfully"))
  }

  function RegistrationError(): Response
  {
    Response(500, Message("An error occurred during registration"))
  }

  /** The answer of the route, given the `users` table it finds. */
  function RegisterResponse(users: seq<UserRow>, body: Option<RegisterInput>, failAt: Option<nat>): Response
  {
    if body.None? || FailsWithin(failAt, 1) then RegistrationError()
    else if UsersWithEmail(users, body.value.email) != [] then EmailTaken()
    else if FailsWithin(failAt, 3) then RegistrationError()
    else Registered()
  }

  /** The `users` table after a successful registration: one row, with the hashed password, at the end. */
  function WithUser(users: seq<UserRow>, id: nat, input: RegisterInput, salt: Salt): seq<UserRow>
  {
    users + [UserRow(id, input.name, input.email, Hash(input.password, salt))]
  }

  /** No two rows share an email. */
  predicate UniqueEmails(users: seq<UserRow>)
  {
    forall i, j :: 0 <= i < j < |users| ==> users[i].email != users[j].email
  }

  /** The handler. `salt` is the salt `bcrypt.hash` would draw at random. */
  method Register(db: Database, body: Option<RegisterInput>, salt: Salt, failAt: Option<nat>) returns (r: Response)
    requires db.Valid()
    modifies db
    ensures db.Valid()
    ensures r == RegisterResponse(old(db.users), body, failAt)
    ensures r.status == 201 ==>
      db.users == WithUser(old(db.users), old(db.nextUserId), body.value, salt) && db.nextUserId == old(db.nextUserId) + 1
    ensures r.status != 201 ==> db.users == old(db.users) && db.nextUserId == old(db.nextUserId)
    ensures db.forms == old(db.forms) && db.questions == old(db.questions) && db.options == old(db.options)
    ensures db.nextFormId == old(db.nextFormId) && db.nextQuestionId == old(db.nextQuestionId)
      && db.nextOptionId == old(db.nextOptionId)
  {
    if body.None? || failAt == Some(0) {
      return RegistrationError();
    }
    var input := body.value;
    var existingUsers := UsersWithEmail(db.users, input.email);
    if |existingUsers| > 0 {
      return EmailTaken();
    }
    if failAt == Some(1) {
      return RegistrationError();
    }
    var hashedPassword := Hash(input.password, salt);
    if failAt == Some(2) {
      return RegistrationError();
    }
    var _ := db.InsertUser(input.name, input.email, hashedPassword);
    r := Registered();
  }

  /** 400 exactly when the SELECT ran and found a row holding the email. */
  lemma EmailTakenIff(users: seq<UserRow>, input: RegisterInput, failAt: Option<nat>)
    requires !FailsWithin(failAt, 1)
    ensures RegisterResponse(users, Some(input), failAt) == EmailTaken() <==>
      exists i :: 0 <= i < |users| && users[i].email == input.email
  {
    var found := UsersWithEmail(users, input.email);
    FilterMembers(users, WithEmail(input.email));
    if found != [] {
      var i := FilterHead(users, WithEmail(input.email));
    }
  }

  /**
   * Every answer is one of the three; 201 comes exactly without a failure or a taken email, and 500
   * exactly when the body does not parse, the SELECT throws, or the email is new and the hash or INSERT throws.
   */
  lemma RegisterResponses(users: seq<UserRow>, body: Option<RegisterInput>, failAt: Option<nat>)
    ensures var r := RegisterResponse(users, body, failAt);
      r == Registered() || r == EmailTaken() || r == RegistrationError()
    ensures RegisterResponse(users, body, failAt) == Registered() <==>
      body.Some? && !FailsWithin(failAt, 3) && UsersWithEmail(users, body.value.email) == []
    ensures RegisterResponse(users, body, failAt) == RegistrationError() <==>
      body.None? || FailsWithin(failAt, 1) || (UsersWithEmail(users, body.value.email) == [] && FailsWithin(failAt, 3))
  {
  }

  /** The stored password is the hash: it is not the plaintext, and comparing the plaintext with it succeeds. */
  lemma StoredPasswordIsHash(users: seq<UserRow>, id: nat, input: RegisterInput, salt: Salt)
    ensures var stored := WithUser(users, id, input, salt)[|users|];
      && stored == UserRow(id, input.name, input.email, Hash(input.password, salt))
      && stored.password != input.password
      && Compare(input.password, stored.password)
  {
    HashIsNotPlaintext(input.password, salt);
    CompareAcceptsHash(input.password, salt);
  }

  /** After a successful registration, registering the same email again answers 400. */
  lemma RegisterTwice(users: seq<UserRow>, id: nat, input: RegisterInput, salt: Salt, again: RegisterInput,
                      failAt: Option<nat>)
    requires again.email == input.email && !FailsWithin(failAt, 1)
    ensures RegisterResponse(WithUser(users, id, input, salt), Some(again), failAt) == EmailTaken()
  {
    var users' := WithUser(users, id, input, salt);
    FilterMembers(users', WithEmail(input.email));
    assert users'[|users|].email == input.email;
  }

  /** A successful registration keeps emails unique. */
  lemma RegisterKeepsEmailsUnique(users: seq<UserRow>, id: nat, input: RegisterInput, salt: Salt, failAt: Option<nat>)
    requires UniqueEmails(users)
    requires RegisterResponse(users, Some(input), failAt) == Registered()
    ensures UniqueEmails(WithUser(users, id, input, salt))
  {
    FilterMembers(users, WithEmail(input.email));
    var users' := WithUser(users, id, input, salt);
    forall i, j | 0 <= i < j < |users'|
      ensures users'[i].email != users'[j].email
    {
      if j == |users| {
        assert users'[i] == users[i];
        assert users[i] !in UsersWithEmail(users, input.email);
      }
    }
  }
}
