# Forms app server routes, modelled in Dafny

A model of the server side of a Google-Forms-style application: the four
route handlers that create and read forms and that register and log in users,
over a relational database modelled as in-memory tables.

- **Tables** (`schema.dfy`, `store.dfy`): `users`, `forms`, `questions` and
  `options` are sequences of rows in insertion order. Each table has an
  auto-increment counter that hands out `insertId`. `Store.Database` is a
  class holding the four tables and the four counters. Its INSERT methods
  append a row and advance a counter. `Rollback` restores the rows taken at
  BEGIN and leaves the counters where they are, as InnoDB does.
- **Faults**: every handler takes `failAt`, the index of the database or
  bcrypt call that throws, counted in the order the handler makes its calls
  (`None`: nothing throws). A request body whose JSON does not parse is a
  `None` body.
- **`POST /api/forms`** (`forms_create.dfy`): the bearer-header check, then
  one transaction. The transaction inserts the form row for placeholder
  owner 1. Then, for each question in input order, it inserts the question
  row with `question_order = order || 0` and one option row per option text
  with `option_order` = its index. Then it commits. Any failure rolls the
  transaction back and answers 500. The nested loops are `while` loops in
  `InsertQuestions` and `InsertOptions`. Each method is proved against the
  functions `QuestionRows` and `OptionRows`, and `Created` states the tables
  after a commit.
- **`GET /api/forms`** (`forms_read.dfy`): the same header check, then
  either the by-id read or the list read.
  - The by-id read fetches the form by id and owner 1, its questions sorted
    by `question_order`, and, for `radio` and `checkbox` questions only,
    their option texts sorted by `option_order`.
  - The list read returns owner 1's forms, newest first.
  - The SQL queries are filters and a stable insertion sort.
- **Round trip** (`create_read.dfy`): what a committed create writes is what
  the by-id read returns.
- **`POST /api/register`** (`register.dfy`): rejects an email already
  present, otherwise appends a user row whose password is the bcrypt hash.
- **`POST /api/login`** (`login.dfy`): looks the email up, compares the
  password with the first matching row's hash, and answers with the same
  401 message for an unknown email and for a wrong password.
- **Helpers**: bcrypt is a concrete stand-in (`bcrypt.dfy`). JavaScript's
  `split` and MySQL's string-to-id coercion are modelled in `text.dfy`, and
  generic filters and sorts in `seqs.dfy`.

What the code does, which a reader may not expect:

- A question posted without `order` is stored with `question_order` 0
  (`question.order || 0`), not with its input position. Posted questions
  are therefore guaranteed to come back in posted order only when their stored orders
  strictly increase (`CreateThenRead.CreatedInPostedOrder`). Otherwise the
  questions come back as the same multiset, sorted by `question_order`.
- `POST /api/forms` does not check the title: an empty title is stored.
- Login answers `{ message: "Login successful" }` and issues no token.
- The by-id read scopes by owner 1, and there is no respondent-facing
  unscoped read in these files.

## Model

| member | source | states |
|---|---|---|
| Http.AuthorizedIff | google-form-clone/app/api/forms/route.ts:8-16 | the header check passes exactly when the header starts with "Bearer " and the next character exists and is not a space; the token is never decoded |
| FormsRead.GetUnauthorized | google-form-clone/app/api/forms/route.ts:8-16 | without a passing header the GET answers 401 "Unauthorized" whatever the tables hold and whatever call would fail |
| FormsRead.GetNotFoundIff | google-form-clone/app/api/forms/route.ts:26-38 | for a non-empty `id`, the answer is 404 "Form not found" exactly when no form row has that id and owner 1 (a non-numeric id matches no row) |
| FormsRead.GetFound | google-form-clone/app/api/forms/route.ts:28-68 | when a form row with that id and owner 1 exists and none of the read's calls fails (connection, two SELECTs, one options SELECT per choice question), the answer is 200 with that row's id, title and description |
| FormsRead.OrderedQuestions | google-form-clone/app/api/forms/route.ts:42-45 | the questions read are a permutation of the form's question rows, non-decreasing in `question_order` |
| FormsRead.OrderedOptions | google-form-clone/app/api/forms/route.ts:53-56 | the options read are a permutation of the question's option rows, non-decreasing in `option_order` |
| FormsRead.GetOneForm | google-form-clone/app/api/forms/route.ts:26-68 | a 200 by-id answer is the first form row with that id and owner 1, with the views of its ordered question rows |
| FormsRead.GetFormShape | google-form-clone/app/api/forms/route.ts:26-68 | a 200 by-id answer comes from a passing header, a numeric id and a stored form row of owner 1; its questions are exactly that form's rows, sorted by order; each has an options list iff it is radio or checkbox, and the list is its option texts in `option_order` |
| FormsRead.GetFormQuestion | google-form-clone/app/api/forms/route.ts:47-64 | each returned question is its row, plus its sorted option texts exactly when it is a choice question |
| FormsRead.ListedForms | google-form-clone/app/api/forms/route.ts:71-74 | the listed rows are a permutation of owner 1's forms, non-increasing in `created_at` |
| FormsRead.ListedCount | google-form-clone/app/api/forms/route.ts:71-76 | the list has one entry per form of owner 1 |
| FormsRead.ListedIncludesOwned | google-form-clone/app/api/forms/route.ts:71-76 | every form of owner 1 is listed |
| FormsRead.ListedOnlyOwned | google-form-clone/app/api/forms/route.ts:71-76 | every listed entry is a form of owner 1 |
| FormsRead.GetListShape | google-form-clone/app/api/forms/route.ts:21-76 | without an `id` (or with an empty one) the GET answers 200 with exactly owner 1's forms, newest first |
| Store.Database.InsertUser | google-form-clone/app/api/register/route.ts:25-28 | appends one user row with the next id and advances only the users counter |
| Store.Database.InsertForm | google-form-clone/app/api/forms/route.ts:115-120 | appends one form row with the next id and advances only the forms counter |
| Store.Database.InsertQuestion | google-form-clone/app/api/forms/route.ts:123-128 | appends one question row with the next id and advances only the questions counter |
| Store.Database.InsertOption | google-form-clone/app/api/forms/route.ts:132-135 | appends one option row with the next id and advances only the options counter |
| Store.Database.Rollback | google-form-clone/app/api/forms/route.ts:146-147 | the rows return to the snapshot and the counters keep the ids the aborted statements used |
| Schema.WellFormedAdvanced | google-form-clone/app/api/forms/route.ts:146-147 | tables that were well formed stay well formed when the counters only grow, so a rollback target is valid |
| FormsCreate.InsertOptions | google-form-clone/app/api/forms/route.ts:130-136 | succeeds iff none of its INSERTs (one per text) fails; on success the options table gains exactly the k-th text with `option_order` k and fresh ids, and nothing else changes |
| FormsCreate.InsertQuestion | google-form-clone/app/api/forms/route.ts:123-137 | succeeds iff none of its INSERTs fails; on success one question row with the given order (0 when absent) and then that question's option rows are appended |
| FormsCreate.InsertQuestions | google-form-clone/app/api/forms/route.ts:122-138 | succeeds iff none of the loop's INSERTs fails; on success the question rows in input order and their option rows, question by question, are appended, and the other tables are unchanged |
| FormsCreate.OptionCountMonotone | google-form-clone/app/api/forms/route.ts:122-138 | later questions only add option rows, so the calls of a prefix come before the calls of the whole loop |
| FormsCreate.AppendStep | google-form-clone/app/api/forms/route.ts:122-138 | appending one question and its options to the rows of the first i questions gives the rows of the first i+1 |
| FormsCreate.CreateForm | google-form-clone/app/api/forms/route.ts:110-152 | commits iff no call fails; on commit the tables are exactly `Created` (one form row, the question rows, the option rows) and the new id is the old form counter; on failure all four tables are as before and the counters have only grown |
| FormsCreate.Post | google-form-clone/app/api/forms/route.ts:90-163 | 401 with no change for a failing header; 500 "Failed to create form" with the tables unchanged for an unparsable body or a failing call; otherwise 201 with the new form id and exactly the created rows added |
| CreateThenRead.CreatedWellFormed | google-form-clone/app/api/forms/route.ts:115-138 | a committed create keeps every id below its counter and every question and option pointing at an issued id |
| CreateThenRead.CreatedFormFound | google-form-clone/app/api/forms/route.ts:28-31 | after a commit, the new id with owner 1 finds exactly the new form row |
| CreateThenRead.CreatedQuestions | google-form-clone/app/api/forms/route.ts:42-45 | after a commit, the new form's question rows are exactly the posted ones in input order |
| CreateThenRead.OptionRowsOfFields | google-form-clone/app/api/forms/route.ts:130-136 | each option row of a question carries its question id, its text, its index as order and consecutive fresh ids |
| CreateThenRead.OptionRowsQuestionIds | google-form-clone/app/api/forms/route.ts:122-138 | the option rows of the first n questions belong to the first n question ids and carry the option ids handed out to them |
| CreateThenRead.OptionsOfLastPosted | google-form-clone/app/api/forms/route.ts:122-138 | among the option rows of the first m+1 questions, those of question m are its own block |
| CreateThenRead.OptionsOfPosted | google-form-clone/app/api/forms/route.ts:122-138 | among all posted option rows, those of the k-th question are exactly its own |
| CreateThenRead.OptionRowsOfReadBack | google-form-clone/app/api/forms/route.ts:53-59 | one question's option rows sorted by `option_order` project back to its posted option texts |
| CreateThenRead.OptionTextsOfOwnRows | google-form-clone/app/api/forms/route.ts:53-59 | a question whose stored option rows are exactly its posted ones reads back its posted texts |
| CreateThenRead.AppendedOptionsOf | google-form-clone/app/api/forms/route.ts:130-136 | rows of earlier questions do not mix into the options read for a posted question |
| CreateThenRead.CreatedOptionTexts | google-form-clone/app/api/forms/route.ts:130-136 | after a commit, the k-th posted question's option texts, read by `option_order`, are its posted list (empty when `options` was absent) |
| CreateThenRead.RowOfPosted | google-form-clone/app/api/forms/route.ts:42-45 | in any permutation of the posted rows, the row with the j-th issued id is the j-th posted row |
| CreateThenRead.CreateThenGet | google-form-clone/app/api/forms/route.ts:26-68 | reading the id a commit returned, with none of the read's calls failing (one options SELECT per posted choice question), answers 200 with the posted title and description |
| CreateThenRead.CreateThenGetQuestions | google-form-clone/app/api/forms/route.ts:42-64 | the questions read back are the posted question rows, as a multiset |
| CreateThenRead.CreateThenGetRow | google-form-clone/app/api/forms/route.ts:42-64 | the question read back with the j-th issued id is the j-th posted question with the given order (0 when absent) |
| CreateThenRead.CreateThenGetOptions | google-form-clone/app/api/forms/route.ts:47-64 | that question carries options iff it is radio or checkbox, and they are its posted option texts in posted order |
| CreateThenRead.CreatedInPostedOrder | google-form-clone/app/api/forms/route.ts:122-126 | when the stored orders strictly increase, the questions read back are exactly the posted ones in posted order |
| Registration.Register | google-form-clone/app/api/register/route.ts:6-41 | the answer is `RegisterResponse` of the users table found; on 201 exactly one row (name, email, hashed password) with the next id is appended; on any other answer the users table is unchanged; the form tables are never touched |
| Registration.EmailTakenIff | google-form-clone/app/api/register/route.ts:11-21 | once the SELECT runs, the answer is 400 "Email already registered" exactly when some row holds the email |
| Registration.RegisterResponses | google-form-clone/app/api/register/route.ts:6-39 | every answer is 201, 400 or 500 with its fixed message; 201 comes exactly when the body parses, the email is new and no call fails; 500 "An error occurred during registration" exactly when the body does not parse, the SELECT throws, or the email is new and the hash or the INSERT throws |
| Registration.StoredPasswordIsHash | google-form-clone/app/api/register/route.ts:23-28 | the appended row stores the hash, which differs from the plaintext and which the plaintext compares equal to |
| Registration.RegisterTwice | google-form-clone/app/api/register/route.ts:11-28 | after a registration, registering the same email again answers 400 |
| Registration.RegisterKeepsEmailsUnique | google-form-clone/app/api/register/route.ts:11-28 | a successful registration keeps emails unique |
| Bcrypt.CompareAcceptsHash | google-form-clone/app/api/login/route.ts:23 | comparing a password with its own hash succeeds |
| Bcrypt.HashIsNotPlaintext | google-form-clone/app/api/register/route.ts:23 | the hash of a password is never the password |
| Login.LoginOutcomes | google-form-clone/app/api/login/route.ts:9-34 | with no failing call, the answer is 401 "Invalid email or password" exactly when no row holds the email or the password does not match the first such row, and 200 "Login successful" otherwise |
| Login.UnknownEmailLikeWrongPassword | google-form-clone/app/api/login/route.ts:15-31 | an unknown email and a known email with a wrong password get the identical answer |
| Login.FirstMatchOnly | google-form-clone/app/api/login/route.ts:9-13 | only the first row holding the email is consulted; rows after it change nothing |
| Login.LoginAnswersMessage | google-form-clone/app/api/login/route.ts:15-38 | every answer is one of the three fixed messages; no token is returned |
| Login.RegisterThenLogin | google-form-clone/app/api/login/route.ts:9-34 | a user who just registered logs in with the same email and password |
| Text.ParseDecimal | google-form-clone/app/api/forms/route.ts:22-31 | the decimal numeral of an id, as a client puts it in `?id=`, selects that id |
| Seqs.InsertByPerm | google-form-clone/app/api/forms/route.ts:43 | inserting a row into the sorted prefix loses no row and adds only that one |
| Seqs.InsertBySorted | google-form-clone/app/api/forms/route.ts:43 | inserting a row into a sorted sequence keeps it sorted |
| Seqs.SortBy | google-form-clone/app/api/forms/route.ts:43 | `ORDER BY` on one column: the result is sorted by the key and is a permutation of the rows |
| Seqs.SortBySorted | google-form-clone/app/api/forms/route.ts:43 | sorting rows whose keys strictly increase leaves them as they are, as any sort must when there are no ties |
| Seqs.FilterCountPerm | google-form-clone/app/api/forms/route.ts:47-56 | reordering rows does not change how many pass a filter, so the number of options SELECTs does not depend on the ORDER BY |
| Text.JoinSplit | google-form-clone/app/api/forms/route.ts:13 | joining the pieces of `split(" ")` with the separator gives the header back |

## Left out

- Request and response plumbing (`NextRequest`, `NextResponse`, JSON), `console.log`/`console.error`, the connection pool and `connection.release()`: I/O. Responses are a status with a small body datatype.
- JSON coercions: missing fields, `undefined` bind values, a `questions` value that is absent or not an array, `options` that is not an array, an `order` that is not an integer. The parsed body is typed, and a body that does not parse is the one error path.
- The `error` field with the exception text in the POST's 500 bodies: the exception is not modelled, only the fixed message.
- A `rollback()` that itself throws: the model's rollback always succeeds.
- MySQL's coercion of the `id` string to a number beyond non-empty decimal numerals (e.g. `"12abc"` matching id 12): any other string selects no row. The questions SELECT binds the raw `id` string; the model uses the same parsed id for both queries.
- Email comparison follows the stored value exactly: MySQL collations (case and trailing-space folding) are not modelled.
- `ORDER BY` ties: SQL leaves their order open. The model uses a stable sort, and every stated property holds for any sort. The properties either speak of a sorted permutation, or, like `SortBySorted`, `CreatedInPostedOrder` and the option read-back, are about keys that strictly increase, where every sort gives the same result.
- A SELECT without ORDER BY, such as the email lookups of registration and login, is modelled as returning rows in table order, so login consults the first matching row in insertion order (`Login.FirstMatchOnly`). SQL does not fix that order, but registration keeps emails unique (`Registration.RegisterKeepsEmailsUnique`), so at most one row matches.
- The selected columns: the by-id read returns whole question rows (with the form id). The listed forms are summaries of id, title, description and `created_at`.
- `Promise.all` (forms/route.ts:47) is a sequential map; concurrency between requests, such as two registrations racing past the email check, is not modelled.
- bcrypt is a concrete stand-in with a lossy digest; its real algorithm, cost behaviour and 72-byte password truncation are not modelled.
- Registration.Register: a failing users INSERT leaves the counter where it was; whether MySQL spends the id then is not modelled.
- FormsCreate.CreateForm: the ids handed out before a rollback are stated only as the counters having grown (`Advanced`), not their exact values.
- The `[id]` and `submit` routes, form update and delete, and every page and component: outside these three route files.
