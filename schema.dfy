/**
 * The database the route handlers use, as in-memory tables: one row
 * datatype per table, each table a sequence of rows in insertion order, and
 * one auto-increment counter per table.
 */
module Schema {
  import opened Wrappers
  import opened Seqs

  /** Every authorized route acts for this user: the bearer token is never decoded. */
  const PlaceholderUserId: nat := 1

  datatype UserRow = UserRow(id: nat, name: string, email: string, password: string)

  /** `createdAt` stands for the `created_at` timestamp the database fills in. */
  datatype FormRow = FormRow(id: nat, userId: nat, title: string, description: string, createdAt: nat)

  datatype QuestionRow = QuestionRow(id: nat, formId: nat, text: string, qtype: string, order: int)

  datatype OptionRow = OptionRow(id: nat, questionId: nat, text: string, order: nat)

  datatype Tables = Tables(
    users: seq<UserRow>,
    forms: seq<FormRow>,
    questions: seq<QuestionRow>,
    options: seq<OptionRow>)

  /** The next value each table's auto-increment `id` column hands out. */
  datatype Counters = Counters(nextUser: nat, nextForm: nat, nextQuestion: nat, nextOption: nat)

  /**
   * Every id is below its table's counter, so a freshly issued id names no
   * existing row; every question points at a form id and every option at a
   * question id that has already been issued.
   */
  predicate WellFormed(t: Tables, c: Counters)
  {
    && (forall i :: 0 <= i < |t.users| ==> t.users[i].id < c.nextUser)
    && (forall i :: 0 <= i < |t.forms| ==> t.forms[i].id < c.nextForm)
    && (forall i :: 0 <= i < |t.questions| ==>
          t.questions[i].id < c.nextQuestion && t.questions[i].formId < c.nextForm)
    && (forall i :: 0 <= i < |t.options| ==>
          t.options[i].id < c.nextOption && t.options[i].questionId < c.nextQuestion)
  }

  /** Counters only move forward. */
  predicate Advanced(c: Counters, c': Counters)
  {
    c'.nextUser >= c.nextUser && c'.nextForm >= c.nextForm
    && c'.nextQuestion >= c.nextQuestion && c'.nextOption >= c.nextOption
  }

  lemma WellFormedAdvanced(t: Tables, c: Counters, c': Counters)
    requires WellFormed(t, c) && Advanced(c, c')
    ensures WellFormed(t, c')
  {
  }

  // The WHERE conditions of the routes' queries, one per query, so that every
  // filter over a table is stated with the same predicate value.

  function WithEmail(email: string): UserRow -> bool
  {
    (u: UserRow) => u.email == email
  }

  function WithIdAndOwner(id: nat, userId: nat): FormRow -> bool
  {
    (f: FormRow) => f.id == id && f.userId == userId
  }

  function OwnedBy(userId: nat): FormRow -> bool
  {
    (f: FormRow) => f.userId == userId
  }

  function OfForm(formId: nat): QuestionRow -> bool
  {
    (q: QuestionRow) => q.formId == formId
  }

  function OfQuestion(questionId: nat): OptionRow -> bool
  {
    (o: OptionRow) => o.questionId == questionId
  }

  /** `SELECT * FROM users WHERE email = ?` */
  function UsersWithEmail(users: seq<UserRow>, email: string): seq<UserRow>
  {
    Filter(users, WithEmail(email))
  }

  /** `SELECT ... FROM forms WHERE id = ? AND user_id = ?` */
  function FormsWithId(forms: seq<FormRow>, id: nat, userId: nat): seq<FormRow>
  {
    Filter(forms, WithIdAndOwner(id, userId))
  }

  /** `SELECT ... FROM forms WHERE user_id = ?` */
  function FormsOwnedBy(forms: seq<FormRow>, userId: nat): seq<FormRow>
  {
    Filter(forms, OwnedBy(userId))
  }

  /** `SELECT ... FROM questions WHERE form_id = ?` */
  function QuestionsOf(questions: seq<QuestionRow>, formId: nat): seq<QuestionRow>
  {
    Filter(questions, OfForm(formId))
  }

  /** `SELECT ... FROM options WHERE question_id = ?` */
  function OptionsOf(options: seq<OptionRow>, questionId: nat): seq<OptionRow>
  {
    Filter(options, OfQuestion(questionId))
  }

  /** A question as the by-id read returns it: its row, plus an option list for choice questions. */
  datatype QuestionView = QuestionView(row: QuestionRow, options: Option<seq<string>>)

  datatype FormDetail = FormDetail(id: nat, title: string, description: string, questions: seq<QuestionView>)

  /** The columns the list read selects: `id, title, description, created_at`. */
  datatype FormSummary = FormSummary(id: nat, title: string, description: string, createdAt: nat)
}
