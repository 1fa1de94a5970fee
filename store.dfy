/**
 * The database connection the handlers talk to: four tables that the
 * INSERT statements append to, the auto-increment counters that hand out
 * `insertId`, and the rollback of a transaction.
 */
module Store {
  import opened Schema

  class Database {
    var users: seq<UserRow>
    var forms: seq<FormRow>
    var questions: seq<QuestionRow>
    var options: seq<OptionRow>
    var nextUserId: nat
    var nextFormId: nat
    var nextQuestionId: nat
    var nextOptionId: nat

    function Snapshot(): Tables
      reads this
    {
      Tables(users, forms, questions, options)
    }

    function Ids(): Counters
      reads this
    {
      Counters(nextUserId, nextFormId, nextQuestionId, nextOptionId)
    }

    ghost predicate Valid()
      reads this
    {
      WellFormed(Snapshot(), Ids())
    }

    /** Empty tables; MySQL's auto-increment starts at 1. */
    constructor ()
      ensures Valid()
      ensures Snapshot() == Tables([], [], [], []) && Ids() == Counters(1, 1, 1, 1)
    {
      users, forms, questions, options := [], [], [], [];
      nextUserId, nextFormId, nextQuestionId, nextOptionId := 1, 1, 1, 1;
    }

    /** `INSERT INTO users (name, email, password) VALUES (?, ?, ?)` */
    method InsertUser(name: string, email: string, password: string) returns (id: nat)
      requires Valid()
      modifies this
      ensures Valid()
      ensures id == old(nextUserId)
      ensures users == old(users) + [UserRow(id, name, email, password)] && nextUserId == id + 1
      ensures forms == old(forms) && questions == old(questions) && options == old(options)
      ensures nextFormId == old(nextFormId) && nextQuestionId == old(nextQuestionId) && nextOptionId == old(nextOptionId)
    {
      id := nextUserId;
      users := users + [UserRow(id, name, email, password)];
      nextUserId := nextUserId + 1;
    }

    /** `INSERT INTO forms (user_id, title, description) VALUES (?, ?, ?)`; `created_at` is `now`. */
    method InsertForm(userId: nat, title: string, description: string, now: nat) returns (id: nat)
      requires Valid()
      modifies this
      ensures Valid()
      ensures id == old(nextFormId)
      ensures forms == old(forms) + [FormRow(id, userId, title, description, now)] && nextFormId == id + 1
      ensures users == old(users) && questions == old(questions) && options == old(options)
      ensures nextUserId == old(nextUserId) && nextQuestionId == old(nextQuestionId) && nextOptionId == old(nextOptionId)
    {
      id := nextFormId;
      forms := forms + [FormRow(id, userId, title, description, now)];
      nextFormId := nextFormId + 1;
    }

    /** `INSERT INTO questions (form_id, question_text, question_type, question_order) VALUES (?, ?, ?, ?)` */
    method InsertQuestion(formId: nat, text: string, qtype: string, order: int) returns (id: nat)
      requires Valid() && formId < nextFormId
      modifies this
      ensures Valid()
      ensures id == old(nextQuestionId)
      ensures questions == old(questions) + [QuestionRow(id, formId, text, qtype, order)] && nextQuestionId == id + 1
      ensures users == old(users) && forms == old(forms) && options == old(options)
      ensures nextUserId == old(nextUserId) && nextFormId == old(nextFormId) && nextOptionId == old(nextOptionId)
    {
      id := nextQuestionId;
      questions := questions + [QuestionRow(id, formId, text, qtype, order)];
      nextQuestionId := nextQuestionId + 1;
    }

    /** `INSERT INTO options (question_id, option_text, option_order) VALUES (?, ?, ?)` */
    method InsertOption(questionId: nat, text: string, order: nat) returns (id: nat)
      requires Valid() && questionId < nextQuestionId
      modifies this
      ensures Valid()
      ensures id == old(nextOptionId)
      ensures options == old(options) + [OptionRow(id, questionId, text, order)] && nextOptionId == id + 1
      ensures users == old(users) && forms == old(forms) && questions == old(questions)
      ensures nextUserId == old(nextUserId) && nextFormId == old(nextFormId) && nextQuestionId == old(nextQuestionId)
    {
      id := nextOptionId;
      options := options + [OptionRow(id, questionId, text, order)];
      nextOptionId := nextOptionId + 1;
    }

    /**
     * ROLLBACK: the rows return to the snapshot taken at BEGIN. The
     * auto-increment counters keep the ids the aborted statements consumed.
     */
    method Rollback(snapshot: Tables)
      requires WellFormed(snapshot, Ids())
      modifies this
      ensures Valid()
      ensures Snapshot() == snapshot && Ids() == old(Ids())
    {
      users, forms, questions, options := snapshot.users, snapshot.forms, snapshot.questions, snapshot.options;
    }
  }
}
