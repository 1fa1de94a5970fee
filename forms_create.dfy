/**
 * `POST /api/forms`: the bearer-header check, then one transaction that
 * inserts the form row, then for each question in input order its row and
 * the rows of its options, and commits; any failure rolls the transaction
 * back and answers 500.
 *
 * Calls, counted for `failAt`: 0 is `pool.getConnection`, 1
 * `beginTransaction`, 2 the INSERT into `forms`, then each question's INSERT
 * followed by its options' INSERTs, and last the `commit`.
 */
module FormsCreate {
  import opened Wrappers
  import opened Schema
  import opened Http
  import opened Store

  /**
   * One element of the request's `questions` array: `text` is its `question`
   * field, `qtype` its `type`, and an absent `options` or `order` is `None`.
   */
  datatype QuestionInput = QuestionInput(text: string, qtype: string, options: Option<seq<string>>, order: Option<int>)

  /** The parsed request body `{ title, description, questions }`. */
  datatype FormInput = FormInput(title: string, description: string, questions: seq<QuestionInput>)

  /** `question.order || 0`: an absent order (or 0) is stored as 0, not as the input position. */
  function StoredOrder(q: QuestionInput): int
  {
    if q.order.Some? then q.order.value else 0
  }

  /** The option texts inserted for `q`: none when `question.options` is absent. */
  function OptionList(q: QuestionInput): seq<string>
  {
    if q.options.Some? then q.options.value else []
  }

  /** The question rows the transaction appends, ids handed out from `firstId` in input order. */
  function QuestionRows(formId: nat, qs: seq<QuestionInput>, firstId: nat): (rows: seq<QuestionRow>)
    ensures |rows| == |qs|
  {
    seq(|qs|, i requires 0 <= i < |qs| => QuestionRow(firstId + i, formId, qs[i].text, qs[i].qtype, StoredOrder(qs[i])))
  }

  /** The number of option rows the first `n` questions insert. */
  function OptionCount(qs: seq<QuestionInput>, n: nat): nat
    requires n <= |qs|
  {
    if n == 0 then 0 else OptionCount(qs, n - 1) + |OptionList(qs[n - 1])|
  }

  function TotalOptions(qs: seq<QuestionInput>): nat
  {
    OptionCount(qs, |qs|)
  }

  /** The option rows for `texts`: the k-th text gets `option_order` k and the k-th fresh id. */
  function TextRows(texts: seq<string>, questionId: nat, firstId: nat): (rows: seq<OptionRow>)
    ensures |rows| == |texts|
  {
    seq(|texts|, k requires 0 <= k < |texts| => OptionRow(firstId + k, questionId, texts[k], k))
  }

  /** The option rows of one question. */
  function OptionRowsOf(q: QuestionInput, questionId: nat, firstId: nat): (rows: seq<OptionRow>)
    ensures |rows| == |OptionList(q)|
  {
    TextRows(OptionList(q), questionId, firstId)
  }

  /** The option rows the first `n` questions append, question by question. */
  function OptionRows(qs: seq<QuestionInput>, n: nat, firstQuestionId: nat, firstId: nat): (rows: seq<OptionRow>)
    requires n <= |qs|
    ensures |rows| == OptionCount(qs, n)
  {
    if n == 0 then []
    else
      var m := n - 1;
      OptionRows(qs, m, firstQuestionId, firstId) + OptionRowsOf(qs[m], firstQuestionId + m, firstId + OptionCount(qs, m))
  }

  /** Calls a complete request makes: connection, BEGIN, one INSERT per form, question and option, COMMIT. */
  function Steps(qs: seq<QuestionInput>): nat
  {
    4 + |qs| + TotalOptions(qs)
  }

  /** The tables after a committed create: three tables grow at the end, `users` is untouched. */
  function Created(t: Tables, c: Counters, input: FormInput, now: nat): Tables
  {
    t.(forms := t.forms + [FormRow(c.nextForm, PlaceholderUserId, input.title, input.description, now)],
       questions := t.questions + QuestionRows(c.nextForm, input.questions, c.nextQuestion),
       options := t.options + OptionRows(input.questions, |input.questions|, c.nextQuestion, c.nextOption))
  }

  function CreatedIds(c: Counters, qs: seq<QuestionInput>): Counters
  {
    c.(nextForm := c.nextForm + 1,
       nextQuestion := c.nextQuestion + |qs|,
       nextOption := c.nextOption + TotalOptions(qs))
  }

  function CreateFailed(): Response
  {
    Response(500, Message("Failed to create form"))
  }

  /** Later questions only add option rows. */
  lemma {:induction false} OptionCountMonotone(qs: seq<QuestionInput>, k: nat, n: nat)
    requires k <= n <= |qs|
    ensures OptionCount(qs, k) <= OptionCount(qs, n)
    decreases n
  {
    if k < n {
      OptionCountMonotone(qs, k, n - 1);
    }
  }

  /** Tables grown by the rows of the first `i` questions and then by those of `qs[i]`. */
  lemma AppendStep(questions: seq<QuestionRow>, options: seq<OptionRow>,
                   questionsBefore: seq<QuestionRow>, optionsBefore: seq<OptionRow>,
                   questionsAfter: seq<QuestionRow>, optionsAfter: seq<OptionRow>,
                   formId: nat, qs: seq<QuestionInput>, i: nat, firstQuestionId: nat, firstId: nat)
    requires i < |qs|
    requires questionsBefore == questions + QuestionRows(formId, qs, firstQuestionId)[..i]
    requires optionsBefore == options + OptionRows(qs, i, firstQuestionId, firstId)
    requires questionsAfter
      == questionsBefore + [QuestionRow(firstQuestionId + i, formId, qs[i].text, qs[i].qtype, StoredOrder(qs[i]))]
    requires optionsAfter == optionsBefore + OptionRowsOf(qs[i], firstQuestionId + i, firstId + OptionCount(qs, i))
    ensures questionsAfter == questions + QuestionRows(formId, qs, firstQuestionId)[..i + 1]
    ensures optionsAfter == options + OptionRows(qs, i + 1, firstQuestionId, firstId)
  {
    var all := QuestionRows(formId, qs, firstQuestionId);
    assert all[..i + 1] == all[..i] + [all[i]];
    assert all[i] == QuestionRow(firstQuestionId + i, formId, qs[i].text, qs[i].qtype, StoredOrder(qs[i]));
    assert questionsAfter == questions + (all[..i] + [all[i]]);
    var block := OptionRowsOf(qs[i], firstQuestionId + i, firstId + OptionCount(qs, i));
    assert OptionRows(qs, i + 1, firstQuestionId, firstId) == OptionRows(qs, i, firstQuestionId, firstId) + block;
    assert optionsAfter == options + (OptionRows(qs, i, firstQuestionId, firstId) + block);
  }

  /**
   * The inner loop: one INSERT per option text, `option_order` the index.
   * `step` is the number of calls made before it; on the first failing call
   * it stops and reports failure, leaving the partial rows for the rollback.
   */
  method InsertOptions(db: Database, questionId: nat, texts: seq<string>, failAt: Option<nat>, step: nat)
    returns (ok: bool)
    requires db.Valid() && questionId < db.nextQuestionId
    requires failAt.Some? ==> failAt.value >= step
    modifies db
    ensures db.Valid() && Advanced(old(db.Ids()), db.Ids())
    ensures ok <==> !FailsWithin(failAt, step + |texts|)
    ensures ok ==>
      && db.users == old(db.users) && db.forms == old(db.forms) && db.questions == old(db.questions)
      && db.options == old(db.options) + TextRows(texts, questionId, old(db.nextOptionId))
      && db.nextUserId == old(db.nextUserId) && db.nextFormId == old(db.nextFormId)
      && db.nextQuestionId == old(db.nextQuestionId) && db.nextOptionId == old(db.nextOptionId) + |texts|
  {
    ghost var firstId := db.nextOptionId;
    var j := 0;
    while j < |texts|
      invariant 0 <= j <= |texts|
      invariant db.Valid() && Advanced(old(db.Ids()), db.Ids()) && questionId < db.nextQuestionId
      invariant failAt.Some? ==> failAt.value >= step + j
      invariant db.users == old(db.users) && db.forms == old(db.forms) && db.questions == old(db.questions)
      invariant db.options == old(db.options) + TextRows(texts, questionId, firstId)[..j]
      invariant db.nextUserId == old(db.nextUserId) && db.nextFormId == old(db.nextFormId)
      invariant db.nextQuestionId == old(db.nextQuestionId) && db.nextOptionId == firstId + j
    {
      if failAt == Some(step + j) {
        return false;
      }
      var _ := db.InsertOption(questionId, texts[j], j);
      assert TextRows(texts, questionId, firstId)[..j + 1]
        == TextRows(texts, questionId, firstId)[..j] + [OptionRow(firstId + j, questionId, texts[j], j)];
      j := j + 1;
    }
    assert TextRows(texts, questionId, firstId)[..j] == TextRows(texts, questionId, firstId);
    ok := true;
  }

  /** The body of the outer loop: one question's INSERT, then its options'. */
  method InsertQuestion(db: Database, formId: nat, q: QuestionInput, failAt: Option<nat>, step: nat)
    returns (ok: bool)
    requires db.Valid() && formId < db.nextFormId
    requires failAt.Some? ==> failAt.value >= step
    modifies db
    ensures db.Valid() && Advanced(old(db.Ids()), db.Ids()) && formId < db.nextFormId
    ensures ok <==> !FailsWithin(failAt, step + 1 + |OptionList(q)|)
    ensures ok ==>
      && db.users == old(db.users) && db.forms == old(db.forms)
      && db.questions == old(db.questions) + [QuestionRow(old(db.nextQuestionId), formId, q.text, q.qtype, StoredOrder(q))]
      && db.options == old(db.options) + OptionRowsOf(q, old(db.nextQuestionId), old(db.nextOptionId))
      && db.nextUserId == old(db.nextUserId) && db.nextFormId == old(db.nextFormId)
      && db.nextQuestionId == old(db.nextQuestionId) + 1
      && db.nextOptionId == old(db.nextOptionId) + |OptionList(q)|
  {
    if failAt == Some(step) {
      return false;
    }
    var questionId := db.InsertQuestion(formId, q.text, q.qtype, StoredOrder(q));
    ok := InsertOptions(db, questionId, OptionList(q), failAt, step + 1);
  }

  /** The outer loop: per question in input order, its INSERT and then its options' INSERTs. */
  method InsertQuestions(db: Database, formId: nat, qs: seq<QuestionInput>, failAt: Option<nat>, step: nat)
    returns (ok: bool)
    requires db.Valid() && formId < db.nextFormId
    requires failAt.Some? ==> failAt.value >= step
    modifies db
    ensures db.Valid() && Advanced(old(db.Ids()), db.Ids())
    ensures ok <==> !FailsWithin(failAt, step + |qs| + TotalOptions(qs))
    ensures ok ==>
      && db.users == old(db.users) && db.forms == old(db.forms)
      && db.questions == old(db.questions) + QuestionRows(formId, qs, old(db.nextQuestionId))
      && db.options == old(db.options) + OptionRows(qs, |qs|, old(db.nextQuestionId), old(db.nextOptionId))
      && db.nextUserId == old(db.nextUserId) && db.nextFormId == old(db.nextFormId)
      && db.nextQuestionId == old(db.nextQuestionId) + |qs|
      && db.nextOptionId == old(db.nextOptionId) + TotalOptions(qs)
  {
    ghost var q0, o0 := db.nextQuestionId, db.nextOptionId;
    var i := 0;
    var here := step;
    while i < |qs|
      invariant 0 <= i <= |qs|
      invariant db.Valid() && Advanced(old(db.Ids()), db.Ids()) && formId < db.nextFormId
      invariant here == step + i + OptionCount(qs, i)
      invariant failAt.Some? ==> failAt.value >= here
      invariant db.users == old(db.users) && db.forms == old(db.forms)
      invariant db.questions == old(db.questions) + QuestionRows(formId, qs, q0)[..i]
      invariant db.options == old(db.options) + OptionRows(qs, i, q0, o0)
      invariant db.nextUserId == old(db.nextUserId) && db.nextFormId == old(db.nextFormId)
      invariant db.nextQuestionId == q0 + i && db.nextOptionId == o0 + OptionCount(qs, i)
    {
      OptionCountMonotone(qs, i + 1, |qs|);
      ghost var questionsBefore, optionsBefore := db.questions, db.options;
      ok := InsertQuestion(db, formId, qs[i], failAt, here);
      if !ok {
        return false;
      }
      AppendStep(old(db.questions), old(db.options), questionsBefore, optionsBefore, db.questions, db.options,
        formId, qs, i, q0, o0);
      here := here + 1 + |OptionList(qs[i])|;
      i := i + 1;
    }
    assert QuestionRows(formId, qs, q0)[..i] == QuestionRows(formId, qs, q0);
    ok := true;
  }

  /**
   * The transaction of a parsed request: BEGIN, the form's INSERT, the
   * questions' INSERTs, COMMIT; on any failure a ROLLBACK to the tables as
   * they were, with the ids handed out so far spent.
   */
  method CreateForm(db: Database, input: FormInput, now: nat, failAt: Option<nat>)
    returns (ok: bool, formId: nat)
    requires db.Valid()
    modifies db
    ensures db.Valid()
    ensures ok <==> !FailsWithin(failAt, Steps(input.questions))
    ensures !ok ==> db.Snapshot() == old(db.Snapshot()) && Advanced(old(db.Ids()), db.Ids())
    ensures ok ==>
      && formId == old(db.nextFormId)
      && db.Snapshot() == Created(old(db.Snapshot()), old(db.Ids()), input, now)
      && db.Ids() == CreatedIds(old(db.Ids()), input.questions)
  {
    if failAt == Some(0) || failAt == Some(1) {
      // No connection, or BEGIN failed before anything was written.
      return false, 0;
    }
    var snapshot := db.Snapshot();
    ghost var c0 := db.Ids();
    if failAt == Some(2) {
      db.Rollback(snapshot);
      return false, 0;
    }
    formId := db.InsertForm(PlaceholderUserId, input.title, input.description, now);
    ok := InsertQuestions(db, formId, input.questions, failAt, 3);
    if ok && failAt == Some(3 + |input.questions| + TotalOptions(input.questions)) {
      // COMMIT failed.
      ok := false;
    }
    if !ok {
      WellFormedAdvanced(snapshot, c0, db.Ids());
      db.Rollback(snapshot);
    }
  }

  method Post(db: Database, header: Option<string>, body: Option<FormInput>, now: nat, failAt: Option<nat>)
    returns (r: Response)
    requires db.Valid()
    modifies db
    ensures db.Valid()
    ensures !Authorized(header) ==>
      r == Unauthorized() && db.Snapshot() == old(db.Snapshot()) && db.Ids() == old(db.Ids())
    ensures Authorized(header) && (body.None? || FailsWithin(failAt, Steps(body.value.questions))) ==>
      r == CreateFailed() && db.Snapshot() == old(db.Snapshot()) && Advanced(old(db.Ids()), db.Ids())
    ensures Authorized(header) && body.Some? && !FailsWithin(failAt, Steps(body.value.questions)) ==>
      && r == Response(201, FormCreated("Form created successfully", old(db.nextFormId)))
      && db.Snapshot() == Created(old(db.Snapshot()), old(db.Ids()), body.value, now)
      && db.Ids() == CreatedIds(old(db.Ids()), body.value.questions)
  {
    if !Authorized(header) {
      return Unauthorized();
    }
    if body.None? {
      // `req.json()` threw: the outer catch.
      return CreateFailed();
    }
    var ok, formId := CreateForm(db, body.value, now, failAt);
    if !ok {
      return CreateFailed();
    }
    r := Response(201, FormCreated("Form created successfully", formId));
  }
}
