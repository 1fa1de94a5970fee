/**
 * What a committed `POST /api/forms` leaves for `GET /api/forms?id=`: the
 * by-id read of the new form's id returns the posted title, description and
 * questions, and each choice question's posted option texts in posted order.
 */
module CreateThenRead {
  import opened Wrappers
  import opened Seqs
  import opened Text
  import opened Schema
  import opened Http
  import opened FormsRead
  import opened FormsCreate

  /** Every option row of one question carries that question's id, and the ids issued from `firstId` on. */
  lemma OptionRowsOfFields(q: QuestionInput, questionId: nat, firstId: nat)
    ensures forall i :: 0 <= i < |OptionList(q)| ==>
      OptionRowsOf(q, questionId, firstId)[i] == OptionRow(firstId + i, questionId, OptionList(q)[i], i)
  {
  }

  /** The option rows of the first `n` questions belong to question ids `firstQuestionId .. firstQuestionId + n - 1`. */
  lemma {:induction false} OptionRowsQuestionIds(qs: seq<QuestionInput>, n: nat, firstQuestionId: nat, firstId: nat)
    requires n <= |qs|
    ensures forall i :: 0 <= i < OptionCount(qs, n) ==>
      && firstQuestionId <= OptionRows(qs, n, firstQuestionId, firstId)[i].questionId < firstQuestionId + n
      && firstId <= OptionRows(qs, n, firstQuestionId, firstId)[i].id < firstId + OptionCount(qs, n)
  {
    if n > 0 {
      OptionRowsQuestionIds(qs, n - 1, firstQuestionId, firstId);
      var front := OptionRows(qs, n - 1, firstQuestionId, firstId);
      var last := OptionRowsOf(qs[n - 1], firstQuestionId + n - 1, firstId + OptionCount(qs, n - 1));
      var rows := front + last;
      forall i | 0 <= i < |rows|
        ensures firstQuestionId <= rows[i].questionId < firstQuestionId + n
        ensures firstId <= rows[i].id < firstId + OptionCount(qs, n)
      {
        assert OptionCount(qs, n) == OptionCount(qs, n - 1) + |last|;
        if i < |front| {
          assert rows[i] == front[i];
          assert firstQuestionId <= front[i].questionId < firstQuestionId + n - 1;
          assert firstId <= front[i].id < firstId + OptionCount(qs, n - 1);
        } else {
          var j := i - |front|;
          assert last == TextRows(OptionList(qs[n - 1]), firstQuestionId + n - 1, firstId + OptionCount(qs, n - 1));
          assert rows[i] == last[j];
          assert last[j].id == firstId + OptionCount(qs, n - 1) + j;
          assert last[j].questionId == firstQuestionId + n - 1;
        }
      }
    }
  }

  /** Among the option rows of the first `m + 1` questions, question `m`'s are the last block. */
  lemma OptionsOfLastPosted(qs: seq<QuestionInput>, m: nat, firstQuestionId: nat, firstId: nat)
    requires m < |qs|
    ensures OptionsOf(OptionRows(qs, m + 1, firstQuestionId, firstId), firstQuestionId + m)
      == OptionRowsOf(qs[m], firstQuestionId + m, firstId + OptionCount(qs, m))
  {
    var p := OfQuestion(firstQuestionId + m);
    var front := OptionRows(qs, m, firstQuestionId, firstId);
    var last := OptionRowsOf(qs[m], firstQuestionId + m, firstId + OptionCount(qs, m));
    assert OptionRows(qs, m + 1, firstQuestionId, firstId) == front + last;
    OptionRowsOfFields(qs[m], firstQuestionId + m, firstId + OptionCount(qs, m));
    OptionRowsQuestionIds(qs, m, firstQuestionId, firstId);
    FilterOnlyFirstFails(front, last, p);
    FilterAll(last, p);
    assert Filter(front + last, p) == last;
    assert OptionsOf(front + last, firstQuestionId + m) == last;
  }

  /** The options of the k-th posted question, among all the posted option rows, are exactly its own rows. */
  lemma {:induction false} OptionsOfPosted(qs: seq<QuestionInput>, n: nat, k: nat, firstQuestionId: nat, firstId: nat)
    requires k < n <= |qs|
    ensures OptionsOf(OptionRows(qs, n, firstQuestionId, firstId), firstQuestionId + k)
      == OptionRowsOf(qs[k], firstQuestionId + k, firstId + OptionCount(qs, k))
    decreases n
  {
    if k == n - 1 {
      OptionsOfLastPosted(qs, k, firstQuestionId, firstId);
    } else {
      var m := n - 1;
      var front := OptionRows(qs, m, firstQuestionId, firstId);
      var last := OptionRowsOf(qs[m], firstQuestionId + m, firstId + OptionCount(qs, m));
      assert OptionRows(qs, n, firstQuestionId, firstId) == front + last;
      OptionRowsOfFields(qs[m], firstQuestionId + m, firstId + OptionCount(qs, m));
      OptionsOfPosted(qs, m, k, firstQuestionId, firstId);
      FilterOnlyFirst(front, last, OfQuestion(firstQuestionId + k));
    }
  }

  /** The option rows of one question are already in `option_order`, and project back to its option texts. */
  lemma OptionRowsOfReadBack(q: QuestionInput, questionId: nat, firstId: nat)
    ensures Texts(SortBy(OptionRowsOf(q, questionId, firstId), OptionOrderKey)) == OptionList(q)
  {
    var rows := OptionRowsOf(q, questionId, firstId);
    OptionRowsOfFields(q, questionId, firstId);
    assert StrictlySortedBy(rows, OptionOrderKey);
    SortBySorted(rows, OptionOrderKey);
  }

  /** The texts read back for a question whose option rows are exactly `OptionRowsOf(q, ...)` are `q`'s texts. */
  lemma OptionTextsOfOwnRows(options: seq<OptionRow>, q: QuestionInput, questionId: nat, firstId: nat)
    requires OptionsOf(options, questionId) == OptionRowsOf(q, questionId, firstId)
    ensures OptionTexts(options, questionId) == OptionList(q)
  {
    OptionRowsOfReadBack(q, questionId, firstId);
  }

  /** Appended to rows of earlier questions, the option rows of the k-th posted question are still exactly its own. */
  lemma AppendedOptionsOf(options: seq<OptionRow>, qs: seq<QuestionInput>, k: nat, firstQuestionId: nat, firstId: nat)
    requires k < |qs|
    requires forall i :: 0 <= i < |options| ==> options[i].questionId < firstQuestionId
    ensures OptionsOf(options + OptionRows(qs, |qs|, firstQuestionId, firstId), firstQuestionId + k)
      == OptionRowsOf(qs[k], firstQuestionId + k, firstId + OptionCount(qs, k))
  {
    FilterOnlyFirstFails(options, OptionRows(qs, |qs|, firstQuestionId, firstId), OfQuestion(firstQuestionId + k));
    OptionsOfPosted(qs, |qs|, k, firstQuestionId, firstId);
  }

  /** After a committed create, the k-th posted question reads back with exactly its posted option texts. */
  lemma CreatedOptionTexts(t: Tables, c: Counters, input: FormInput, now: nat, k: nat)
    requires WellFormed(t, c) && k < |input.questions|
    ensures OptionTexts(Created(t, c, input, now).options, c.nextQuestion + k) == OptionList(input.questions[k])
  {
    var qs := input.questions;
    AppendedOptionsOf(t.options, qs, k, c.nextQuestion, c.nextOption);
    OptionTextsOfOwnRows(Created(t, c, input, now).options, qs[k], c.nextQuestion + k,
      c.nextOption + OptionCount(qs, k));
  }

  /** After a committed create, the new form's questions are exactly the posted ones. */
  lemma CreatedQuestions(t: Tables, c: Counters, input: FormInput, now: nat)
    requires WellFormed(t, c)
    ensures QuestionsOf(Created(t, c, input, now).questions, c.nextForm)
      == QuestionRows(c.nextForm, input.questions, c.nextQuestion)
  {
    var posted := QuestionRows(c.nextForm, input.questions, c.nextQuestion);
    var p := OfForm(c.nextForm);
    FilterConcat(t.questions, posted, p);
    FilterNone(t.questions, p);
    FilterAll(posted, p);
  }

  /** After a committed create, the new form's id finds exactly the new form row. */
  lemma CreatedFormFound(t: Tables, c: Counters, input: FormInput, now: nat)
    requires WellFormed(t, c)
    ensures FormsWithId(Created(t, c, input, now).forms, c.nextForm, PlaceholderUserId)
      == [FormRow(c.nextForm, PlaceholderUserId, input.title, input.description, now)]
  {
    var row := FormRow(c.nextForm, PlaceholderUserId, input.title, input.description, now);
    var p := WithIdAndOwner(c.nextForm, PlaceholderUserId);
    FilterConcat(t.forms, [row], p);
    FilterNone(t.forms, p);
    assert Filter([row], p) == [row] by {
      FilterAll([row], p);
    }
  }

  /** A committed create keeps every id below its counter and every reference to an issued id. */
  lemma CreatedWellFormed(t: Tables, c: Counters, input: FormInput, now: nat)
    requires WellFormed(t, c)
    ensures WellFormed(Created(t, c, input, now), CreatedIds(c, input.questions))
  {
    OptionRowsQuestionIds(input.questions, |input.questions|, c.nextQuestion, c.nextOption);
  }

  /** A row among a permutation of the posted question rows is the posted row with its id. */
  lemma RowOfPosted(rows: seq<QuestionRow>, posted: seq<QuestionRow>, k: nat, j: nat, firstQuestionId: nat)
    requires multiset(rows) == multiset(posted)
    requires forall i :: 0 <= i < |posted| ==> posted[i].id == firstQuestionId + i
    requires k < |rows| && j < |posted| && rows[k].id == firstQuestionId + j
    ensures rows[k] == posted[j]
  {
    assert rows[k] in multiset(posted);
    var i :| 0 <= i < |posted| && posted[i] == rows[k];
  }

  /**
   * Reading the id a committed create answered with, with a valid header and
   * no fault among the read's calls, answers 200 with the posted title and
   * description.
   */
  lemma CreateThenGet(header: Option<string>, t: Tables, c: Counters, input: FormInput, now: nat, failAt: Option<nat>)
    requires WellFormed(t, c) && Authorized(header)
    requires !FailsWithin(failAt, 3 + ChoiceCount(QuestionRows(c.nextForm, input.questions, c.nextQuestion)))
    ensures var r := Get(header, Some(Decimal(c.nextForm)), Created(t, c, input, now), failAt);
      && r.status == 200 && r.body.OneForm?
      && r.body.form.id == c.nextForm
      && r.body.form.title == input.title && r.body.form.description == input.description
  {
    ParseDecimal(c.nextForm);
    CreatedFormFound(t, c, input, now);
    CreatedQuestions(t, c, input, now);
    GetFound(header, Decimal(c.nextForm), Created(t, c, input, now), failAt);
  }

  /**
   * The questions read back are the posted ones, as a multiset:
   * `question_order` ties come back in an order SQL leaves open.
   */
  lemma CreateThenGetQuestions(header: Option<string>, t: Tables, c: Counters, input: FormInput, now: nat,
                               failAt: Option<nat>, d: FormDetail)
    requires WellFormed(t, c)
    requires Get(header, Some(Decimal(c.nextForm)), Created(t, c, input, now), failAt) == Response(200, OneForm(d))
    ensures multiset(RowsOf(d.questions)) == multiset(QuestionRows(c.nextForm, input.questions, c.nextQuestion))
  {
    ParseDecimal(c.nextForm);
    CreatedQuestions(t, c, input, now);
    GetFormShape(header, Decimal(c.nextForm), Created(t, c, input, now), failAt, d);
  }

  /** The question read back with the id issued to the j-th posted question is the j-th posted question's row. */
  lemma CreateThenGetRow(header: Option<string>, t: Tables, c: Counters, input: FormInput, now: nat,
                         failAt: Option<nat>, d: FormDetail, k: nat, j: nat)
    requires WellFormed(t, c)
    requires Get(header, Some(Decimal(c.nextForm)), Created(t, c, input, now), failAt) == Response(200, OneForm(d))
    requires k < |d.questions| && j < |input.questions| && d.questions[k].row.id == c.nextQuestion + j
    ensures d.questions[k].row == QuestionRows(c.nextForm, input.questions, c.nextQuestion)[j]
  {
    CreateThenGetQuestions(header, t, c, input, now, failAt, d);
    RowOfPosted(RowsOf(d.questions), QuestionRows(c.nextForm, input.questions, c.nextQuestion), k, j, c.nextQuestion);
  }

  /**
   * That question has an option list exactly when it is a choice question,
   * and the list is its posted option texts in posted order.
   */
  lemma CreateThenGetOptions(header: Option<string>, t: Tables, c: Counters, input: FormInput, now: nat,
                             failAt: Option<nat>, d: FormDetail, k: nat, j: nat)
    requires WellFormed(t, c)
    requires Get(header, Some(Decimal(c.nextForm)), Created(t, c, input, now), failAt) == Response(200, OneForm(d))
    requires k < |d.questions| && j < |input.questions| && d.questions[k].row.id == c.nextQuestion + j
    ensures d.questions[k].options
      == if IsChoice(input.questions[j].qtype) then Some(OptionList(input.questions[j])) else None
  {
    CreateThenGetRow(header, t, c, input, now, failAt, d, k, j);
    var row := d.questions[k].row;
    assert row.qtype == input.questions[j].qtype && row.id == c.nextQuestion + j;
    GetFormQuestion(header, Decimal(c.nextForm), Created(t, c, input, now), failAt, d, k);
    CreatedOptionTexts(t, c, input, now, j);
  }

  /**
   * When the posted orders strictly increase, the read returns the questions
   * in exactly the posted order.
   */
  lemma CreatedInPostedOrder(t: Tables, c: Counters, input: FormInput, now: nat)
    requires WellFormed(t, c)
    requires forall i, j :: 0 <= i < j < |input.questions| ==>
      StoredOrder(input.questions[i]) < StoredOrder(input.questions[j])
    ensures OrderedQuestions(Created(t, c, input, now).questions, c.nextForm)
      == QuestionRows(c.nextForm, input.questions, c.nextQuestion)
  {
    var posted := QuestionRows(c.nextForm, input.questions, c.nextQuestion);
    CreatedQuestions(t, c, input, now);
    assert StrictlySortedBy(posted, QuestionOrderKey);
    SortBySorted(posted, QuestionOrderKey);
  }
}
