/**
 * `GET /api/forms`: the bearer-header check, then either the by-id read
 * (`?id=` present and non-empty), which re-assembles a form from its
 * questions and the options of its choice questions, or the list of the
 * placeholder owner's forms, newest first.
 *
 * Database calls, counted for `failAt`: 0 is `pool.getConnection`, 1 the
 * first SELECT on `forms`, 2 the SELECT on `questions`, then one SELECT on
 * `options` per choice question.
 */
module FormsRead {
  import opened Wrappers
  import opened Seqs
  import opened Text
  import opened Schema
  import opened Http

  /** The two question types whose options are read back: "radio" and "checkbox". */
  predicate IsChoice(qtype: string)
  {
    qtype == "radio" || qtype == "checkbox"
  }

  function QuestionOrderKey(q: QuestionRow): int
  {
    q.order
  }

  function OptionOrderKey(o: OptionRow): int
  {
    o.order
  }

  /** Ascending by this key is descending by `created_at`. */
  function NewestFirstKey(f: FormRow): int
  {
    -(f.createdAt as int)
  }

  /** `SELECT ... FROM questions WHERE form_id = ? ORDER BY question_order` */
  function OrderedQuestions(questions: seq<QuestionRow>, formId: nat): (rows: seq<QuestionRow>)
    ensures forall i, j :: 0 <= i < j < |rows| ==> rows[i].order <= rows[j].order
    ensures multiset(rows) == multiset(QuestionsOf(questions, formId))
  {
    var r := SortBy(QuestionsOf(questions, formId), QuestionOrderKey);
    assert forall i, j :: 0 <= i < j < |r| ==> QuestionOrderKey(r[i]) <= QuestionOrderKey(r[j]);
    r
  }

  /** `SELECT option_text FROM options WHERE question_id = ? ORDER BY option_order`, before the projection. */
  function OrderedOptions(options: seq<OptionRow>, questionId: nat): (rows: seq<OptionRow>)
    ensures forall i, j :: 0 <= i < j < |rows| ==> rows[i].order <= rows[j].order
    ensures multiset(rows) == multiset(OptionsOf(options, questionId))
  {
    var r := SortBy(OptionsOf(options, questionId), OptionOrderKey);
    assert forall i, j :: 0 <= i < j < |r| ==> OptionOrderKey(r[i]) <= OptionOrderKey(r[j]);
    r
  }

  /** `optionRows.map((option) => option.option_text)` */
  function Texts(rows: seq<OptionRow>): (texts: seq<string>)
    ensures |texts| == |rows|
    ensures forall i :: 0 <= i < |rows| ==> texts[i] == rows[i].text
  {
    seq(|rows|, i requires 0 <= i < |rows| => rows[i].text)
  }

  /** The option texts a choice question is returned with. */
  function OptionTexts(options: seq<OptionRow>, questionId: nat): seq<string>
  {
    Texts(OrderedOptions(options, questionId))
  }

  /** A choice question gains its `options` list; any other question comes back as its row alone. */
  function View(q: QuestionRow, options: seq<OptionRow>): QuestionView
  {
    if IsChoice(q.qtype) then QuestionView(q, Some(OptionTexts(options, q.id)))
    else QuestionView(q, None)
  }

  /** The map over the question rows (awaited with `Promise.all`, here sequential). */
  function Views(rows: seq<QuestionRow>, options: seq<OptionRow>): (views: seq<QuestionView>)
    ensures |views| == |rows|
  {
    seq(|rows|, k requires 0 <= k < |rows| => View(rows[k], options))
  }

  /** The rows inside a list of views. */
  function RowsOf(views: seq<QuestionView>): (rows: seq<QuestionRow>)
    ensures |rows| == |views|
  {
    seq(|views|, k requires 0 <= k < |views| => views[k].row)
  }

  predicate IsChoiceRow(q: QuestionRow)
  {
    IsChoice(q.qtype)
  }

  /** How many option SELECTs the by-id read issues. */
  function ChoiceCount(rows: seq<QuestionRow>): nat
  {
    |Filter(rows, IsChoiceRow)|
  }

  /** `SELECT id, title, description, created_at FROM forms WHERE user_id = ? ORDER BY created_at DESC` */
  function ListedForms(forms: seq<FormRow>): (rows: seq<FormRow>)
    ensures forall i, j :: 0 <= i < j < |rows| ==> rows[i].createdAt >= rows[j].createdAt
    ensures multiset(rows) == multiset(FormsOwnedBy(forms, PlaceholderUserId))
  {
    var r := SortBy(FormsOwnedBy(forms, PlaceholderUserId), NewestFirstKey);
    assert forall i, j :: 0 <= i < j < |r| ==> NewestFirstKey(r[i]) <= NewestFirstKey(r[j]);
    r
  }

  function Summary(f: FormRow): FormSummary
  {
    FormSummary(f.id, f.title, f.description, f.createdAt)
  }

  function Summaries(rows: seq<FormRow>): (list: seq<FormSummary>)
    ensures |list| == |rows|
  {
    seq(|rows|, k requires 0 <= k < |rows| => Summary(rows[k]))
  }

  function NotFound(): Response
  {
    Response(404, Message("Form not found"))
  }

  function UnexpectedError(): Response
  {
    Response(500, Message("An unexpected error occurred"))
  }

  /** The whole GET handler. `idParam` is `searchParams.get("id")`; an empty value is falsy and lists. */
  function Get(header: Option<string>, idParam: Option<string>, t: Tables, failAt: Option<nat>): Response
  {
    if !Authorized(header) then Unauthorized()
    else if FailsWithin(failAt, 2) then UnexpectedError()
    else if idParam.Some? && idParam.value != "" then
      match ParseId(idParam.value)
      case None => NotFound()
      case Some(id) =>
        var found := FormsWithId(t.forms, id, PlaceholderUserId);
        if found == [] then NotFound()
        else
          var form := found[0];
          var rows := OrderedQuestions(t.questions, id);
          if FailsWithin(failAt, 3 + ChoiceCount(rows)) then UnexpectedError()
          else Response(200, OneForm(FormDetail(form.id, form.title, form.description, Views(rows, t.options))))
    else
      Response(200, FormList(Summaries(ListedForms(t.forms))))
  }

  /** Without a valid bearer header the answer is 401 whatever the tables hold and whatever would fail. */
  lemma GetUnauthorized(header: Option<string>, idParam: Option<string>)
    requires !Authorized(header)
    ensures forall t': Tables, f': Option<nat> :: Get(header, idParam, t', f') == Response(401, Message("Unauthorized"))
  {
  }

  /** The by-id read answers 404 exactly when no form row has that id and the placeholder owner. */
  lemma GetNotFoundIff(header: Option<string>, p: string, t: Tables, failAt: Option<nat>)
    requires Authorized(header) && p != "" && !FailsWithin(failAt, 2)
    ensures Get(header, Some(p), t, failAt).status == 404 <==>
      (ParseId(p).None? ||
       forall i :: 0 <= i < |t.forms| ==> !(t.forms[i].id == ParseId(p).value && t.forms[i].userId == PlaceholderUserId))
    ensures Get(header, Some(p), t, failAt).status == 404 ==> Get(header, Some(p), t, failAt) == NotFound()
  {
    if ParseId(p).Some? {
      var id := ParseId(p).value;
      var found := FormsWithId(t.forms, id, PlaceholderUserId);
      FilterMembers(t.forms, WithIdAndOwner(id, PlaceholderUserId));
      if found != [] {
        var i := FilterHead(t.forms, WithIdAndOwner(id, PlaceholderUserId));
      }
    }
  }

  /**
   * The by-id read of an id that finds a form answers 200 with that form
   * unless one of its calls fails: the connection, the two SELECTs, and one
   * options SELECT per choice question of the form.
   */
  lemma GetFound(header: Option<string>, p: string, t: Tables, failAt: Option<nat>)
    requires Authorized(header) && p != "" && ParseId(p).Some?
    requires FormsWithId(t.forms, ParseId(p).value, PlaceholderUserId) != []
    requires !FailsWithin(failAt, 3 + ChoiceCount(QuestionsOf(t.questions, ParseId(p).value)))
    ensures var form := FormsWithId(t.forms, ParseId(p).value, PlaceholderUserId)[0];
      var r := Get(header, Some(p), t, failAt);
      && r.status == 200 && r.body.OneForm?
      && r.body.form.id == form.id && r.body.form.title == form.title && r.body.form.description == form.description
  {
    var id := ParseId(p).value;
    var rows := OrderedQuestions(t.questions, id);
    FilterCountPerm(rows, QuestionsOf(t.questions, id), IsChoiceRow);
  }

  /** Where a successful by-id read comes from: the first matching form row and its ordered question views. */
  lemma GetOneForm(header: Option<string>, p: string, t: Tables, failAt: Option<nat>, d: FormDetail)
    requires Get(header, Some(p), t, failAt) == Response(200, OneForm(d))
    ensures Authorized(header) && p != "" && ParseId(p).Some?
    ensures var found := FormsWithId(t.forms, ParseId(p).value, PlaceholderUserId);
      && found != []
      && d == FormDetail(found[0].id, found[0].title, found[0].description,
                         Views(OrderedQuestions(t.questions, ParseId(p).value), t.options))
  {
  }

  /**
   * A successful by-id read returns the first matching form row, and exactly
   * that form's question rows, ordered by `question_order`; a question has an
   * option list iff it is a choice question, and the list is its options'
   * texts ordered by `option_order`.
   */
  lemma GetFormShape(header: Option<string>, p: string, t: Tables, failAt: Option<nat>, d: FormDetail)
    requires Get(header, Some(p), t, failAt) == Response(200, OneForm(d))
    ensures Authorized(header) && p != "" && ParseId(p) == Some(d.id)
    ensures exists i :: 0 <= i < |t.forms| && t.forms[i] == FormRow(d.id, PlaceholderUserId, d.title, d.description, t.forms[i].createdAt)
    ensures multiset(RowsOf(d.questions)) == multiset(QuestionsOf(t.questions, d.id))
    ensures forall k, l :: 0 <= k < l < |d.questions| ==> d.questions[k].row.order <= d.questions[l].row.order
    ensures forall k :: 0 <= k < |d.questions| ==> (d.questions[k].options.Some? <==> IsChoice(d.questions[k].row.qtype))
    ensures forall k :: 0 <= k < |d.questions| && d.questions[k].options.Some? ==>
      d.questions[k].options.value == OptionTexts(t.options, d.questions[k].row.id)
  {
    GetOneForm(header, p, t, failAt, d);
    var id := ParseId(p).value;
    var i := FilterHead(t.forms, WithIdAndOwner(id, PlaceholderUserId));
    var rows := OrderedQuestions(t.questions, id);
    assert RowsOf(d.questions) == rows;
    forall k | 0 <= k < |d.questions|
      ensures d.questions[k] == View(rows[k], t.options)
    {
    }
  }

  /** One question of a successful by-id read: its options are its option rows' texts iff it is a choice question. */
  lemma GetFormQuestion(header: Option<string>, p: string, t: Tables, failAt: Option<nat>, d: FormDetail, k: nat)
    requires Get(header, Some(p), t, failAt) == Response(200, OneForm(d))
    requires k < |d.questions|
    ensures d.questions[k].options
      == if IsChoice(d.questions[k].row.qtype) then Some(OptionTexts(t.options, d.questions[k].row.id)) else None
  {
    GetOneForm(header, p, t, failAt, d);
    var rows := OrderedQuestions(t.questions, ParseId(p).value);
    assert d.questions[k] == View(rows[k], t.options);
  }

  /** One summary per owned form. */
  lemma ListedCount(forms: seq<FormRow>)
    ensures |Summaries(ListedForms(forms))| == |FormsOwnedBy(forms, PlaceholderUserId)|
  {
    assert |multiset(ListedForms(forms))| == |multiset(FormsOwnedBy(forms, PlaceholderUserId))|;
  }

  /** Every form of the placeholder owner is listed. */
  lemma ListedIncludesOwned(forms: seq<FormRow>, i: nat)
    requires i < |forms| && forms[i].userId == PlaceholderUserId
    ensures Summary(forms[i]) in Summaries(ListedForms(forms))
  {
    var rows := ListedForms(forms);
    FilterMembers(forms, OwnedBy(PlaceholderUserId));
    assert forms[i] in FormsOwnedBy(forms, PlaceholderUserId);
    assert forms[i] in multiset(rows);
    var k :| 0 <= k < |rows| && rows[k] == forms[i];
    assert Summaries(rows)[k] == Summary(forms[i]);
  }

  /** Only forms of the placeholder owner are listed. */
  lemma ListedOnlyOwned(forms: seq<FormRow>, k: nat)
    requires k < |Summaries(ListedForms(forms))|
    ensures exists i :: (0 <= i < |forms| && forms[i].userId == PlaceholderUserId
      && Summaries(ListedForms(forms))[k] == Summary(forms[i]))
  {
    var rows := ListedForms(forms);
    FilterMembers(forms, OwnedBy(PlaceholderUserId));
    assert rows[k] in multiset(FormsOwnedBy(forms, PlaceholderUserId));
    assert rows[k] in FormsOwnedBy(forms, PlaceholderUserId);
    var i :| 0 <= i < |forms| && forms[i] == rows[k];
    assert Summaries(rows)[k] == Summary(forms[i]);
  }

  /** The list read returns a summary of every form of the placeholder owner and nothing else, newest first. */
  lemma GetListShape(header: Option<string>, idParam: Option<string>, t: Tables, failAt: Option<nat>)
    requires Authorized(header) && !FailsWithin(failAt, 2)
    requires idParam.None? || idParam.value == ""
    ensures Get(header, idParam, t, failAt) == Response(200, FormList(Summaries(ListedForms(t.forms))))
    ensures var list := Summaries(ListedForms(t.forms));
      && |list| == |FormsOwnedBy(t.forms, PlaceholderUserId)|
      && (forall k, l :: 0 <= k < l < |list| ==> list[k].createdAt >= list[l].createdAt)
      && (forall i :: 0 <= i < |t.forms| && t.forms[i].userId == PlaceholderUserId ==> Summary(t.forms[i]) in list)
      && (forall k :: 0 <= k < |list| ==>
            exists i :: 0 <= i < |t.forms| && t.forms[i].userId == PlaceholderUserId && list[k] == Summary(t.forms[i]))
  {
    var list := Summaries(ListedForms(t.forms));
    ListedCount(t.forms);
    forall i | 0 <= i < |t.forms| && t.forms[i].userId == PlaceholderUserId
      ensures Summary(t.forms[i]) in list
    {
      ListedIncludesOwned(t.forms, i);
    }
    forall k | 0 <= k < |list|
      ensures exists i :: 0 <= i < |t.forms| && t.forms[i].userId == PlaceholderUserId && list[k] == Summary(t.forms[i])
    {
      ListedOnlyOwned(t.forms, k);
    }
  }
}
