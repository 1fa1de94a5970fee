/** Responses as status and body, and the bearer-header check of the form routes. */
module Http {
  import opened Wrappers
  import opened Text
  import opened Schema

  datatype Body =
    | Message(message: string)
    | FormCreated(message: string, formId: nat)
    | OneForm(form: FormDetail)
    | FormList(forms: seq<FormSummary>)

  datatype Response = Response(status: nat, body: Body)

  const BearerPrefix: string := "Bearer "

  /** `authHeader.split(" ")[1]`: undefined when the header holds no space. */
  function Token(header: string): Option<string>
  {
    var parts := Split(header, ' ');
    if |parts| >= 2 then Some(parts[1]) else None
  }

  /**
   * The header is present and non-empty, starts with "Bearer " and its second
   * space-separated piece is non-empty. The token itself is never checked.
   */
  predicate Authorized(header: Option<string>)
  {
    && header.Some?
    && header.value != ""
    && StartsWith(header.value, BearerPrefix)
    && Token(header.value).Some?
    && Token(header.value).value != ""
  }

  /** A header passes exactly when "Bearer " is followed by a character other than a space. */
  lemma AuthorizedIff(header: Option<string>)
    ensures Authorized(header) <==>
      header.Some? && |header.value| > |BearerPrefix|
      && header.value[..|BearerPrefix|] == BearerPrefix
      && header.value[|BearerPrefix|] != ' '
  {
    if header.Some? && StartsWith(header.value, BearerPrefix) {
      var h := header.value;
      var rest := h[|BearerPrefix|..];
      assert h == "Bearer" + [' '] + rest;
      SplitAfterWord("Bearer", rest, ' ');
      SplitHeadEmpty(rest, ' ');
      assert Token(h) == Some(Split(rest, ' ')[0]);
    }
  }

  function Unauthorized(): Response
  {
    Response(401, Message("Unauthorized"))
  }

  /**
   * Whether the one failing call of a request, if any, is among the first
   * `calls` database or bcrypt calls the handler makes, counted from 0 in
   * the order the handler makes them.
   */
  predicate FailsWithin(failAt: Option<nat>, calls: nat)
  {
    failAt.Some? && failAt.value < calls
  }
}
