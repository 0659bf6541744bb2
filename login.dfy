/** The login page's submit handler. It checks only that both fields are
    filled in: no stored account is consulted and nothing is written. */
module Login {

  import opened JsStrings
  import opened Browser

  const FillInMessage: string := "Por favor, preencha email e senha."

  /** `handleSubmit` on the two form fields. */
  function HandleSubmit(email: string, password: string): (effects: seq<Effect>)
    ensures AllWhitespace(email) || AllWhitespace(password) <==> effects == [SetError(FillInMessage)]
    ensures !AllWhitespace(email) && !AllWhitespace(password) <==> effects == [CallOnLogin, Navigate(HomeRoute)]
    ensures WritesNothing(effects)
  {
    BlankIffAllWhitespace(email);
    BlankIffAllWhitespace(password);
    if IsBlank(email) || IsBlank(password) then [SetError(FillInMessage)]
    else [CallOnLogin, Navigate(HomeRoute)]
  }

  /** Whitespace-only input counts as empty, whatever the other field holds. */
  lemma WhitespaceOnlyRejected(email: string, password: string)
    requires |email| > 0 && forall i :: 0 <= i < |email| ==> email[i] == ' ' || email[i] == '\t'
    ensures HandleSubmit(email, password) == [SetError(FillInMessage)]
    ensures HandleSubmit(password, email) == [SetError(FillInMessage)]
  {
    assert AllWhitespace(email);
  }
}
