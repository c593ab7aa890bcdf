/** The contact-form server action: it checks that the required fields are
    present, checks the syntax of the email address, builds the notification
    and hands it to the email sender, and reports one of four fixed outcomes.
    The sender is outside the model; whether its call completes or throws is
    the parameter sendSucceeds. */
module ContactAction {
  import opened Wrappers
  import opened ContactForm
  import opened EmailSyntax
  import opened ContactEmail

  /** The action's result as the form component receives it. */
  datatype ContactFormState = ContactFormState(success: bool, message: string)

  const RequiredFieldsMessage := "Please fill in all required fields."
  const InvalidEmailMessage := "Please enter a valid email address."
  const SentMessage := "Thank you for your message. We'll be in touch soon."
  const SendFailedMessage := "Something went wrong. Please try again or email us directly."

  /** Name, email and message are all present and non-empty. */
  predicate HasRequiredFields(form: FormFields) {
    IsTruthy(form.name) && IsTruthy(form.email) && IsTruthy(form.message)
  }

  /** The result of one submission, together with the notification handed to
      the sender, or None when no send was attempted. */
  datatype Submission = Submission(state: ContactFormState, attempted: Option<OutgoingEmail>)

  /** One run of the action on the submitted form. The previous state is
      accepted for the form component's state threading and not read. */
  function SubmitContactForm(prevState: Option<ContactFormState>, form: FormFields, sendSucceeds: bool): (r: Submission)
    // A missing or empty required field is reported first, whatever the
    // address looks like, and nothing is sent.
    ensures !HasRequiredFields(form) ==>
      r == Submission(ContactFormState(false, RequiredFieldsMessage), None)
    // With the required fields present, a malformed address is reported and
    // nothing is sent.
    ensures HasRequiredFields(form) && !IsValidEmail(form.email.value) ==>
      r == Submission(ContactFormState(false, InvalidEmailMessage), None)
    // A send is attempted exactly when both checks pass, and the message
    // handed over is the one built from the submitted fields.
    ensures r.attempted.Some? <==> HasRequiredFields(form) && IsValidEmail(form.email.value)
    ensures r.attempted.Some? ==>
      r.attempted.value == BuildEmail(form.name.value, form.email.value, form.company, form.message.value)
    // The reported outcome of an attempted send follows the sender.
    ensures r.attempted.Some? ==>
      r.state == (if sendSucceeds
                  then ContactFormState(true, SentMessage)
                  else ContactFormState(false, SendFailedMessage))
    // Success is reported only when the send went through.
    ensures r.state.success <==> r.attempted.Some? && sendSucceeds
    ensures r.state.message in {RequiredFieldsMessage, InvalidEmailMessage, SentMessage, SendFailedMessage}
  {
    if !HasRequiredFields(form) then
      Submission(ContactFormState(false, RequiredFieldsMessage), None)
    else if !IsValidEmail(form.email.value) then
      Submission(ContactFormState(false, InvalidEmailMessage), None)
    else
      var outgoing := BuildEmail(form.name.value, form.email.value, form.company, form.message.value);
      if sendSucceeds then
        Submission(ContactFormState(true, SentMessage), Some(outgoing))
      else
        Submission(ContactFormState(false, SendFailedMessage), Some(outgoing))
  }

  /** The required-field check is a presence test only: any non-empty name,
      email and message pass it, whatever their length and even when they
      are only whitespace. */
  lemma RequiredCheckIsPresenceOnly(name: string, email: string, company: Option<string>, message: string, sendSucceeds: bool)
    ensures HasRequiredFields(FormFields(Some(name), Some(email), company, Some(message)))
      <==> name != "" && email != "" && message != ""
    ensures name != "" && message != "" && IsValidEmail(email) ==>
      SubmitContactForm(None, FormFields(Some(name), Some(email), company, Some(message)), sendSucceeds).attempted.Some?
  {
  }

  /** The outcome does not depend on the previous state, and the message
      handed to the sender does not depend on the sender's outcome. */
  lemma SubmitIgnoresPrevState(p: Option<ContactFormState>, q: Option<ContactFormState>, form: FormFields, sendSucceeds: bool)
    ensures SubmitContactForm(p, form, sendSucceeds) == SubmitContactForm(q, form, sendSucceeds)
    ensures SubmitContactForm(p, form, true).attempted == SubmitContactForm(p, form, false).attempted
  {
  }

  /** A complete submission with the address "john@example.com" and a
      successful send is thanked, whatever the (non-empty) name and message,
      for instance "John Doe" and "This is a test message that is long
      enough". */
  lemma ValidSubmissionIsThanked(name: string, company: Option<string>, message: string)
    requires name != "" && message != ""
    ensures SubmitContactForm(None, FormFields(Some(name), Some("john@example.com"), company, Some(message)), true).state
      == ContactFormState(true, SentMessage)
  {
    ExampleAddressAccepted();
  }

  /** A submission without a name is refused with the required-fields
      message and nothing is sent, whatever the other fields hold. */
  lemma MissingNameIsRefused(email: Option<string>, company: Option<string>, message: Option<string>, sendSucceeds: bool)
    ensures SubmitContactForm(None, FormFields(None, email, company, message), sendSucceeds)
      == Submission(ContactFormState(false, RequiredFieldsMessage), None)
  {
  }

  /** A complete submission with the address "invalid-email" is refused with
      the address message and nothing is sent. */
  lemma InvalidEmailIsRefused(name: string, company: Option<string>, message: string, sendSucceeds: bool)
    requires name != "" && message != ""
    ensures SubmitContactForm(None, FormFields(Some(name), Some("invalid-email"), company, Some(message)), sendSucceeds)
      == Submission(ContactFormState(false, InvalidEmailMessage), None)
  {
    ExampleAddressRejected();
  }
}
