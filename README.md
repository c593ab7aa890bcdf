# Contact-form server action of coralinelabs.com

The repository is the marketing site of a small digital agency. Its only
logic is the server action `submitContactForm` in `app/actions/contact.ts`,
which runs when a visitor submits the contact form. It does these steps in order:

1. It reads the `name`, `email`, `company` and `message` fields of the form.
2. It refuses the submission with "Please fill in all required fields." when
   name, email or message is missing or empty.
3. It refuses it with "Please enter a valid email address." when the address
   does not match `^[^\s@]+@[^\s@]+\.[^\s@]+$`.
4. It builds a notification with this content:
   - a fixed sender and recipient;
   - the visitor's address as reply-to;
   - a subject naming the visitor;
   - an HTML body and a plain-text body, each with a company line only when a
     company was given.
5. It hands the notification to the email sender (Resend). It reports the
   thank-you message if that call completes. If the call throws, it reports
   "Something went wrong. Please try again or email us directly.".

The model is pure: datatypes, functions and lemmas, in six modules.

- `Wrappers` (`wrappers.dfy`): `Option`, for a form field that may be absent.
- `Strings` (`strings.dfy`): first index, occurrence count, containment and
  join on strings, with the lemmas the other modules need.
- `EmailSyntax` (`email_syntax.dfy`): `IsValidEmail` is the address check written
  out by hand. `MatchesEmailRegex` is the regular expression's meaning, stated as a
  decomposition `A@B.C`. They are proved equal, and also equal to the
  shape "no whitespace, exactly one `@`, something before it, an inner `.` after
  it". `\s` is ECMAScript's class: its WhiteSpace and LineTerminator code points.
- `ContactForm` (`form_data.dfy`): the four optional fields. It also holds the
  JavaScript truthiness test the action applies to them (present and not `""`,
  never trimmed).
- `ContactEmail` (`contact_email.dfy`): the notification `OutgoingEmail` and its
  bodies, copied character for character from the template literals. This
  includes their indentation and the `\n` → `<br>` replacement in the HTML body.
- `ContactAction` (`contact_action.dfy`): `SubmitContactForm(prevState, form,
  sendSucceeds)`. It returns the state `{success, message}` together with the
  notification handed to the sender, or `None` when no send was attempted.

The repository's tests (`app/actions/__tests__/contact.test.ts`) and its form
component (`components/sections/ContactSection.tsx`) expect more than the
action does:
- a per-field `errors` map;
- length limits;
- phone validation;
- a honeypot field;
- a per-IP rate limiter.

`contact.ts` implements none of these. Its result type `ContactFormState` has only
`success` and `message`. The model follows the code, so it has none of them
either. Only the test assertions that agree with the code are modelled. Two of
the modelled cases also expect an `errors` entry, and those expectations are
not modelled. They are the missing-name case (its `errors.name` assertions) and
the invalid-address case (its `errors.email` assertions). The code returns no
`errors` field, so those assertions do not hold of it.

## Model

| member | source | states |
|---|---|---|
| `EmailSyntax.IsSpace` | app/actions/contact.ts:30 | the `\s` class of the pattern: ECMAScript's WhiteSpace and LineTerminator code points; none of them is `@` or `.` |
| `EmailSyntax.IsValidEmail` | app/actions/contact.ts:30-31 | the address check: split at the first `@`, a non-empty part before it, and after it no whitespace, no second `@` and a `.` with a character on each side. An address that passes has at least five characters and neither starts nor ends with `@` |
| `EmailSyntax.MatchesEmailRegex` | app/actions/contact.ts:30 | the meaning of the pattern: the string is `A@B.C` with A, B and C non-empty runs of `[^\s@]`. Such a string has at least five characters and neither starts nor ends with `@` |
| `EmailSyntax.EmailCheckMatchesRegex` | app/actions/contact.ts:30-31 | the hand-written check accepts an address if and only if `^[^\s@]+@[^\s@]+\.[^\s@]+$` matches it |
| `EmailSyntax.ValidEmailMatchesRegex` | app/actions/contact.ts:30-31 | an address that passes the check splits as non-empty `[^\s@]` runs A, B, C in `A@B.C` |
| `EmailSyntax.RegexMatchesValidEmail` | app/actions/contact.ts:30-31 | every string of the form `A@B.C`, with A, B and C non-empty `[^\s@]` runs, passes the check |
| `EmailSyntax.EmailCheckShape` | app/actions/contact.ts:30-31 | an address passes if and only if it has no whitespace and exactly one `@` with something before it, and after the `@` a `.` with a character on each side |
| `EmailSyntax.ValidEmailShape` | app/actions/contact.ts:30-31 | an address that passes has no whitespace and a single `@` |
| `EmailSyntax.ShapeValidEmail` | app/actions/contact.ts:30-31 | no whitespace, a single `@` with something before it and an inner `.` after it together make the address pass |
| `EmailSyntax.ExampleAddressAccepted` | app/actions/__tests__/contact.test.ts:44-57 | "john@example.com" matches the regular expression and passes the check |
| `EmailSyntax.ExampleAddressRejected` | app/actions/__tests__/contact.test.ts:132-141 | "invalid-email" fails the check |
| `ContactForm.IsTruthy` | app/actions/contact.ts:22 | definition: JavaScript truthiness of a form value of type `string` or `null`, that is present and not the empty string, never trimmed; the property it gives the required check is stated by `ContactAction.RequiredCheckIsPresenceOnly` |
| `ContactEmail.HtmlBody` | app/actions/contact.ts:44-51 | the HTML template rendered character for character: heading, name, email, the company paragraph when given, the message label and the message paragraph. It starts with the heading and ends with the message paragraph |
| `ContactEmail.TextBody` | app/actions/contact.ts:52-60 | the plain-text template rendered character for character: heading, name line, email line, the company line when given, a blank line and the message. It starts with the heading and ends with the message lines |
| `ContactEmail.NewlinesToBreaks` | app/actions/contact.ts:50 | `replace(/\n/g, "<br>")` leaves no line feed and adds 3 characters per line feed; a message with no line feed is returned unchanged |
| `ContactEmail.NewlinesToBreaksConcat` | app/actions/contact.ts:50 | the replacement of a concatenation is the concatenation of the replacements |
| `ContactEmail.NewlinesToBreaksJoins` | app/actions/contact.ts:50 | replacing the line feeds of lines joined by `\n` gives the same lines joined by `<br>` |
| `ContactEmail.MessageHtml` | app/actions/contact.ts:50 | the message paragraph of the HTML body holds no line feed |
| `ContactEmail.CompanyHtml` | app/actions/contact.ts:48 | the company paragraph is non-empty exactly when a non-empty company was given |
| `ContactEmail.CompanyText` | app/actions/contact.ts:57 | the company line is non-empty exactly when a non-empty company was given |
| `ContactEmail.BuildEmail` | app/actions/contact.ts:39-60 | the notification has the fixed sender and recipient, the visitor's address as reply-to, the subject "New Contact Form Submission from " followed by the name, and the two templated bodies |
| `ContactEmail.HtmlShowsFields` | app/actions/contact.ts:44-51 | the HTML body holds the name paragraph, the email paragraph and the message paragraph with line feeds as `<br>` |
| `ContactEmail.TextShowsFields` | app/actions/contact.ts:52-60 | the text body holds the name line, the email line and the message unchanged after "Message:" |
| `ContactEmail.BodiesShowCompany` | app/actions/contact.ts:48-57 | a given non-empty company appears as a paragraph of the HTML body and a line of the text body |
| `ContactEmail.CompanyLineOnlyWhenGiven` | app/actions/contact.ts:44-60 | each body equals the body rendered without a company if and only if no non-empty company was given; otherwise it is longer by exactly the company paragraph or line |
| `ContactEmail.MessageNewlines` | app/actions/contact.ts:44-60 | the message adds no line feed to the HTML body and all of its line feeds to the text body |
| `ContactAction.HasRequiredFields` | app/actions/contact.ts:22 | definition: the negation of the required-field test on name, email and message; its presence-only behaviour is stated by `ContactAction.RequiredCheckIsPresenceOnly`, and its order before the address check and the absence of a send by `ContactAction.SubmitContactForm` |
| `ContactAction.SubmitContactForm` | app/actions/contact.ts:12-74 | a missing required field gives the required-fields result before any address check, and nothing is sent. A malformed address gives the address result, and nothing is sent. A send is attempted exactly when both checks pass, with the built notification. Success is reported if and only if that send completes. The message is always one of the four fixed strings |
| `ContactAction.RequiredCheckIsPresenceOnly` | app/actions/contact.ts:22 | the required check passes for any non-empty name, email and message, whatever their length or whitespace, and lets them reach the sender when the address is valid |
| `ContactAction.SubmitIgnoresPrevState` | app/actions/contact.ts:12-15 | the previous state does not affect the result, and the sender's outcome does not affect the notification handed over |
| `ContactAction.ValidSubmissionIsThanked` | app/actions/__tests__/contact.test.ts:44-57 | name "John Doe", address "john@example.com" and a long message with a successful send give `{true, "Thank you for your message. We'll be in touch soon."}` |
| `ContactAction.MissingNameIsRefused` | app/actions/contact.ts:22-27 | a submission without a name gives `{false, "Please fill in all required fields."}` and sends nothing, whatever the other fields hold. This agrees with the `success` assertion of the test at app/actions/__tests__/contact.test.ts:105-113; the message string comes from the code |
| `ContactAction.InvalidEmailIsRefused` | app/actions/contact.ts:31-36 | the address "invalid-email", with a non-empty name and message, gives `{false, "Please enter a valid email address."}` and sends nothing. This agrees with the `success` assertion of the test at app/actions/__tests__/contact.test.ts:132-141; the message string comes from the code |

## Left out

- The Resend client, the API key from the environment and the `await`
  (contact.ts:3-5, 39) are a foreign network call. Its outcome is the parameter
  `sendSucceeds`, which means "the call returned without throwing". The
  library's own handling of API errors is not part of this model.
- The `console.error` logging of a failed send (contact.ts:68) is output only.
- Form values that are `File` objects rather than strings are not modelled. A
  field is a string or absent.
- JavaScript strings are UTF-16 code units, while a Dafny `char` is a Unicode
  scalar value, so lone surrogates cannot be expressed. No character outside the
  Basic Multilingual Plane is whitespace or `@`, so the check accepts the same
  strings either way.
- The per-field `errors` map, length limits, phone validation, the honeypot
  field and the rate limiter are expected only by the tests and the form
  component. `contact.ts` does not implement them, so the model has none of them.
- The React components, the page layout and `lib/constants.ts` are rendering
  and static content, with no logic.
