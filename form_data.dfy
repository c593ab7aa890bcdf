/** The submitted form as the contact action reads it: four optional text
    fields, and the JavaScript truthiness test the action applies to them. */
module ContactForm {
  import opened Wrappers

  /** The values of the "name", "email", "company" and "message" fields; a
      field that was not submitted is None. */
  datatype FormFields = FormFields(
    name: Option<string>,
    email: Option<string>,
    company: Option<string>,
    message: Option<string>)

  /** A field value is truthy in JavaScript when it is present and not the
      empty string. Nothing is trimmed: "   " is truthy. */
  predicate IsTruthy(v: Option<string>) {
    v.Some? && v.value != ""
  }
}
