/** The notification the contact action hands to the email sender: fixed
    sender and recipient, the visitor's address as reply-to, a subject naming
    the visitor, and an HTML and a plain-text body built from the templates
    of the action. The bodies are rendered character for character,
    indentation included. */
module ContactEmail {
  import opened Wrappers
  import opened Strings
  import opened ContactForm

  const FromAddress := "Coraline Labs Website <noreply@coralinelabs.com>"
  const ToAddress := "info@coralinelabs.com"
  const SubjectPrefix := "New Contact Form Submission from "

  datatype OutgoingEmail = OutgoingEmail(
    from: string,
    to: string,
    replyTo: string,
    subject: string,
    html: string,
    text: string)

  /** message.replace(/\n/g, "<br>"): every line feed becomes "<br>"; no other
      character (a carriage return included) is touched. */
  function NewlinesToBreaks(m: string): (r: string)
    ensures '\n' !in r
    ensures |r| == |m| + 3 * CountOf(m, '\n')
    ensures '\n' !in m ==> r == m
  {
    if m == [] then ""
    else (if m[0] == '\n' then "<br>" else [m[0]]) + NewlinesToBreaks(m[1..])
  }

  lemma {:induction false} NewlinesToBreaksConcat(a: string, b: string)
    ensures NewlinesToBreaks(a + b) == NewlinesToBreaks(a) + NewlinesToBreaks(b)
  {
    if a == [] {
      assert a + b == b;
    } else {
      assert (a + b)[1..] == a[1..] + b;
      NewlinesToBreaksConcat(a[1..], b);
    }
  }

  /** Replacing the line feeds is the same as cutting the message into its
      lines and joining them again with "<br>". */
  lemma {:induction false} NewlinesToBreaksJoins(lines: seq<string>)
    requires forall k | 0 <= k < |lines| :: '\n' !in lines[k]
    ensures NewlinesToBreaks(JoinWith(lines, "\n")) == JoinWith(lines, "<br>")
  {
    if |lines| > 1 {
      var rest := JoinWith(lines[1..], "\n");
      NewlinesToBreaksJoins(lines[1..]);
      NewlinesToBreaksConcat(lines[0] + "\n", rest);
      NewlinesToBreaksConcat(lines[0], "\n");
      assert NewlinesToBreaks("\n") == "<br>";
    }
  }

  function NameHtml(name: string): string {
    "<p><strong>Name:</strong> " + name + "</p>"
  }

  function EmailHtml(email: string): string {
    "<p><strong>Email:</strong> " + email + "</p>"
  }

  /** The company paragraph, or nothing when no company was given. */
  function CompanyHtml(company: Option<string>): (r: string)
    ensures r != "" <==> IsTruthy(company)
  {
    if IsTruthy(company) then "<p><strong>Company:</strong> " + company.value + "</p>" else ""
  }

  function MessageHtml(message: string): (r: string)
    ensures '\n' !in r
  {
    "<p>" + NewlinesToBreaks(message) + "</p>"
  }

  const HtmlHeading := "\n        <h2>New Contact Form Submission</h2>\n        "

  /** The HTML template of the action (its text between the backquotes). */
  function HtmlBody(name: string, email: string, company: Option<string>, message: string): (r: string)
    ensures StartsWith(r, HtmlHeading)
    ensures EndsWith(r, MessageHtml(message) + "\n      ")
  {
    var p1 := HtmlHeading + NameHtml(name);
    var p2 := p1 + "\n        ";
    var p3 := p2 + EmailHtml(email);
    var p4 := p3 + "\n        ";
    var p5 := p4 + CompanyHtml(company);
    var p6 := p5 + "\n        <p><strong>Message:</strong></p>\n        ";
    var r := p6 + MessageHtml(message) + "\n      ";
    assert StartsWith(p1, HtmlHeading) by { assert p1[..|HtmlHeading|] == HtmlHeading; }
    StartsWithAppend(p1, "\n        ", HtmlHeading);
    StartsWithAppend(p2, EmailHtml(email), HtmlHeading);
    StartsWithAppend(p3, "\n        ", HtmlHeading);
    StartsWithAppend(p4, CompanyHtml(company), HtmlHeading);
    StartsWithAppend(p5, "\n        <p><strong>Message:</strong></p>\n        ", HtmlHeading);
    StartsWithAppend(p6, MessageHtml(message), HtmlHeading);
    StartsWithAppend(p6 + MessageHtml(message), "\n      ", HtmlHeading);
    EndsWithAppend(p6, MessageHtml(message), "\n      ");
    r
  }

  function NameLine(name: string): string {
    "Name: " + name + "\n"
  }

  function EmailLine(email: string): string {
    "Email: " + email + "\n"
  }

  /** The company line of the text body, or nothing when no company was given. */
  function CompanyText(company: Option<string>): (r: string)
    ensures r != "" <==> IsTruthy(company)
  {
    if IsTruthy(company) then "Company: " + company.value + "\n" else ""
  }

  function MessageLines(message: string): string {
    "Message:\n" + message + "\n"
  }

  const TextHeading := "\nNew Contact Form Submission\n\n"

  /** The plain-text template of the action (its text between the backquotes). */
  function TextBody(name: string, email: string, company: Option<string>, message: string): (r: string)
    ensures StartsWith(r, TextHeading)
    ensures EndsWith(r, MessageLines(message) + "      ")
  {
    var q1 := TextHeading + NameLine(name);
    var q2 := q1 + EmailLine(email);
    var q3 := q2 + CompanyText(company);
    var q4 := q3 + "\n";
    var r := q4 + MessageLines(message) + "      ";
    assert StartsWith(q1, TextHeading) by { assert q1[..|TextHeading|] == TextHeading; }
    StartsWithAppend(q1, EmailLine(email), TextHeading);
    StartsWithAppend(q2, CompanyText(company), TextHeading);
    StartsWithAppend(q3, "\n", TextHeading);
    StartsWithAppend(q4, MessageLines(message), TextHeading);
    StartsWithAppend(q4 + MessageLines(message), "      ", TextHeading);
    EndsWithAppend(q4, MessageLines(message), "      ");
    r
  }

  /** The notification for a submission that passed validation. */
  function BuildEmail(name: string, email: string, company: Option<string>, message: string): (r: OutgoingEmail)
    ensures r.from == FromAddress && r.to == ToAddress
    ensures r.replyTo == email
    ensures r.subject == SubjectPrefix + name
    ensures r.html == HtmlBody(name, email, company, message)
    ensures r.text == TextBody(name, email, company, message)
  {
    OutgoingEmail(
      FromAddress,
      ToAddress,
      email,
      SubjectPrefix + name,
      HtmlBody(name, email, company, message),
      TextBody(name, email, company, message))
  }

  /** The HTML body shows the name, the email address and the message with
      its line feeds as "<br>", each in its own paragraph. */
  lemma HtmlShowsFields(name: string, email: string, company: Option<string>, message: string)
    ensures Contains(HtmlBody(name, email, company, message), NameHtml(name))
    ensures Contains(HtmlBody(name, email, company, message), EmailHtml(email))
    ensures Contains(HtmlBody(name, email, company, message), "<p>" + NewlinesToBreaks(message) + "</p>")
  {
    var p0 := HtmlHeading;
    var p1 := p0 + NameHtml(name);
    var p2 := p1 + "\n        ";
    var p3 := p2 + EmailHtml(email);
    var p4 := p3 + "\n        ";
    var p5 := p4 + CompanyHtml(company);
    var p6 := p5 + "\n        <p><strong>Message:</strong></p>\n        ";
    var p7 := p6 + MessageHtml(message);
    assert HtmlBody(name, email, company, message) == p7 + "\n      ";
    ContainsSelf(NameHtml(name));
    ContainsRight(p0, NameHtml(name), NameHtml(name));
    ContainsLeft(p1, "\n        ", NameHtml(name));
    ContainsLeft(p2, EmailHtml(email), NameHtml(name));
    ContainsSelf(EmailHtml(email));
    ContainsRight(p2, EmailHtml(email), EmailHtml(email));
    ContainsLeft(p3, "\n        ", NameHtml(name));
    ContainsLeft(p3, "\n        ", EmailHtml(email));
    ContainsLeft(p4, CompanyHtml(company), NameHtml(name));
    ContainsLeft(p4, CompanyHtml(company), EmailHtml(email));
    ContainsLeft(p5, "\n        <p><strong>Message:</strong></p>\n        ", NameHtml(name));
    ContainsLeft(p5, "\n        <p><strong>Message:</strong></p>\n        ", EmailHtml(email));
    ContainsLeft(p6, MessageHtml(message), NameHtml(name));
    ContainsLeft(p6, MessageHtml(message), EmailHtml(email));
    ContainsSelf(MessageHtml(message));
    ContainsRight(p6, MessageHtml(message), MessageHtml(message));
    ContainsLeft(p7, "\n      ", NameHtml(name));
    ContainsLeft(p7, "\n      ", EmailHtml(email));
    ContainsLeft(p7, "\n      ", MessageHtml(message));
  }

  /** The text body shows the name, the email address and the message
      unchanged, each on its own line or lines. */
  lemma TextShowsFields(name: string, email: string, company: Option<string>, message: string)
    ensures Contains(TextBody(name, email, company, message), "Name: " + name + "\n")
    ensures Contains(TextBody(name, email, company, message), "Email: " + email + "\n")
    ensures Contains(TextBody(name, email, company, message), "Message:\n" + message + "\n")
  {
    var q0 := TextHeading;
    var q1 := q0 + NameLine(name);
    var q2 := q1 + EmailLine(email);
    var q3 := q2 + CompanyText(company);
    var q4 := q3 + "\n";
    var q5 := q4 + MessageLines(message);
    assert TextBody(name, email, company, message) == q5 + "      ";
    ContainsSelf(NameLine(name));
    ContainsRight(q0, NameLine(name), NameLine(name));
    ContainsLeft(q1, EmailLine(email), NameLine(name));
    ContainsSelf(EmailLine(email));
    ContainsRight(q1, EmailLine(email), EmailLine(email));
    ContainsLeft(q2, CompanyText(company), NameLine(name));
    ContainsLeft(q2, CompanyText(company), EmailLine(email));
    ContainsLeft(q3, "\n", NameLine(name));
    ContainsLeft(q3, "\n", EmailLine(email));
    ContainsLeft(q4, MessageLines(message), NameLine(name));
    ContainsLeft(q4, MessageLines(message), EmailLine(email));
    ContainsSelf(MessageLines(message));
    ContainsRight(q4, MessageLines(message), MessageLines(message));
    ContainsLeft(q5, "      ", NameLine(name));
    ContainsLeft(q5, "      ", EmailLine(email));
    ContainsLeft(q5, "      ", MessageLines(message));
  }

  /** A given company appears in both bodies: as a paragraph of the HTML body
      and as a line of the text body. */
  lemma BodiesShowCompany(name: string, email: string, company: Option<string>, message: string)
    requires IsTruthy(company)
    ensures Contains(HtmlBody(name, email, company, message), "<p><strong>Company:</strong> " + company.value + "</p>")
    ensures Contains(TextBody(name, email, company, message), "Company: " + company.value + "\n")
  {
    var c := CompanyHtml(company);
    var p4 := HtmlHeading + NameHtml(name) + "\n        " + EmailHtml(email) + "\n        ";
    var p6 := p4 + c + "\n        <p><strong>Message:</strong></p>\n        ";
    var p7 := p6 + MessageHtml(message);
    ContainsSelf(c);
    ContainsRight(p4, c, c);
    ContainsLeft(p4 + c, "\n        <p><strong>Message:</strong></p>\n        ", c);
    ContainsLeft(p6, MessageHtml(message), c);
    ContainsLeft(p7, "\n      ", c);

    var t := CompanyText(company);
    var q2 := TextHeading + NameLine(name) + EmailLine(email);
    var q4 := q2 + t + "\n";
    var q5 := q4 + MessageLines(message);
    ContainsSelf(t);
    ContainsRight(q2, t, t);
    ContainsLeft(q2 + t, "\n", t);
    ContainsLeft(q4, MessageLines(message), t);
    ContainsLeft(q5, "      ", t);
  }

  /** The company line is the only part of either body that depends on the
      company: each body equals the one rendered without a company exactly
      when no company (or the empty string) was given, and otherwise is
      longer by precisely the company paragraph or line. */
  lemma CompanyLineOnlyWhenGiven(name: string, email: string, company: Option<string>, message: string)
    ensures HtmlBody(name, email, company, message) == HtmlBody(name, email, None, message) <==> !IsTruthy(company)
    ensures TextBody(name, email, company, message) == TextBody(name, email, None, message) <==> !IsTruthy(company)
    ensures |HtmlBody(name, email, company, message)| == |HtmlBody(name, email, None, message)| + |CompanyHtml(company)|
    ensures |TextBody(name, email, company, message)| == |TextBody(name, email, None, message)| + |CompanyText(company)|
  {
  }

  /** No line feed of the message survives into the HTML body: the body has
      as many line feeds as it has for an empty message. In the text body
      the message keeps all of its line feeds. */
  lemma MessageNewlines(name: string, email: string, company: Option<string>, message: string)
    ensures CountOf(HtmlBody(name, email, company, message), '\n') == CountOf(HtmlBody(name, email, company, ""), '\n')
    ensures CountOf(TextBody(name, email, company, message), '\n')
      == CountOf(TextBody(name, email, company, ""), '\n') + CountOf(message, '\n')
  {
    var p6 := HtmlHeading + NameHtml(name) + "\n        "
      + EmailHtml(email) + "\n        " + CompanyHtml(company) + "\n        <p><strong>Message:</strong></p>\n        ";
    CountOfConcat(p6 + MessageHtml(message), "\n      ", '\n');
    CountOfConcat(p6, MessageHtml(message), '\n');
    CountOfConcat(p6 + MessageHtml(""), "\n      ", '\n');
    CountOfConcat(p6, MessageHtml(""), '\n');

    var q4 := TextHeading + NameLine(name) + EmailLine(email) + CompanyText(company) + "\n";
    CountOfConcat(q4 + MessageLines(message), "      ", '\n');
    CountOfConcat(q4, MessageLines(message), '\n');
    CountOfConcat(q4 + MessageLines(""), "      ", '\n');
    CountOfConcat(q4, MessageLines(""), '\n');
    CountOfConcat("Message:\n" + message, "\n", '\n');
    CountOfConcat("Message:\n", message, '\n');
    CountOfConcat("Message:\n" + "", "\n", '\n');
    CountOfConcat("Message:\n", "", '\n');
  }
}
