/**
 * The contact-form endpoint `api/send-email.js`, as a pure function from the request
 * and the outcome of the mail transport to the response and the mail handed to it.
 */
module SendEmail {
  import opened Wrappers

  /** The request: its HTTP method and the four body fields, absent when not sent. */
  datatype Request = Request(
    httpMethod: string,
    name: Option<string>,
    email: Option<string>,
    subject: Option<string>,
    message: Option<string>)

  /** The JSON body: `success` with either `error` or `message`. */
  datatype Json = Json(success: bool, error: Option<string>, message: Option<string>)

  datatype Response = Response(status: nat, headers: seq<(string, string)>, body: Option<Json>)

  /** The HTML body's four values; the surrounding template and styling are not modelled. */
  datatype Html = Html(name: string, email: string, subject: string, message: string)

  datatype Mail = Mail(from: string, to: string, replyTo: string, subject: string, html: Html, text: string)

  /** What the handler does: the response, and the mail it handed to the transport, if any. */
  datatype Outcome = Outcome(response: Response, attempted: Option<Mail>)

  /** The CORS headers, set before any branch. */
  const CorsHeaders: seq<(string, string)> := [
    ("Access-Control-Allow-Origin", "*"),
    ("Access-Control-Allow-Methods", "POST, OPTIONS"),
    ("Access-Control-Allow-Headers", "Content-Type")]

  const Recipient: string := "mrbeerlol@gmail.com"
  const SubjectPrefix: string := "[Contato Site] "
  const MethodNotAllowed: string := "Method not allowed"
  const FieldsRequired: string := "Todos os campos são obrigatórios"
  const InvalidEmail: string := "Email inválido"
  const SendFailed: string := "Erro ao enviar email. Por favor, tente novamente."
  const SendSucceeded: string := "Email enviado com sucesso!"

  /** A field is truthy when it was sent and is not the empty string. */
  predicate Present(f: Option<string>)
  {
    f.Some? && f.value != ""
  }

  predicate AllPresent(req: Request)
  {
    Present(req.name) && Present(req.email) && Present(req.subject) && Present(req.message)
  }

  /** The characters of the JavaScript `\s` class. */
  predicate IsSpace(c: char)
  {
    || c == ' ' || c == '\t' || c == '\n' || c == '\r' || c == '\U{000B}' || c == '\U{000C}'
    || c == '\U{00A0}' || c == '\U{1680}' || ('\U{2000}' <= c <= '\U{200A}')
    || c == '\U{2028}' || c == '\U{2029}' || c == '\U{202F}' || c == '\U{205F}'
    || c == '\U{3000}' || c == '\U{FEFF}'
  }

  /** `[^\s@]` */
  predicate Plain(c: char)
  {
    !IsSpace(c) && c != '@'
  }

  /** `[^\s@]*` over a whole part. */
  predicate AllPlain(s: string)
  {
    forall k :: 0 <= k < |s| ==> Plain(s[k])
  }

  /**
   * `/^[^\s@]+@[^\s@]+\.[^\s@]+$/.test(s)`: the string splits as `local@domain.tld`
   * with every part non-empty and free of whitespace and '@'.
   */
  predicate EmailRegexTest(s: string)
  {
    exists i, j :: 0 < i && i + 1 < j && j + 1 < |s|
      && s[i] == '@' && s[j] == '.'
      && AllPlain(s[..i]) && AllPlain(s[i + 1..j]) && AllPlain(s[j + 1..])
  }

  /** The shape of an accepted address, stated without the split. */
  predicate WellShapedEmail(s: string)
  {
    && (forall m :: 0 <= m < |s| ==> !IsSpace(s[m]))
    && (exists k :: 0 < k < |s| && s[k] == '@'
         && (forall m :: 0 <= m < |s| && s[m] == '@' ==> m == k)
         && (exists j :: k + 1 < j < |s| - 1 && s[j] == '.'))
  }

  lemma AllPlainAt(s: string, lo: int, hi: int, m: int)
    requires 0 <= lo <= m < hi <= |s| && AllPlain(s[lo..hi])
    ensures Plain(s[m])
  {
    assert s[lo..hi][m - lo] == s[m];
  }

  /**
   * The regex accepts exactly the strings without whitespace that have one '@', not
   * first, followed by a domain with a '.' that is neither its first nor its last character.
   */
  lemma EmailRegexIff(s: string)
    ensures EmailRegexTest(s) <==> WellShapedEmail(s)
  {
    if EmailRegexTest(s) {
      var i, j :| 0 < i && i + 1 < j && j + 1 < |s|
        && s[i] == '@' && s[j] == '.'
        && AllPlain(s[..i]) && AllPlain(s[i + 1..j]) && AllPlain(s[j + 1..]);
      SplitIsWellShaped(s, i, j);
    }
    if WellShapedEmail(s) {
      WellShapedSplits(s);
    }
  }

  /** A split the regex accepts has the shape. */
  lemma SplitIsWellShaped(s: string, i: nat, j: nat)
    requires 0 < i && i + 1 < j && j + 1 < |s| && s[i] == '@' && s[j] == '.'
    requires AllPlain(s[..i]) && AllPlain(s[i + 1..j]) && AllPlain(s[j + 1..])
    ensures WellShapedEmail(s)
  {
    assert s[..i] == s[0..i] && s[j + 1..] == s[j + 1..|s|];
    forall m | 0 <= m < |s| && m != i && m != j ensures Plain(s[m]) {
      if m < i {
        AllPlainAt(s, 0, i, m);
      } else if m < j {
        AllPlainAt(s, i + 1, j, m);
      } else {
        AllPlainAt(s, j + 1, |s|, m);
      }
    }
    assert forall m :: 0 <= m < |s| && s[m] == '@' ==> m == i;
    assert forall m :: 0 <= m < |s| ==> !IsSpace(s[m]);
  }

  /** A string of that shape has a split the regex accepts. */
  lemma WellShapedSplits(s: string)
    requires WellShapedEmail(s)
    ensures EmailRegexTest(s)
  {
    var k :| 0 < k < |s| && s[k] == '@'
      && (forall m :: 0 <= m < |s| && s[m] == '@' ==> m == k)
      && (exists j :: k + 1 < j < |s| - 1 && s[j] == '.');
    var j :| k + 1 < j < |s| - 1 && s[j] == '.';
    assert AllPlain(s[..k]);
    assert AllPlain(s[k + 1..j]);
    assert AllPlain(s[j + 1..]);
  }

  /** `message.replace(/\n/g, '<br>')` */
  function ReplaceNewlines(s: string): (r: string)
    ensures '\n' !in r
  {
    if s == [] then []
    else (if s[0] == '\n' then "<br>" else [s[0]]) + ReplaceNewlines(s[1..])
  }

  /** The replacement works piecewise. */
  lemma {:induction false} ReplaceNewlinesAppend(a: string, b: string)
    ensures ReplaceNewlines(a + b) == ReplaceNewlines(a) + ReplaceNewlines(b)
  {
    if a != [] {
      assert (a + b)[0] == a[0] && (a + b)[1..] == a[1..] + b;
      ReplaceNewlinesAppend(a[1..], b);
      var h := if a[0] == '\n' then "<br>" else [a[0]];
      calc {
        ReplaceNewlines(a + b);
        h + ReplaceNewlines(a[1..] + b);
        h + (ReplaceNewlines(a[1..]) + ReplaceNewlines(b));
        (h + ReplaceNewlines(a[1..])) + ReplaceNewlines(b);
      }
    } else {
      assert a + b == b;
    }
  }

  /** Text without newlines passes unchanged, and each newline grows the text by three characters. */
  lemma {:induction false} ReplaceNewlinesSpec(s: string)
    ensures '\n' !in s ==> ReplaceNewlines(s) == s
    ensures |ReplaceNewlines(s)| == |s| + 3 * multiset(s)['\n']
  {
    if s != [] {
      ReplaceNewlinesSpec(s[1..]);
      assert s == [s[0]] + s[1..];
    }
  }

  /** The plain-text body's lines before the message: a heading, the name, address and subject. */
  function TextHead(name: string, email: string, subject: string): string
  {
    "\nNova mensagem do site\n\nNome: " + name + "\nEmail: " + email + "\nAssunto: " + subject
      + "\n\nMensagem:\n"
  }

  /** The plain-text body's footer after the message. */
  const TextFoot: string := "\n\n---\nEnviado através do formulário de contato do site\n      "

  /** The plain-text body, with the message verbatim. */
  function TextBody(name: string, email: string, subject: string, message: string): string
  {
    TextHead(name, email, subject) + message + TextFoot
  }

  /** `mailOptions`, sent from the configured account. */
  function BuildMail(sender: string, name: string, email: string, subject: string, message: string): Mail
  {
    Mail(sender, Recipient, email, SubjectPrefix + subject,
         Html(name, email, subject, ReplaceNewlines(message)),
         TextBody(name, email, subject, message))
  }

  function Failure(status: nat, error: string): Response
  {
    Response(status, CorsHeaders, Some(Json(false, Some(error), None)))
  }

  /**
   * The handler. `sender` is the configured account (`EMAIL_USER`); `sendOk` is whether
   * the transport accepted the mail.
   */
  function Handle(req: Request, sender: string, sendOk: bool): (out: Outcome)
    ensures out.response.headers == CorsHeaders
    ensures out.response.status in {200, 400, 405, 500}
  {
    if req.httpMethod == "OPTIONS" then Outcome(Response(200, CorsHeaders, None), None)
    else if req.httpMethod != "POST" then Outcome(Failure(405, MethodNotAllowed), None)
    else if !AllPresent(req) then Outcome(Failure(400, FieldsRequired), None)
    else if !EmailRegexTest(req.email.value) then Outcome(Failure(400, InvalidEmail), None)
    else
      var mail := BuildMail(sender, req.name.value, req.email.value, req.subject.value, req.message.value);
      if sendOk then Outcome(Response(200, CorsHeaders, Some(Json(true, None, Some(SendSucceeded)))), Some(mail))
      else Outcome(Failure(500, SendFailed), Some(mail))
  }

  /** The request passes every guard. */
  predicate Accepted(req: Request)
  {
    req.httpMethod == "POST" && AllPresent(req) && WellShapedEmail(req.email.value)
  }

  /**
   * A mail is handed to the transport exactly when the request passes every guard, and
   * the response reports success exactly when, in addition, the transport accepted it:
   * then the answer is 200 with the success message, otherwise 500 with the fixed message.
   */
  lemma HandleSpec(req: Request, sender: string, sendOk: bool)
    ensures var out := Handle(req, sender, sendOk);
      && (out.attempted.Some? <==> Accepted(req))
      && (out.response.body.Some? && out.response.body.value.success <==> Accepted(req) && sendOk)
      && (Accepted(req) && sendOk ==>
            out.response == Response(200, CorsHeaders, Some(Json(true, None, Some(SendSucceeded)))))
      && (Accepted(req) && !sendOk ==> out.response == Failure(500, SendFailed))
  {
    if Present(req.email) {
      EmailRegexIff(req.email.value);
    }
  }

  /** A preflight is answered 200 with no body; any other method but POST is refused without reading the fields. */
  lemma MethodGuards(req: Request, sender: string, sendOk: bool)
    ensures req.httpMethod == "OPTIONS" ==>
      Handle(req, sender, sendOk) == Outcome(Response(200, CorsHeaders, None), None)
    ensures req.httpMethod != "OPTIONS" && req.httpMethod != "POST" ==>
      Handle(req, sender, sendOk) == Outcome(Failure(405, MethodNotAllowed), None)
      && forall other: Request :: other.httpMethod == req.httpMethod ==>
        Handle(other, sender, sendOk) == Handle(req, sender, sendOk)
  {
  }

  /** A missing or empty field is reported before the address is looked at. */
  lemma FieldsBeforeEmail(req: Request, sender: string, sendOk: bool)
    requires req.httpMethod == "POST" && !AllPresent(req)
    ensures Handle(req, sender, sendOk) == Outcome(Failure(400, FieldsRequired), None)
  {
  }

  /** A POST with all fields and a malformed address is refused as an invalid e-mail. */
  lemma BadEmailRefused(req: Request, sender: string, sendOk: bool)
    requires req.httpMethod == "POST" && AllPresent(req) && !WellShapedEmail(req.email.value)
    ensures Handle(req, sender, sendOk) == Outcome(Failure(400, InvalidEmail), None)
  {
    EmailRegexIff(req.email.value);
  }

  /**
   * The mail goes to the site owner, answers to the submitted address, carries the
   * prefixed subject, has no newline left in the HTML message, and embeds the message
   * verbatim in the plain-text body.
   */
  lemma MailFields(req: Request, sender: string, sendOk: bool)
    requires Accepted(req)
    ensures var m := Handle(req, sender, sendOk).attempted;
      && m.Some?
      && m.value.to == Recipient && m.value.replyTo == req.email.value && m.value.from == sender
      && m.value.subject == SubjectPrefix + req.subject.value
      && '\n' !in m.value.html.message
      && m.value.html.message == ReplaceNewlines(req.message.value)
      && var start := |TextHead(req.name.value, req.email.value, req.subject.value)|;
        start + |req.message.value| <= |m.value.text|
        && m.value.text[start..start + |req.message.value|] == req.message.value
  {
    EmailRegexIff(req.email.value);
    var head := TextHead(req.name.value, req.email.value, req.subject.value);
    var msg := req.message.value;
    var text := head + msg + TextFoot;
    assert text[|head|..|head| + |msg|] == msg;
  }

  /** A concrete address the regex accepts, and near misses it refuses. */
  lemma EmailExamples()
    ensures EmailRegexTest("a@b.c")
    ensures !EmailRegexTest("a@b") && !EmailRegexTest("a b@c.d") && !EmailRegexTest("a@@b.c")
  {
    var s := "a@b.c";
    assert s[..1] == "a" && s[1 + 1..3] == "b" && s[3 + 1..] == "c";
    assert AllPlain("a") && AllPlain("b") && AllPlain("c");
    assert s[1] == '@' && s[3] == '.';
    assert 0 < 1 && 1 + 1 < 3 && 3 + 1 < |s| && AllPlain(s[..1]) && AllPlain(s[1 + 1..3]) && AllPlain(s[3 + 1..]);
    assert EmailRegexTest(s);
    EmailRegexIff("a@b");
    EmailRegexIff("a b@c.d");
    assert IsSpace("a b@c.d"[1]);
    EmailRegexIff("a@@b.c");
    assert "a@@b.c"[1] == '@' && "a@@b.c"[2] == '@';
  }
}
