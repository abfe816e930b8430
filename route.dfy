/**
 * The submission endpoint: a POST handler that checks the answer and the
 * configuration, builds the notification e-mail, hands it to the e-mail
 * service and maps the outcome to an HTTP status and JSON body; and a GET
 * handler that refuses the method.
 *
 * The handler's inputs that come from outside the code are parameters: the
 * request body as parsed JSON, the process environment, the formatted date
 * embedded in the e-mail, and what the e-mail service answered.
 */
module SubmitResponse {
  import opened Common

  // ---------------------------------------------------------------------
  // Status codes (section 15 of RFC 9110)
  // ---------------------------------------------------------------------

  /** 200 OK, section 15.3.1 of RFC 9110. */
  const StatusOk: nat := 200
  /** 400 Bad Request, section 15.5.1 of RFC 9110. */
  const StatusBadRequest: nat := 400
  /** 405 Method Not Allowed, section 15.5.6 of RFC 9110. */
  const StatusMethodNotAllowed: nat := 405
  /** 500 Internal Server Error, section 15.6.1 of RFC 9110. */
  const StatusInternalServerError: nat := 500

  // ---------------------------------------------------------------------
  // Inputs and outputs
  // ---------------------------------------------------------------------

  /** The value of the body's `response` field, when the field is present. */
  datatype FieldValue = Text(s: string) | NotText

  /**
   * The request body: unparseable JSON, the JSON literal `null`, an object
   * (with or without a `response` field), or any other JSON value (array,
   * string, number, boolean), from which `response` reads as undefined.
   */
  datatype Body =
    | Unparseable
    | Null
    | Object(response: Option<FieldValue>)
    | OtherJson

  /** The process environment. */
  type Env = map<string, string>

  /** What the e-mail service answered to the send: an id, an error, or an exception. */
  datatype SinkResult = Accepted(id: Option<string>) | Refused | Threw

  /** The JSON reply body: `{ error }` or `{ success: true, emailId }`. */
  datatype Reply = Failure(error: string) | Success(emailId: Option<string>)

  datatype HttpResponse = HttpResponse(status: nat, reply: Reply)

  /** The arguments of the one send the handler may request. */
  datatype Email = Email(from: string, to: seq<string>, subject: string, html: string)

  /** The reply and the send requested on the way, if any. */
  datatype Outcome = Outcome(response: HttpResponse, sent: Option<Email>)

  const InvalidResponse: HttpResponse := HttpResponse(StatusBadRequest, Failure("Invalid response value"))
  const SendFailed: HttpResponse := HttpResponse(StatusInternalServerError, Failure("Failed to send notification"))
  const InternalError: HttpResponse := HttpResponse(StatusInternalServerError, Failure("Internal server error"))

  // ---------------------------------------------------------------------
  // Reading the answer
  // ---------------------------------------------------------------------

  /** The result of `const { response } = body` and the YES/NO check. */
  datatype ReadResult = Throws | Invalid | Valid(answer: Response)

  function ReadResponse(body: Body): (r: ReadResult)
    // destructuring throws only for unparseable JSON and for null
    ensures r.Throws? <==> body.Unparseable? || body.Null?
    // accepted exactly when `response` is the string "YES" or the string "NO"
    ensures r.Valid? <==>
              body.Object? && body.response.Some? && body.response.value.Text? &&
              (body.response.value.s == "YES" || body.response.value.s == "NO")
    ensures r.Valid? ==> body.response == Some(Text(Wire(r.answer)))
  {
    match body
    case Unparseable => Throws
    case Null => Throws
    case OtherJson => Invalid
    case Object(field) =>
      if field == Some(Text("YES")) then Valid(YES)
      else if field == Some(Text("NO")) then Valid(NO)
      else Invalid
  }

  // ---------------------------------------------------------------------
  // Configuration
  // ---------------------------------------------------------------------

  const RequiredVars: seq<string> := ["RESEND_API_KEY", "NOTIFY_EMAIL_TO", "NOTIFY_EMAIL_FROM"]

  /** A variable counts as set when it is present and not empty (JavaScript truthiness). */
  predicate IsSet(env: Env, name: string) {
    name in env && env[name] != ""
  }

  /** The names, in their order, whose variables are not set. */
  function Missing(names: seq<string>, env: Env): (r: seq<string>)
    ensures |r| <= |names|
    ensures forall v :: v in r <==> v in names && !IsSet(env, v)
  {
    if names == [] then []
    else (if IsSet(env, names[0]) then [] else [names[0]]) + Missing(names[1..], env)
  }

  /** The missing variables keep the order of the required list. */
  lemma MissingRequiredInOrder(env: Env)
    ensures Missing(RequiredVars, env) ==
              (if IsSet(env, "RESEND_API_KEY") then [] else ["RESEND_API_KEY"]) +
              (if IsSet(env, "NOTIFY_EMAIL_TO") then [] else ["NOTIFY_EMAIL_TO"]) +
              (if IsSet(env, "NOTIFY_EMAIL_FROM") then [] else ["NOTIFY_EMAIL_FROM"])
  {
    var names := RequiredVars;
    assert names[1..] == ["NOTIFY_EMAIL_TO", "NOTIFY_EMAIL_FROM"];
    assert names[1..][1..] == ["NOTIFY_EMAIL_FROM"];
    assert names[1..][1..][1..] == [];
    var last := if IsSet(env, "NOTIFY_EMAIL_FROM") then [] else ["NOTIFY_EMAIL_FROM"];
    assert Missing(names[1..][1..], env) == last + [];
    assert last + [] == last;
  }

  /** `parts.join(sep)`: the parts in order, with `sep` between neighbours. */
  function Join(parts: seq<string>, sep: string): (r: string)
    ensures |parts| > 0 ==> |r| >= |parts[0]| && r[..|parts[0]|] == parts[0]
    ensures |parts| > 1 ==> |r| >= |parts[0]| + |sep| && r[|parts[0]|..|parts[0]| + |sep|] == sep
    decreases |parts|
  {
    if |parts| == 0 then ""
    else if |parts| == 1 then parts[0]
    else parts[0] + sep + Join(parts[1..], sep)
  }

  /** The inverse of joining with ", ": cuts a string at every ", ". */
  function Split(s: string): (parts: seq<string>)
    ensures |parts| >= 1
    decreases |s|
  {
    if |s| >= 2 && s[0] == ',' && s[1] == ' ' then [""] + Split(s[2..])
    else if |s| == 0 then [""]
    else
      var rest := Split(s[1..]);
      [[s[0]] + rest[0]] + rest[1..]
  }

  lemma {:induction false} SplitAfterPlainText(a: string, t: string)
    requires ',' !in a
    ensures Split(a + t) == [a + Split(t)[0]] + Split(t)[1..]
    decreases |a|
  {
    if a == [] {
      assert a + t == t;
      assert a + Split(t)[0] == Split(t)[0];
      assert [Split(t)[0]] + Split(t)[1..] == Split(t);
    } else {
      assert a[0] in a;
      assert (a + t)[1..] == a[1..] + t;
      assert forall c | c in a[1..] :: c in a;
      SplitAfterPlainText(a[1..], t);
      assert [a[0]] + (a[1..] + Split(t)[0]) == a + Split(t)[0];
    }
  }

  /** Joining with ", " loses nothing when no part contains a comma. */
  lemma {:induction false} SplitJoin(parts: seq<string>)
    requires |parts| > 0
    requires forall p | p in parts :: ',' !in p
    ensures Split(Join(parts, ", ")) == parts
    decreases |parts|
  {
    if |parts| == 1 {
      SplitAfterPlainText(parts[0], "");
      assert parts[0] + "" == parts[0];
    } else {
      var tail := Join(parts[1..], ", ");
      assert forall p | p in parts[1..] :: p in parts;
      SplitJoin(parts[1..]);
      assert parts[0] + ", " + tail == parts[0] + (", " + tail);
      assert (", " + tail)[2..] == tail;
      assert Split(", " + tail) == [""] + parts[1..];
      SplitAfterPlainText(parts[0], ", " + tail);
      assert parts[0] + "" == parts[0];
      assert [parts[0]] + parts[1..] == parts;
    }
  }

  const MissingPrefix: string := "Missing env vars: "

  /** The 500 error text: the prefix, then the missing names joined with ", ". */
  function MissingMessage(missing: seq<string>): (m: string)
    ensures |m| >= |MissingPrefix| && m[..|MissingPrefix|] == MissingPrefix
    ensures missing != [] && (forall p | p in missing :: ',' !in p) ==>
              Split(m[|MissingPrefix|..]) == missing
  {
    var m := MissingPrefix + Join(missing, ", ");
    assert m[|MissingPrefix|..] == Join(missing, ", ");
    if missing != [] && (forall p | p in missing :: ',' !in p) then
      SplitJoin(missing);
      m
    else
      m
  }

  /**
   * The 500 message names exactly the missing variables, in order: cutting
   * the text after the prefix at ", " gives back the missing list.
   */
  lemma MissingMessageNamesExactly(env: Env)
    requires Missing(RequiredVars, env) != []
    ensures var msg := MissingMessage(Missing(RequiredVars, env));
            |msg| >= |MissingPrefix| && msg[..|MissingPrefix|] == MissingPrefix &&
            Split(msg[|MissingPrefix|..]) == Missing(RequiredVars, env)
  {
    var missing := Missing(RequiredVars, env);
    forall p | p in missing
      ensures ',' !in p
    {
      assert p in RequiredVars;
    }
    SplitJoin(missing);
    var msg := MissingMessage(missing);
    assert msg[|MissingPrefix|..] == Join(missing, ", ");
  }

  /** Two configurations with different missing variables give different 500 messages. */
  lemma MissingMessageDistinguishes(env1: Env, env2: Env)
    requires Missing(RequiredVars, env1) != [] && Missing(RequiredVars, env2) != []
    requires MissingMessage(Missing(RequiredVars, env1)) == MissingMessage(Missing(RequiredVars, env2))
    ensures Missing(RequiredVars, env1) == Missing(RequiredVars, env2)
  {
    MissingMessageNamesExactly(env1);
    MissingMessageNamesExactly(env2);
  }

  // ---------------------------------------------------------------------
  // The notification e-mail
  // ---------------------------------------------------------------------

  const YesSubject: string := "\U{1F49D} She said YES! Valentine's Response Received"
  const NoSubject: string := "\U{1F494} Valentine's Response \U{2014} No, Thank You"

  /** `t` occurs in `s` at offset `i`. */
  predicate OccursAt(s: string, t: string, i: int) {
    0 <= i <= |s| - |t| && s[i..i + |t|] == t
  }

  ghost predicate Contains(s: string, t: string) {
    exists i :: OccursAt(s, t, i)
  }

  lemma ContainsInfix(a: string, b: string, c: string)
    ensures Contains(a + b + c, b)
  {
    assert OccursAt(a + b + c, b, |a|);
  }

  /** The concatenation of `pieces`, in order. */
  function Concat(pieces: seq<string>): string
    decreases |pieces|
  {
    if pieces == [] then "" else pieces[0] + Concat(pieces[1..])
  }

  /** Every piece of a concatenation occurs in it. */
  lemma {:induction false} ConcatContainsPiece(pieces: seq<string>, k: nat)
    requires k < |pieces|
    ensures Contains(Concat(pieces), pieces[k])
    decreases |pieces|
  {
    if k == 0 {
      ContainsInfix("", pieces[0], Concat(pieces[1..]));
      assert "" + pieces[0] + Concat(pieces[1..]) == Concat(pieces);
    } else {
      ConcatContainsPiece(pieces[1..], k - 1);
      var i :| OccursAt(Concat(pieces[1..]), pieces[k], i);
      assert OccursAt(Concat(pieces), pieces[k], |pieces[0]| + i) by {
        assert Concat(pieces)[|pieces[0]|..] == Concat(pieces[1..]);
      }
    }
  }

  function Subject(r: Response): (s: string)
    ensures r == YES ==> Contains(s, "YES")
    ensures r == NO ==> !Contains(s, "YES")
    ensures s == YesSubject || s == NoSubject
  {
    if r == YES then
      assert YesSubject[11] == 'Y' && YesSubject[12] == 'E' && YesSubject[13] == 'S';
      assert YesSubject[11..14] == "YES";
      assert OccursAt(YesSubject, "YES", 11);
      YesSubject
    else
      assert forall i | 0 <= i < |NoSubject| :: NoSubject[i] != 'E';
      forall i | 0 <= i <= |NoSubject| - 3 ensures !OccursAt(NoSubject, "YES", i) {
        assert NoSubject[i..i + 3][1] == NoSubject[i + 1];
      }
      NoSubject
  }

  lemma SubjectsDiffer()
    ensures Subject(YES) != Subject(NO)
  {
  }

  // The pieces of the e-mail that depend on the answer.

  function Emoji(r: Response): string {
    if r == YES then "\U{1F49D}" else "\U{1F494}"
  }

  function Heading(r: Response): string {
    if r == YES then "She said YES!" else "She said no..."
  }

  function Title(r: Response): string {
    if r == YES then "\U{1F389} Congratulations! \U{1F389}" else "\U{1F4AB} It's Okay"
  }

  function Message(r: Response): string {
    if r == YES then
      "Your Valentine's Day invitation has been <strong style='color:#fb7185;'>accepted</strong>! Time to plan something absolutely magical. You've got a date to prepare for! \U{1F942}"
    else
      "Your Valentine's Day invitation was <strong style='color:#fda4af;'>declined</strong>. Remember, every 'no' is just a 'not yet'. Stay wonderful, and maybe next time! \U{1F338}"
  }

  function BadgeBackground(r: Response): string {
    if r == YES then "rgba(244,63,94,0.2)" else "rgba(150,100,120,0.2)"
  }

  function BadgeBorder(r: Response): string {
    if r == YES then "rgba(244,63,94,0.4)" else "rgba(200,100,130,0.3)"
  }

  function BadgeColor(r: Response): string {
    if r == YES then "#fb7185" else "#fda4af"
  }

  /** The fixed markup between the varying pieces (layout and styling left out). */
  const Head: string := "<!DOCTYPE html><html><head><meta charset=\"UTF-8\" /></head><body><table><tr><td align=\"center\"><table><tr><td><div>"
  const AfterEmoji: string := "</div><h1>"
  const AfterHeading: string := "</h1></td></tr><tr><td><p>"
  const AfterTitle: string := "</p><p>"
  const BeforeBadgeBackground: string := "</p><div style=\"display:inline-block;background:"
  const BeforeBadgeBorder: string := ";border:1px solid "
  const BeforeBadgeColor: string := ";\"><span style=\"color:"
  const BeforeBadgeText: string := ";\">"
  const BeforeDate: string := "</span></div><p>"
  const Tail: string := "</p></td></tr><tr><td><p>Sent via Your Valentine's Day Card App \U{2764}\U{FE0F}</p></td></tr></table></td></tr></table></body></html>"

  /** The answer badge. */
  function Badge(r: Response): string {
    "Response: <strong>" + Wire(r) + "</strong>"
  }

  /** The template: fixed markup around the varying pieces, in document order. */
  function Layout(emoji: string, heading: string, title: string, message: string,
                  badgeBackground: string, badgeBorder: string, badgeColor: string,
                  badge: string, date: string): seq<string>
  {
    [Head, emoji, AfterEmoji, heading, AfterHeading, title, AfterTitle, message,
     BeforeBadgeBackground, badgeBackground, BeforeBadgeBorder, badgeBorder,
     BeforeBadgeColor, badgeColor, BeforeBadgeText, badge, BeforeDate, date, Tail]
  }

  lemma LayoutShows(emoji: string, heading: string, title: string, message: string,
                    badgeBackground: string, badgeBorder: string, badgeColor: string,
                    badge: string, date: string)
    ensures var html := Concat(Layout(emoji, heading, title, message, badgeBackground,
                                      badgeBorder, badgeColor, badge, date));
            && Contains(html, emoji) && Contains(html, heading) && Contains(html, badge) && Contains(html, date)
            && OccursAt(html, emoji, |Head|)
  {
    var pieces := Layout(emoji, heading, title, message, badgeBackground, badgeBorder, badgeColor, badge, date);
    assert Concat(pieces) == Head + (emoji + Concat(pieces[1..][1..])) by {
      assert pieces[0] == Head && pieces[1..][0] == emoji;
    }
    ConcatContainsPiece(pieces, 1);
    ConcatContainsPiece(pieces, 3);
    ConcatContainsPiece(pieces, 15);
    ConcatContainsPiece(pieces, 17);
  }

  /** The e-mail body for answer `r`, with `date` the server's formatted current date. */
  function HtmlBody(r: Response, date: string): (html: string)
    ensures Contains(html, Badge(r))
    ensures Contains(html, Heading(r))
    ensures Contains(html, Emoji(r))
    ensures Contains(html, date)
    // the emoji opens the body, right after the fixed head
    ensures OccursAt(html, Emoji(r), |Head|)
  {
    LayoutShows(Emoji(r), Heading(r), Title(r), Message(r), BadgeBackground(r), BadgeBorder(r),
                BadgeColor(r), Badge(r), date);
    Concat(Layout(Emoji(r), Heading(r), Title(r), Message(r), BadgeBackground(r), BadgeBorder(r),
                  BadgeColor(r), Badge(r), date))
  }

  /** The YES and NO e-mails carry different headings and emoji. */
  lemma HeadingAndEmojiDiffer()
    ensures Heading(YES) != Heading(NO)
    ensures Emoji(YES) != Emoji(NO)
  {
  }

  /** Whatever the date, the YES and NO e-mail bodies differ. */
  lemma BodiesDiffer(date: string)
    ensures HtmlBody(YES, date) != HtmlBody(NO, date)
  {
    assert |Emoji(YES)| == |Emoji(NO)| && Emoji(YES) != Emoji(NO);
    DifferAt(HtmlBody(YES, date), HtmlBody(NO, date), Emoji(YES), Emoji(NO), |Head|);
  }

  /** Two strings holding different texts of one length at the same offset differ. */
  lemma DifferAt(s: string, t: string, a: string, b: string, i: int)
    requires OccursAt(s, a, i) && OccursAt(t, b, i)
    requires |a| == |b| && a != b
    ensures s != t
  {
  }

  // ---------------------------------------------------------------------
  // The handlers
  // ---------------------------------------------------------------------

  /** POST: validate, check the configuration, build and send the e-mail, report. */
  function Post(body: Body, env: Env, date: string, sink: SinkResult): (o: Outcome)
    // the answer is checked first, whatever the configuration
    ensures ReadResponse(body).Invalid? ==> o == Outcome(InvalidResponse, None)
    // unparseable JSON and null fall to the catch-all
    ensures ReadResponse(body).Throws? ==> o == Outcome(InternalError, None)
    ensures ReadResponse(body).Valid? && Missing(RequiredVars, env) != [] ==>
              o == Outcome(HttpResponse(StatusInternalServerError,
                                        Failure(MissingMessage(Missing(RequiredVars, env)))), None)
    // one send, exactly for a valid answer under a complete configuration
    ensures o.sent.Some? <==> ReadResponse(body).Valid? && forall v | v in RequiredVars :: IsSet(env, v)
    ensures o.sent.Some? ==>
              var a := ReadResponse(body).answer;
              && IsSet(env, "NOTIFY_EMAIL_FROM") && IsSet(env, "NOTIFY_EMAIL_TO")
              && o.sent.value.from == env["NOTIFY_EMAIL_FROM"]
              && o.sent.value.to == [env["NOTIFY_EMAIL_TO"]]
              && o.sent.value.subject == Subject(a)
              && o.sent.value.html == HtmlBody(a, date)
    // once sent, the status follows the e-mail service
    ensures o.sent.Some? ==>
              o.response == match sink
                            case Accepted(id) => HttpResponse(StatusOk, Success(id))
                            case Refused => SendFailed
                            case Threw => InternalError
    ensures o.response.status == StatusOk <==> o.sent.Some? && sink.Accepted?
    ensures o.response.status in {StatusOk, StatusBadRequest, StatusInternalServerError}
  {
    match ReadResponse(body)
    case Throws => Outcome(InternalError, None)
    case Invalid => Outcome(InvalidResponse, None)
    case Valid(answer) =>
      var missing := Missing(RequiredVars, env);
      if |missing| > 0 then
        assert missing[0] in missing;
        Outcome(HttpResponse(StatusInternalServerError, Failure(MissingMessage(missing))), None)
      else
        assert "NOTIFY_EMAIL_FROM" in RequiredVars && "NOTIFY_EMAIL_TO" in RequiredVars;
        var email := Email(env["NOTIFY_EMAIL_FROM"], [env["NOTIFY_EMAIL_TO"]],
                           Subject(answer), HtmlBody(answer, date));
        var response := match sink
                        case Accepted(id) => HttpResponse(StatusOk, Success(id))
                        case Refused => SendFailed
                        case Threw => InternalError;
        Outcome(response, Some(email))
  }

  /** GET: always refused. */
  function Get(): (r: HttpResponse)
    ensures r.status == StatusMethodNotAllowed
    ensures r.reply == Failure("Method not allowed")
  {
    HttpResponse(StatusMethodNotAllowed, Failure("Method not allowed"))
  }

  // ---------------------------------------------------------------------
  // Scenarios
  // ---------------------------------------------------------------------

  /** A YES under a complete configuration, with the service answering id "abc123". */
  lemma YesDelivered(date: string)
    ensures var env := map["RESEND_API_KEY" := "key", "NOTIFY_EMAIL_TO" := "to@example.com",
                           "NOTIFY_EMAIL_FROM" := "Card <card@example.com>"];
            Post(Object(Some(Text("YES"))), env, date, Accepted(Some("abc123"))).response ==
              HttpResponse(StatusOk, Success(Some("abc123")))
  {
  }

  /** A NO with only the destination address unset. */
  lemma NoWithoutDestination(date: string, sink: SinkResult)
    ensures var env := map["RESEND_API_KEY" := "key", "NOTIFY_EMAIL_FROM" := "Card <card@example.com>"];
            Post(Object(Some(Text("NO"))), env, date, sink) ==
              Outcome(HttpResponse(StatusInternalServerError, Failure(MissingPrefix + "NOTIFY_EMAIL_TO")), None)
  {
    var env := map["RESEND_API_KEY" := "key", "NOTIFY_EMAIL_FROM" := "Card <card@example.com>"];
    MissingRequiredInOrder(env);
    assert IsSet(env, "RESEND_API_KEY") && IsSet(env, "NOTIFY_EMAIL_FROM") && !IsSet(env, "NOTIFY_EMAIL_TO");
    assert Missing(RequiredVars, env) == ["NOTIFY_EMAIL_TO"];
    assert Join(["NOTIFY_EMAIL_TO"], ", ") == "NOTIFY_EMAIL_TO";
  }

  /** "MAYBE" is refused with 400 even when nothing is configured. */
  lemma MaybeRefused(env: Env, date: string, sink: SinkResult)
    ensures Post(Object(Some(Text("MAYBE"))), env, date, sink) == Outcome(InvalidResponse, None)
  {
  }
}
