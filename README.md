# Valentine card: stage machine and submission endpoint

The system is a one-page animated Valentine's card. The visitor clicks an
envelope, the card opens, the visitor answers YES or NO, and the answer is
POSTed to a server route. The route e-mails the answer to the card's creator
through an external e-mail service. This project models the two pieces of
logic in it and proves properties about them:

- `page.dfy`, module `Page`: the card's stage machine (`envelope`, `opening`,
  `card`, `yes`, `no`) and its four handlers: envelope click, the 1400 ms
  opening timer, the YES/NO response, and "start over". `Step` is the pure
  specification of one event. The class `ValentinePage` holds the component's
  fields (`stage`, `showBurst`, `confetti`, `isSubmitting`), plus the armed
  timer and a ghost list `sent` of POSTed answers. Its methods are the
  handlers, each proved to agree with `Step` and to keep the invariant `Inv`.
  `Enabled` says which handlers the rendered view can reach. The handlers do
  not check it themselves, so it appears as a method precondition.
- `route.dfy`, module `SubmitResponse`: the POST handler as a function from
  the parsed body, the environment, the formatted date and the e-mail
  service's answer to an HTTP status, a JSON reply and the send it requested.
  It also models the GET handler, which always answers 405.
- `common.dfy`, module `Common`: `Option` and the two-valued `Response`.

Status codes are those of RFC 9110: 200 (section 15.3.1), 400 (section
15.5.1), 405 (section 15.5.6) and 500 (section 15.6.1).

Three behaviours of the code are easy to miss:
- Unparseable JSON and a `null` body give 500 "Internal server error", status
  500, not 400. The `const { response } = body` destructuring throws on
  `null`, and the catch-all answers 500.
- The success reply is `{ success: true, emailId }`. It does not echo the
  answer.
- The answer check runs before the configuration check. An invalid answer
  therefore gets 400 even when nothing is configured.

## Model

| member | source | states |
|---|---|---|
| `Common.Wire` | app/page.tsx:227-231 | The POSTed wire value is "YES" or "NO", and it is "YES" exactly for a YES answer |
| `Page.Enabled` | app/page.tsx:275-532 | The envelope's click handler is mounted while the stage is `envelope` or `opening`, the YES/NO buttons only on `card`, "start over" only on `no`, and the timer fires only while armed. In the `yes` view no visitor handler is reachable |
| `Page.ControlsNeverShareAView` | app/page.tsx:275-532 | No two of the visitor's controls (envelope, YES/NO buttons, "start over") are reachable in the same state |
| `Page.Step` | app/page.tsx:207-235 | One event appends at most one POST, and only a response while not submitting does, carrying its answer. `isSubmitting` is never cleared. Only a YES changes the confetti, and it sets 120 keys with key i equal to i. The envelope is re-entered only through "start over" from `no` |
| `Page.InitialInv` | app/page.tsx:201-204 | The fresh page is on the envelope, has sent nothing, and satisfies the invariant |
| `Page.StepPreservesInv` | app/page.tsx:201-235 | Every enabled event keeps the invariant. The timer is armed and the burst shown exactly while opening. At most one answer is sent, exactly when submitting. `yes` is shown exactly after a sent YES, `no` only after a sent NO. The confetti is present exactly after a YES |
| `Page.RunPreservesInv` | app/page.tsx:201-235 | Any sequence of enabled events keeps the invariant |
| `Page.ReachableInv` | app/page.tsx:201-235 | Every state reachable from a fresh page satisfies the invariant |
| `Page.RunSendsFirstAnswerOnly` | app/page.tsx:217-220 | For any event sequence, enabled or not: an idle page ends up having sent exactly the answer of the first YES/NO click, or nothing if there was no click. A submitting page sends nothing more |
| `Page.AtMostOneSubmission` | app/page.tsx:204-220 | From a fresh page, any event sequence POSTs at most once, and that POST is the first answer given |
| `Page.EnvelopeClickOnlyWhenClosed` | app/page.tsx:207-210 | An envelope click changes nothing unless the stage is `envelope`. From there it moves to `opening`, shows the burst and arms the timer, and changes nothing else |
| `Page.TimerShowsCard` | app/page.tsx:211-214 | The timer fires only while opening. It hides the burst, shows the card and disarms the timer |
| `Page.ResponseWhileSubmittingIsNoOp` | app/page.tsx:218 | A response while submitting leaves every field and the sent list unchanged |
| `Page.ResponseWhileIdle` | app/page.tsx:219-231 | A response while idle sets `isSubmitting` and shows `yes` or `no` by answer. It appends exactly that answer to the sent list. It sets confetti to 0..119 on YES and keeps it on NO |
| `Page.ResponseIgnoresFetchOutcome` | app/page.tsx:226-234 | The state after a response is the same whether the POST resolves or rejects |
| `Page.StartOverKeepsLock` | app/page.tsx:531-532 | "Start over" sets the stage to `envelope` and nothing else. The page stays submitting with the NO sent, so a later response is a no-op |
| `Page.YesIsFinal` | app/page.tsx:433-437 | Once `yes` is shown, no handler is reachable |
| `Page.ValentinePage.constructor` | app/page.tsx:201-204 | Initial fields: envelope, no burst, no confetti, not submitting, no timer, nothing sent |
| `Page.ValentinePage.HandleEnvelopeClick` | app/page.tsx:207-215 | Reachable while the envelope is shown. The new state is `Step` of the old under an envelope click, and the invariant holds |
| `Page.ValentinePage.TimerFires` | app/page.tsx:211-214 | Runs only while armed. The new state is `Step` of the old under the timer, and the invariant holds |
| `Page.ValentinePage.HandleResponse` | app/page.tsx:217-235 | Reachable on the card. The new state is `Step` of the old under the response, whatever the POST's fate, and the invariant holds |
| `Page.ValentinePage.StartOver` | app/page.tsx:531-532 | Reachable on the NO view. The new state is `Step` of the old under "start over", and the invariant holds |
| `SubmitResponse.ReadResponse` | app/api/submit-response/route.ts:10-15 | Unparseable JSON and `null` throw. The answer is accepted exactly when `response` is the string "YES" or "NO", and the accepted answer's wire form is that string. Every other body is invalid |
| `SubmitResponse.Missing` | app/api/submit-response/route.ts:18-19 | A name is in the result exactly when it is required and its variable is absent or empty |
| `SubmitResponse.MissingRequiredInOrder` | app/api/submit-response/route.ts:18-19 | The missing list is the in-order subsequence of RESEND_API_KEY, NOTIFY_EMAIL_TO, NOTIFY_EMAIL_FROM whose variables are unset |
| `SubmitResponse.Join` | app/api/submit-response/route.ts:22 | The joined text starts with the first part, and when there are two or more parts the separator follows it |
| `SubmitResponse.SplitJoin` | app/api/submit-response/route.ts:22 | Cutting a ", "-join at every ", " gives back the parts when no part contains a comma |
| `SubmitResponse.MissingMessage` | app/api/submit-response/route.ts:22 | The message starts with "Missing env vars: ", and for a non-empty list of comma-free names the rest splits at ", " back into exactly that list |
| `SubmitResponse.MissingMessageNamesExactly` | app/api/submit-response/route.ts:20-23 | The 500 message is "Missing env vars: " followed by text that splits back into exactly the missing names, in order |
| `SubmitResponse.MissingMessageDistinguishes` | app/api/submit-response/route.ts:20-23 | Different sets of missing variables give different 500 messages |
| `SubmitResponse.Subject` | app/api/submit-response/route.ts:28-30 | The subject is one of the two fixed subjects. The YES subject contains "YES" and the NO subject does not |
| `SubmitResponse.SubjectsDiffer` | app/api/submit-response/route.ts:28-30 | The YES and NO subjects differ |
| `SubmitResponse.LayoutShows` | app/api/submit-response/route.ts:32-94 | The template's output contains its emoji, heading, answer badge and date pieces, and the emoji stands right after the fixed head |
| `SubmitResponse.HtmlBody` | app/api/submit-response/route.ts:32-94 | The body contains `Response: <strong>` + answer + `</strong>`, the answer's heading ("She said YES!" or "She said no..."), its emoji, and the date. The emoji stands at a fixed offset, right after the fixed head markup |
| `SubmitResponse.BodiesDiffer` | app/api/submit-response/route.ts:32-94 | For every date, the YES and NO bodies differ: they carry different emoji at the same offset |
| `SubmitResponse.HeadingAndEmojiDiffer` | app/api/submit-response/route.ts:47-49 | The YES and NO answers have different heading texts and different emoji (the pieces themselves; `BodiesDiffer` lifts this to whole bodies) |
| `SubmitResponse.Post` | app/api/submit-response/route.ts:7-116 | An invalid answer gives 400 "Invalid response value" with no send, whatever the configuration. Unparseable or `null` bodies give 500 "Internal server error". A valid answer with missing variables gives 500 with the missing-variable message and no send. A send happens exactly for a valid answer under a complete configuration, with from NOTIFY_EMAIL_FROM, to [NOTIFY_EMAIL_TO], the answer's subject and body. After the send, service acceptance gives 200 `{success, emailId}`, a service error gives 500 "Failed to send notification", and a throw gives 500 "Internal server error". Status 200 occurs exactly on an accepted send |
| `SubmitResponse.Get` | app/api/submit-response/route.ts:119-121 | GET always answers 405 "Method not allowed" |
| `SubmitResponse.YesDelivered` | app/api/submit-response/route.ts:97-110 | YES, a complete configuration and service id "abc123" give 200 with emailId "abc123" |
| `SubmitResponse.NoWithoutDestination` | app/api/submit-response/route.ts:18-23 | NO with only NOTIFY_EMAIL_TO unset gives 500 "Missing env vars: NOTIFY_EMAIL_TO" and no send |
| `SubmitResponse.MaybeRefused` | app/api/submit-response/route.ts:13-15 | "MAYBE" gives 400 with no send under any configuration |

## Left out

- Animation, rendering and decoration: the envelope, burst, hearts, petals, stars and confetti visuals (app/page.tsx:9-197, 239-549). They are driven by random numbers and floating-point timings and carry no behavioural contract. Only which handlers each view makes reachable is kept, as `Enabled`.
- The `disabled={isSubmitting}` attribute of the YES/NO buttons (app/page.tsx:397, 415) is not part of `Enabled`. The model lets clicks reach the handler while submitting, and the handler's own guard makes them no-ops. Every property above therefore also holds for the narrower set of clicks the real buttons allow.
- The real timer, React's asynchronous state batching and stale closures. Handlers are atomic sequential steps, and the 1400 ms timer is the explicit `TimerFires` event.
- Page.AtMostOneSubmission: holds only under the atomic-handler view above. In the real page the card's 0.9 s exit animation (app/page.tsx:328-329) keeps the old YES/NO buttons mounted, rendered with `disabled={false}` and with a `handleResponse` closure that still sees `isSubmitting === false` (app/page.tsx:396-415). A second click in that window could POST again. This window is not modelled and has not been observed.
- `fetch` and the network round trip. The POST is only the append to `sent`, and its outcome is a parameter that the page ignores apart from logging.
- The e-mail service client and its construction at module load with the API key. The send's result is the input `SinkResult`.
- `new Date().toLocaleDateString(...)`, which depends on the clock and the locale. The formatted date is the parameter `date`.
- The HTML and CSS styling text of the e-mail. The fixed markup between the varying pieces is kept only as short structural fragments. All varying pieces are modelled verbatim: emoji, heading, title line, message, badge colours, answer badge and date.
- `console.log` and `console.error` logging.
- Next.js request parsing and routing. The parsed body is the datatype `Body`.
