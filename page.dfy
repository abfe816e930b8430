/**
 * The card page: a five-stage machine driven by four handlers.
 *
 * The handlers are modelled twice, as is usual for state that is updated in
 * place: `Step` says what each event does to a `PageState` value, and the
 * class `ValentinePage` holds the component's fields and performs the same
 * updates step by step, each method proved to agree with `Step`.  The
 * outbound POST is recorded as an append to `sent`.
 */
module Page {
  import opened Common

  /** The five views of the card. */
  datatype Stage = Envelope | Opening | Card | Yes | No

  /** How the POST to the endpoint ended; the page only logs a rejection. */
  datatype FetchOutcome = Resolved | Rejected

  /**
   * The inputs of the page: a click on the envelope, the opening timer going
   * off, a click on YES or NO (with how its POST ends), and "start over".
   */
  datatype Event =
    | EnvelopeClick
    | TimerFires
    | Respond(answer: Response, fetch: FetchOutcome)
    | StartOver

  /**
   * The component's four state fields, whether the opening timer is armed,
   * and the answers POSTed so far.
   */
  datatype PageState = PageState(
    stage: Stage,
    showBurst: bool,
    confetti: seq<int>,
    isSubmitting: bool,
    timerPending: bool,
    sent: seq<Response>)

  /** Number of confetti pieces a YES launches. */
  const ConfettiCount: nat := 120

  /** The confetti keys a YES sets: 0, 1, ..., 119. */
  function Burst(): seq<int> {
    seq(ConfettiCount, i => i)
  }

  function Initial(): PageState {
    PageState(Envelope, false, [], false, false, [])
  }

  /**
   * Which handlers the rendered view lets the visitor reach: the envelope is
   * on screen while closed or opening, the YES/NO buttons only on the card,
   * "start over" only after a NO; the timer fires only while armed.
   */
  predicate Enabled(p: PageState, e: Event)
    // the YES view offers no control at all
    ensures Enabled(p, e) && !e.TimerFires? ==> p.stage != Yes
  {
    match e
    case EnvelopeClick => p.stage == Envelope || p.stage == Opening
    case TimerFires => p.timerPending
    case Respond(_, _) => p.stage == Card
    case StartOver => p.stage == No
  }

  /** The visitor's controls never share a view: envelope, YES/NO buttons and "start over". */
  lemma ControlsNeverShareAView(p: PageState, e1: Event, e2: Event)
    requires Enabled(p, e1) && Enabled(p, e2)
    requires !e1.TimerFires? && !e2.TimerFires?
    ensures e1.EnvelopeClick? == e2.EnvelopeClick?
    ensures e1.Respond? == e2.Respond?
    ensures e1.StartOver? == e2.StartOver?
  {
  }

  /**
   * The effect of one event.  The handlers do not consult `Enabled`
   * themselves, so `Step` is defined for every event.
   */
  function Step(p: PageState, e: Event): (q: PageState)
    // at most one POST per event, and only from a response while idle
    ensures |q.sent| <= |p.sent| + 1
    ensures q.sent != p.sent ==> e.Respond? && !p.isSubmitting && q.sent == p.sent + [e.answer]
    // the submitting flag is never cleared
    ensures p.isSubmitting ==> q.isSubmitting && q.sent == p.sent
    // only a YES changes the confetti, and then to 0, 1, ..., 119
    ensures q.confetti != p.confetti ==>
              e.Respond? && e.answer == YES && |q.confetti| == 120 &&
              forall i | 0 <= i < |q.confetti| :: q.confetti[i] == i
    // the envelope is re-entered only through "start over" after a NO
    ensures Enabled(p, e) && p.stage != Envelope && q.stage == Envelope ==> e.StartOver? && p.stage == No
  {
    match e
    case EnvelopeClick =>
      if p.stage != Envelope then p
      else p.(stage := Opening, showBurst := true, timerPending := true)
    case TimerFires =>
      p.(showBurst := false, stage := Card, timerPending := false)
    case Respond(r, _) =>
      if p.isSubmitting then p
      else p.(isSubmitting := true,
              stage := if r == YES then Yes else No,
              confetti := if r == YES then Burst() else p.confetti,
              sent := p.sent + [r])
    case StartOver =>
      p.(stage := Envelope)
  }

  /** The state reached by feeding `es` to the page, one event after another. */
  function Run(p: PageState, es: seq<Event>): PageState
    decreases |es|
  {
    if es == [] then p else Run(Step(p, es[0]), es[1..])
  }

  /** Every event of `es` is reachable from the view it arrives in. */
  predicate ValidTrace(p: PageState, es: seq<Event>)
    decreases |es|
  {
    es == [] || (Enabled(p, es[0]) && ValidTrace(Step(p, es[0]), es[1..]))
  }

  /** The answer of the first YES/NO click in `es`, if any. */
  function FirstAnswer(es: seq<Event>): Option<Response>
    decreases |es|
  {
    if es == [] then None
    else if es[0].Respond? then Some(es[0].answer)
    else FirstAnswer(es[1..])
  }

  /**
   * What holds in every state the visitor can reach: the timer is armed and
   * the burst shown exactly while opening, at most one answer was POSTed and
   * exactly when the page is submitting, YES is shown exactly after a YES,
   * NO only after a NO, and the confetti is there exactly after a YES.
   */
  predicate Inv(p: PageState) {
    && (p.timerPending <==> p.stage == Opening)
    && (p.showBurst <==> p.stage == Opening)
    && |p.sent| <= 1
    && (p.isSubmitting <==> |p.sent| == 1)
    && (p.stage == Yes <==> p.sent == [YES])
    && (p.stage == No ==> p.sent == [NO])
    && p.confetti == (if p.sent == [YES] then Burst() else [])
  }

  lemma InitialInv()
    ensures Inv(Initial()) && Initial().stage == Envelope && Initial().sent == []
  {
  }

  lemma StepPreservesInv(p: PageState, e: Event)
    requires Inv(p) && Enabled(p, e)
    ensures Inv(Step(p, e))
  {
    if e.Respond? && !p.isSubmitting {
      assert [NO] != [YES] by { assert [NO][0] != [YES][0]; }
    }
  }

  lemma {:induction false} RunPreservesInv(p: PageState, es: seq<Event>)
    requires Inv(p) && ValidTrace(p, es)
    ensures Inv(Run(p, es))
    decreases |es|
  {
    if es != [] {
      StepPreservesInv(p, es[0]);
      RunPreservesInv(Step(p, es[0]), es[1..]);
    }
  }

  /** Every state the visitor can reach from a fresh page satisfies `Inv`. */
  lemma ReachableInv(es: seq<Event>)
    requires ValidTrace(Initial(), es)
    ensures Inv(Run(Initial(), es))
  {
    RunPreservesInv(Initial(), es);
  }

  /**
   * Whatever events reach the handlers, in whatever order, the page POSTs at
   * most once: the answer of the first YES/NO click if the page was idle,
   * nothing more if it was already submitting.
   */
  lemma {:induction false} RunSendsFirstAnswerOnly(p: PageState, es: seq<Event>)
    requires p.isSubmitting || p.sent == []
    ensures p.isSubmitting ==> Run(p, es).sent == p.sent
    ensures !p.isSubmitting ==>
              Run(p, es).sent == (if FirstAnswer(es).Some? then [FirstAnswer(es).value] else [])
    decreases |es|
  {
    if es != [] {
      RunSendsFirstAnswerOnly(Step(p, es[0]), es[1..]);
    }
  }

  /** From a fresh page, any event sequence leads to at most one POST. */
  lemma AtMostOneSubmission(es: seq<Event>)
    ensures |Run(Initial(), es).sent| <= 1
    ensures FirstAnswer(es).Some? ==> Run(Initial(), es).sent == [FirstAnswer(es).value]
  {
    RunSendsFirstAnswerOnly(Initial(), es);
  }

  /** A click on the envelope does nothing unless the envelope is closed. */
  lemma EnvelopeClickOnlyWhenClosed(p: PageState)
    ensures p.stage != Envelope ==> Step(p, EnvelopeClick) == p
    ensures p.stage == Envelope ==>
              var q := Step(p, EnvelopeClick);
              q.stage == Opening && q.showBurst && q.timerPending &&
              q == p.(stage := Opening, showBurst := true, timerPending := true)
  {
  }

  /** The timer ends the opening: burst hidden, card shown, timer disarmed. */
  lemma TimerShowsCard(p: PageState)
    requires Inv(p) && Enabled(p, TimerFires)
    ensures p.stage == Opening
    ensures Step(p, TimerFires) == p.(stage := Card, showBurst := false, timerPending := false)
    ensures Inv(Step(p, TimerFires))
  {
  }

  /** A click on YES or NO while submitting changes nothing, not even `sent`. */
  lemma ResponseWhileSubmittingIsNoOp(p: PageState, r: Response, f: FetchOutcome)
    requires p.isSubmitting
    ensures Step(p, Respond(r, f)) == p
  {
  }

  /**
   * A click on YES or NO while idle locks the page, shows the matching
   * stage, POSTs exactly that answer, and launches the confetti on YES only.
   */
  lemma ResponseWhileIdle(p: PageState, r: Response, f: FetchOutcome)
    requires !p.isSubmitting
    ensures var q := Step(p, Respond(r, f));
            && q.isSubmitting
            && q.stage == (if r == YES then Yes else No)
            && q.sent == p.sent + [r]
            && (r == YES ==> |q.confetti| == 120 && forall i | 0 <= i < 120 :: q.confetti[i] == i)
            && (r == NO ==> q.confetti == p.confetti)
            && q.showBurst == p.showBurst && q.timerPending == p.timerPending
  {
  }

  /** The view after a click on YES or NO does not depend on how its POST ends. */
  lemma ResponseIgnoresFetchOutcome(p: PageState, r: Response)
    ensures Step(p, Respond(r, Resolved)) == Step(p, Respond(r, Rejected))
  {
  }

  /**
   * "Start over" returns to the closed envelope and changes nothing else; in
   * a reachable state the page stays locked, so a later click on YES or NO
   * does nothing.
   */
  lemma StartOverKeepsLock(p: PageState, r: Response, f: FetchOutcome)
    requires Inv(p) && Enabled(p, StartOver)
    ensures Step(p, StartOver) == p.(stage := Envelope)
    ensures Step(p, StartOver).isSubmitting && Step(p, StartOver).sent == [NO]
    ensures Step(Step(p, StartOver), Respond(r, f)) == Step(p, StartOver)
  {
  }

  /** Once YES is shown, no handler is reachable any more. */
  lemma YesIsFinal(p: PageState, e: Event)
    requires Inv(p) && p.stage == Yes
    ensures !Enabled(p, e)
  {
  }

  /** The card component: the state fields the handlers set, and the armed timer. */
  class ValentinePage {
    var stage: Stage
    var showBurst: bool
    var confetti: seq<int>
    var isSubmitting: bool
    var timerPending: bool
    /** The answers POSTed to the endpoint so far. */
    ghost var sent: seq<Response>

    ghost function State(): PageState
      reads this
    {
      PageState(stage, showBurst, confetti, isSubmitting, timerPending, sent)
    }

    ghost predicate Valid()
      reads this
    {
      Inv(State())
    }

    constructor ()
      ensures State() == Initial() && Valid()
    {
      stage := Envelope;
      showBurst := false;
      confetti := [];
      isSubmitting := false;
      timerPending := false;
      sent := [];
    }

    /** Opens a closed envelope and arms the 1400 ms timer. */
    method HandleEnvelopeClick()
      requires Valid() && Enabled(State(), EnvelopeClick)
      modifies this
      ensures State() == Step(old(State()), EnvelopeClick) && Valid()
    {
      if stage != Envelope {
        return;
      }
      stage := Opening;
      showBurst := true;
      timerPending := true;
    }

    /** The timer callback armed by `HandleEnvelopeClick`. */
    method TimerFires()
      requires Valid() && Enabled(State(), Event.TimerFires)
      modifies this
      ensures State() == Step(old(State()), Event.TimerFires) && Valid()
    {
      timerPending := false;
      showBurst := false;
      stage := Card;
    }

    /**
     * A click on YES or NO.  `fetch` is how the POST ends; a rejection is
     * only logged, so it has no effect on the state.
     */
    method HandleResponse(response: Response, fetch: FetchOutcome)
      requires Valid() && Enabled(State(), Respond(response, fetch))
      modifies this
      ensures State() == Step(old(State()), Respond(response, fetch)) && Valid()
    {
      if isSubmitting {
        return;
      }
      StepPreservesInv(State(), Respond(response, fetch));
      isSubmitting := true;
      stage := if response == YES then Yes else No;
      if response == YES {
        confetti := Burst();
      }
      sent := sent + [response];
    }

    /** The "start over" button of the NO view. */
    method StartOver()
      requires Valid() && Enabled(State(), Event.StartOver)
      modifies this
      ensures State() == Step(old(State()), Event.StartOver) && Valid()
    {
      stage := Envelope;
    }
  }
}
