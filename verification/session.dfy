/**
 * The page and its form working together. The form is keyed by the step
 * index (app/assessment/page.tsx:64), so whenever the step changes the form
 * remounts and its buffer is empty again. A session ends when a record is
 * stored and the browser leaves for the dashboard; events after that reach
 * nothing.
 */
module Session {
  import opened Wrappers
  import opened Answers
  import Catalog
  import Form
  import Wizard

  /** Which submit handler the form runs: the one in the source, or the
      intended one that always forwards to the page. */
  datatype Build = AsWritten | Intended

  datatype Session = Session(page: Wizard.State, buffer: Record, stored: Option<Record>)

  /** What the user can do on a step: pick a radio/select option or type
      text, click a checkbox option, submit, or press Previous. */
  datatype UiEvent = Change(value: string) | Toggle(option: string) | Submit | Previous

  const Start: Session := Session(Wizard.Initial, Form.EmptyBuffer, None)

  /** The id of the last question, the only one the as-written form stores. */
  const LastId: string := "integrations"

  /** An answer has the shape its question's control produces. */
  predicate Fits(q: Catalog.Question, a: Answer)
  {
    match q.kind
    case Checkbox => a.Strs? && Distinct(a.items) && forall x :: x in a.items ==> x in q.options
    case Textarea => a.Str?
    case _ => a.Str? && a.text in q.options
  }

  /** What holds in every reachable session. */
  predicate Valid(s: Session)
  {
    && s.page.step < |Catalog.Questions|
    && s.buffer.Keys <= {Catalog.Questions[s.page.step].id}
    && (forall k :: k in s.buffer ==> Fits(Catalog.Questions[s.page.step], s.buffer[k]))
    && s.page.rec.Keys <= Catalog.Ids()
  }

  /** The submit handler of the chosen build. */
  function Submission(b: Build, step: nat, buffer: Record): Form.SubmitEffect
  {
    match b
    case AsWritten => Form.HandleSubmit(step, buffer)
    case Intended => Form.HandleSubmitIntended(step, buffer)
  }

  /** The form's buffer after the page moved from `before` to `after`. */
  function Remount(before: Wizard.State, after: Wizard.State, buffer: Record): (r: Record)
    ensures after.step != before.step ==> r == map[]
    ensures after.step == before.step ==> r == buffer
  {
    if after.step != before.step then Form.EmptyBuffer else buffer
  }

  /** The question's control can produce the event: a radio or select offers
      its own option values, a text area any text, a checkbox group its options. */
  predicate Offers(q: Catalog.Question, e: UiEvent)
  {
    match e
    case Change(v) => q.kind != Catalog.Checkbox && (q.kind == Catalog.Textarea || v in q.options)
    case Toggle(o) => q.kind == Catalog.Checkbox && o in q.options
    case _ => true
  }

  /** One user event. */
  function Step(b: Build, s: Session, e: UiEvent): (r: Session)
    requires Valid(s)
    ensures Valid(r)
    ensures s.stored.Some? ==> r == s
    ensures s.page.rec.Keys <= r.page.rec.Keys
    ensures r.page.step != s.page.step ==> r.buffer == map[]
    ensures s.stored.None? && e == Submit && Submission(b, s.page.step, s.buffer).CallNext? ==>
      r.page == Wizard.HandleNext(s.page, s.buffer).next
      && r.stored == Wizard.HandleNext(s.page, s.buffer).persisted
    ensures s.stored.None? && e == Submit && Submission(b, s.page.step, s.buffer).Persist? ==>
      r.page == s.page && r.stored == Some(s.buffer)
    ensures s.stored.None? && e == Previous ==> r.page == Wizard.HandlePrevious(s.page) && r.stored.None?
    ensures e.Change? || e.Toggle? ==> r.page == s.page && r.stored == s.stored
    ensures (e.Change? || e.Toggle?) && !(s.stored.None? && Offers(Catalog.Questions[s.page.step], e)) ==> r == s
    ensures s.stored.None? && e.Change? && Offers(Catalog.Questions[s.page.step], e) ==>
      r.buffer == Form.InputChange(s.page.step, s.buffer, Str(e.value))
    ensures s.stored.None? && e.Toggle? && Offers(Catalog.Questions[s.page.step], e) ==>
      r.buffer == Form.InputChange(s.page.step, s.buffer,
        Strs(Click(Form.CheckedOptions(s.page.step, s.buffer), e.option)))
  {
    if s.stored.Some? then s
    else
      var q := Form.Current(s.page.step);
      match e
      case Change(v) =>
        if Offers(q, e)
        then s.(buffer := Form.InputChange(s.page.step, s.buffer, Str(v)))
        else s
      case Toggle(o) =>
        if Offers(q, e)
        then
          var shown := Form.CheckedOptions(s.page.step, s.buffer);
          s.(buffer := Form.InputChange(s.page.step, s.buffer, Strs(Click(shown, o))))
        else s
      case Submit =>
        (match Submission(b, s.page.step, s.buffer)
         case Persist(d) => s.(stored := Some(d))
         case CallNext(d) =>
           var t := Wizard.HandleNext(s.page, d);
           Session(t.next, Remount(s.page, t.next, s.buffer), t.persisted))
      case Previous =>
        var p := Wizard.HandlePrevious(s.page);
        Session(p, Remount(s.page, p, s.buffer), None)
  }

  /** A sequence of user events. */
  function Run(b: Build, s: Session, events: seq<UiEvent>): (r: Session)
    requires Valid(s)
    ensures Valid(r)
    decreases |events|
  {
    if |events| == 0 then s else Run(b, Step(b, s, events[0]), events[1..])
  }

  /** `n` submits in a row. */
  function Submits(n: nat): (evs: seq<UiEvent>)
    ensures |evs| == n
    ensures forall i :: 0 <= i < n ==> evs[i] == Submit
  {
    seq(n, _ => Submit)
  }

  /** The session starts valid. */
  lemma StartIsValid()
    ensures Valid(Start)
  {
  }

  /** Running two event sequences one after the other is running their concatenation. */
  lemma {:induction false} RunAppend(b: Build, s: Session, xs: seq<UiEvent>, ys: seq<UiEvent>)
    requires Valid(s)
    ensures Run(b, s, xs + ys) == Run(b, Run(b, s, xs), ys)
    decreases |xs|
  {
    if |xs| == 0 {
      assert xs + ys == ys;
    } else {
      assert (xs + ys)[0] == xs[0];
      assert (xs + ys)[1..] == xs[1..] + ys;
      RunAppend(b, Step(b, s, xs[0]), xs[1..], ys);
    }
  }

  /** Once a record is stored, no event changes anything: the store happens
      once and the stored record is final. */
  lemma {:induction false} StoredIsFinal(b: Build, s: Session, events: seq<UiEvent>)
    requires Valid(s)
    requires s.stored.Some?
    ensures Run(b, s, events) == s
    decreases |events|
  {
    if |events| > 0 {
      StoredIsFinal(b, Step(b, s, events[0]), events[1..]);
    }
  }

  /** Whenever the step changes the fresh form shows no earlier answer. */
  lemma NewStepShowsNothing(b: Build, s: Session, e: UiEvent)
    requires Valid(s)
    requires Step(b, s, e).page.step != s.page.step
    ensures Form.FieldValue(Step(b, s, e).page.step, Step(b, s, e).buffer) == ""
    ensures Form.CheckedOptions(Step(b, s, e).page.step, Step(b, s, e).buffer) == []
  {
  }

  /** On a reachable session, the checkbox group shows exactly the list in
      the buffer, without duplicates and drawn from the question's options. */
  lemma CheckedOptionsAreStoredList(s: Session)
    requires Valid(s)
    requires Catalog.Questions[s.page.step].kind == Catalog.Checkbox
    ensures var q := Catalog.Questions[s.page.step];
      var shown := Form.CheckedOptions(s.page.step, s.buffer);
      && (q.id in s.buffer ==> s.buffer[q.id] == Strs(shown))
      && Distinct(shown)
      && forall x :: x in shown ==> x in q.options
  {
  }

  /** As written, the form never calls `onNext` on the last step, so the
      page's own completion branch never runs. */
  lemma ControllerCompletionUnreachable(s: Session)
    requires Valid(s)
    requires Submission(AsWritten, s.page.step, s.buffer).CallNext?
    ensures s.page.step < Wizard.TotalSteps - 1
    ensures Wizard.HandleNext(s.page, s.buffer).persisted == None
  {
  }

  /** As written, a stored record holds at most the last question's answer. */
  predicate StoresOnlyLastAnswer(s: Session)
  {
    s.stored.Some? ==> s.stored.value.Keys <= {LastId}
  }

  lemma {:induction false} AsWrittenStoresOnlyLastAnswer(s: Session, events: seq<UiEvent>)
    requires Valid(s)
    requires StoresOnlyLastAnswer(s)
    ensures StoresOnlyLastAnswer(Run(AsWritten, s, events))
    decreases |events|
  {
    if |events| > 0 {
      var s' := Step(AsWritten, s, events[0]);
      if s.stored.None? && events[0] == Submit && s.page.step < Wizard.TotalSteps - 1 {
        ControllerCompletionUnreachable(s);
      }
      assert StoresOnlyLastAnswer(s');
      AsWrittenStoresOnlyLastAnswer(s', events[1..]);
    }
  }

  /** With the intended submit handler, the stored record is the page's whole
      accumulated record, and no key answered before is missing from it. */
  predicate StoresAccumulated(s: Session)
  {
    s.stored.Some? ==> s.stored == Some(s.page.rec)
  }

  lemma {:induction false} IntendedStoresAccumulated(s: Session, events: seq<UiEvent>)
    requires Valid(s)
    requires StoresAccumulated(s)
    ensures StoresAccumulated(Run(Intended, s, events))
    ensures s.page.rec.Keys <= Run(Intended, s, events).page.rec.Keys
    ensures Run(Intended, s, events).stored.Some? ==> s.page.rec.Keys <= Run(Intended, s, events).stored.value.Keys
    decreases |events|
  {
    if |events| > 0 {
      var s' := Step(Intended, s, events[0]);
      assert StoresAccumulated(s');
      IntendedStoresAccumulated(s', events[1..]);
    }
  }

  /** With the intended handler every submit merges the form's buffer into
      the page's record, and a submit on the last step stores exactly that
      merged record: the earlier answers together with the last one. */
  lemma IntendedSubmitMergesBuffer(s: Session)
    requires Valid(s)
    requires s.stored.None?
    ensures Step(Intended, s, Submit).page.rec == Merge(s.page.rec, s.buffer)
    ensures s.page.step == Wizard.TotalSteps - 1 ==>
      Step(Intended, s, Submit).stored == Some(Merge(s.page.rec, s.buffer))
    ensures s.page.step < Wizard.TotalSteps - 1 ==> Step(Intended, s, Submit).stored.None?
  {
  }

  /** As written, a submit on the last step stores the buffer alone, whatever
      the page's record holds. */
  lemma AsWrittenLastSubmitStoresBuffer(s: Session)
    requires Valid(s)
    requires s.stored.None?
    requires s.page.step == Wizard.TotalSteps - 1
    ensures Step(AsWritten, s, Submit).stored == Some(s.buffer)
    ensures Step(AsWritten, s, Submit).page == s.page
  {
  }

  /** The page's step count is the form's question count. */
  lemma StepsMatchCatalog()
    ensures |Catalog.Questions| == Wizard.TotalSteps
    ensures Catalog.Questions[Wizard.TotalSteps - 1].id == LastId
  {
  }

  /** Submitting untouched forms walks forward one step per submit, keeping
      the record and storing nothing, up to the last step. */
  lemma {:induction false} SubmitsWithoutAnswers(b: Build, s: Session, n: nat)
    requires Valid(s)
    requires s.stored.None? && s.buffer == map[]
    requires s.page.step + n <= Wizard.TotalSteps - 1
    ensures Run(b, s, Submits(n)) == Session(Wizard.State(s.page.step + n, s.page.rec), map[], None)
    decreases n
  {
    if n > 0 {
      MergeEmpty(s.page.rec);
      var s' := Step(b, s, Submit);
      assert s' == Session(Wizard.State(s.page.step + 1, s.page.rec), map[], None);
      assert Submits(n)[1..] == Submits(n - 1);
      SubmitsWithoutAnswers(b, s', n - 1);
    }
  }

  /** Answer the first question, then submit every step without answering. */
  const AnswerFirstThenSkip: seq<UiEvent> := [Change("faang"), Submit] + Submits(Wizard.TotalSteps - 1)

  /** The session after the first question is answered and submitted. */
  lemma AfterFirstAnswer(b: Build)
    ensures Run(b, Start, [Change("faang"), Submit])
         == Session(Wizard.State(1, map["track" := Str("faang")]), map[], None)
  {
  }

  /** The session on the last step, nothing stored yet, in either build. */
  lemma ReachLastStep(b: Build)
    ensures Run(b, Start, [Change("faang"), Submit] + Submits(Wizard.TotalSteps - 2))
         == Session(Wizard.State(Wizard.TotalSteps - 1, map["track" := Str("faang")]), map[], None)
  {
    AfterFirstAnswer(b);
    RunAppend(b, Start, [Change("faang"), Submit], Submits(Wizard.TotalSteps - 2));
    SubmitsWithoutAnswers(b, Run(b, Start, [Change("faang"), Submit]), Wizard.TotalSteps - 2);
  }

  /** As written: the answer to the first question is in the page's record
      but the stored record is empty. */
  lemma AsWrittenLosesEarlierAnswers()
    ensures Run(AsWritten, Start, AnswerFirstThenSkip).page.rec == map["track" := Str("faang")]
    ensures Run(AsWritten, Start, AnswerFirstThenSkip).stored == Some(map[])
  {
    var prefix := [Change("faang"), Submit] + Submits(Wizard.TotalSteps - 2);
    assert AnswerFirstThenSkip == prefix + [Submit];
    ReachLastStep(AsWritten);
    RunAppend(AsWritten, Start, prefix, [Submit]);
    assert [Submit][1..] == [];
  }

  /** Intended: the same events store the first question's answer. */
  lemma IntendedKeepsEarlierAnswers()
    ensures Run(Intended, Start, AnswerFirstThenSkip).stored == Some(map["track" := Str("faang")])
  {
    var prefix := [Change("faang"), Submit] + Submits(Wizard.TotalSteps - 2);
    assert AnswerFirstThenSkip == prefix + [Submit];
    ReachLastStep(Intended);
    RunAppend(Intended, Start, prefix, [Submit]);
    assert [Submit][1..] == [];
    MergeEmpty(map["track" := Str("faang")]);
  }
}
