/**
 * The wizard page (`AssessmentPage`, app/assessment/page.tsx): a step index
 * and an accumulated answer record. `handleNext` merges a step's data and
 * advances, or on the last step persists the merged record; `handlePrevious`
 * steps back without touching the record.
 */
module Wizard {
  import opened Wrappers
  import opened Answers

  /** `totalSteps` of the page. */
  const TotalSteps: nat := 10

  datatype State = State(step: nat, rec: Record)

  /** The state after one controller call, and the record it handed to the
      persistence boundary (`localStorage` plus redirect), if any. */
  datatype Transition = Transition(next: State, persisted: Option<Record>)

  /** Step 0 with an empty record. */
  const Initial: State := State(0, map[])

  /** The step index is a valid question index. */
  predicate InRange(s: State)
  {
    s.step < TotalSteps
  }

  /** `handleNext(data)`. */
  function HandleNext(s: State, data: Record): (t: Transition)
    ensures t.next.rec.Keys == s.rec.Keys + data.Keys
    ensures forall k :: k in data ==> t.next.rec[k] == data[k]
    ensures forall k :: k in s.rec && k !in data ==> t.next.rec[k] == s.rec[k]
    ensures s.step < TotalSteps - 1 ==> t.next.step == s.step + 1 && t.persisted == None
    ensures s.step >= TotalSteps - 1 ==> t.next.step == s.step && t.persisted == Some(t.next.rec)
  {
    var merged := Merge(s.rec, data);
    if s.step < TotalSteps - 1 then Transition(State(s.step + 1, merged), None)
    else Transition(State(s.step, merged), Some(merged))
  }

  /** `handlePrevious()`. */
  function HandlePrevious(s: State): (r: State)
    ensures r.rec == s.rec
    ensures s.step > 0 ==> r.step == s.step - 1
    ensures s.step == 0 ==> r == s
  {
    if s.step > 0 then State(s.step - 1, s.rec) else s
  }

  /** `canGoBack`, which enables the Previous button. */
  function CanGoBack(step: nat): (enabled: bool)
    ensures enabled <==> step > 0
  {
    step > 0
  }

  /** The progress bar value, `((currentStep + 1) / totalSteps) * 100`, as an exact rational. */
  function Progress(step: nat): (p: real)
    ensures p > 0.0
    ensures p <= 100.0 <==> step < TotalSteps
    ensures p == 100.0 <==> step == TotalSteps - 1
  {
    ((step + 1) as real / TotalSteps as real) * 100.0
  }

  /** The numbers in the caption "Step {k} of {n}". */
  datatype StepCaption = StepCaption(k: nat, n: nat)

  function StepLabel(step: nat): (c: StepCaption)
    ensures c.n == TotalSteps
    ensures c.k == step + 1
    ensures 1 <= c.k <= c.n <==> step < TotalSteps
    ensures c.k == c.n <==> step == TotalSteps - 1
  {
    StepCaption(step + 1, TotalSteps)
  }

  /** The bar and the caption agree: the progress value is k/n of 100. */
  lemma ProgressMatchesCaption(step: nat)
    ensures Progress(step) == StepLabel(step).k as real * 100.0 / StepLabel(step).n as real
  {
  }

  /** Before the last step, next raises the caption's k by one and strictly
      raises the progress; above step 0, previous lowers both. */
  lemma TransitionsMoveProgress(s: State, data: Record)
    ensures s.step < TotalSteps - 1 ==>
      StepLabel(HandleNext(s, data).next.step).k == StepLabel(s.step).k + 1
      && Progress(HandleNext(s, data).next.step) > Progress(s.step)
    ensures s.step > 0 ==>
      StepLabel(HandlePrevious(s).step).k + 1 == StepLabel(s.step).k
      && Progress(HandlePrevious(s).step) < Progress(s.step)
  {
  }

  /** The Previous button is enabled exactly when pressing it changes the state. */
  lemma CanGoBackIffPreviousMoves(s: State)
    ensures CanGoBack(s.step) <==> HandlePrevious(s) != s
  {
  }

  /** Both transitions keep the step a valid index. */
  lemma TransitionsStayInRange(s: State, data: Record)
    requires InRange(s)
    ensures InRange(HandleNext(s, data).next)
    ensures InRange(HandlePrevious(s))
  {
  }

  /** Going back to a step and submitting data that only names that step's
      question overwrites that one entry; every other entry survives. */
  lemma RevisitOverwritesOnlyThatStep(s: State, id: string, value: Answer)
    requires s.step > 0
    ensures var r := HandleNext(HandlePrevious(s), map[id := value]).next.rec;
      r.Keys == s.rec.Keys + {id} && r[id] == value
      && forall k :: k in s.rec && k != id ==> r[k] == s.rec[k]
  {
  }

  /** Submitting an empty step (the form performs no validation) advances
      without injecting any entry. */
  lemma EmptySubmitKeepsRecord(s: State)
    requires s.step < TotalSteps - 1
    ensures HandleNext(s, map[]) == Transition(State(s.step + 1, s.rec), None)
  {
  }

  /** A call of the page controller, as driven directly (not through the form). */
  datatype Call = Next(data: Record) | Previous

  /** Applies a sequence of calls, collecting every record handed to persistence. */
  function Run(s: State, calls: seq<Call>): (r: (State, seq<Record>))
    decreases |calls|
  {
    if |calls| == 0 then (s, [])
    else
      var (s', out) := match calls[0]
        case Next(d) =>
          var t := HandleNext(s, d);
          (t.next, if t.persisted.Some? then [t.persisted.value] else [])
        case Previous => (HandlePrevious(s), []);
      var (final, rest) := Run(s', calls[1..]);
      (final, out + rest)
  }

  /** Under any interleaving of next and previous, the step stays a valid
      index and no answer key is ever dropped. */
  lemma {:induction false} RunInvariant(s: State, calls: seq<Call>)
    requires InRange(s)
    ensures InRange(Run(s, calls).0)
    ensures s.rec.Keys <= Run(s, calls).0.rec.Keys
    decreases |calls|
  {
    if |calls| > 0 {
      match calls[0]
      case Next(d) =>
        RunInvariant(HandleNext(s, d).next, calls[1..]);
      case Previous =>
        RunInvariant(HandlePrevious(s), calls[1..]);
    }
  }

  /** `next` calls made before the last step (at most as many as the steps
      left until it) advance one step each and persist nothing. */
  lemma {:induction false} NextCallsBeforeLastStepPersistNothing(s: State, calls: seq<Call>)
    requires forall i :: 0 <= i < |calls| ==> calls[i].Next?
    requires s.step + |calls| <= TotalSteps - 1
    ensures Run(s, calls).1 == []
    ensures Run(s, calls).0.step == s.step + |calls|
    decreases |calls|
  {
    if |calls| > 0 {
      NextCallsBeforeLastStepPersistNothing(HandleNext(s, calls[0].data).next, calls[1..]);
    }
  }

  /** One `next` at the last step persists exactly once: the merged record. */
  lemma LastStepPersistsOnce(s: State, data: Record)
    requires s.step == TotalSteps - 1
    ensures Run(s, [Next(data)]).1 == [Merge(s.rec, data)]
    ensures Run(s, [Next(data)]).0 == State(s.step, Merge(s.rec, data))
  {
  }
}
