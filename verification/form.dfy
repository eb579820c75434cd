/**
 * The per-step form (`AssessmentForm`, components/assessment-form.tsx).
 * It owns a local answer buffer that starts empty, writes only the current
 * question's key, and on submit either hands the buffer to the page
 * (`onNext`) or, on the last question, persists the buffer itself.
 */
module Form {
  import opened Answers
  import Catalog

  /** What a submit does: call the page's `onNext` with some data, or store
      a record and leave for the dashboard. */
  datatype SubmitEffect = CallNext(data: Record) | Persist(stored: Record)

  /** The buffer of a freshly mounted form. */
  const EmptyBuffer: Record := map[]

  /** `handleSubmit`: no validation; the last question persists the form's own
      buffer and never calls `onNext`, every other question forwards the buffer. */
  function HandleSubmit(step: nat, buffer: Record): (e: SubmitEffect)
    ensures e.Persist? <==> step == |Catalog.Questions| - 1
    ensures e.CallNext? ==> e.data == buffer
    ensures e.Persist? ==> e.stored == buffer
  {
    if step == |Catalog.Questions| - 1 then Persist(buffer) else CallNext(buffer)
  }

  /** The submit handler as the page's own last-step branch expects it:
      every question, the last one included, forwards the buffer to
      `onNext`, so that the page persists the merged record. */
  function HandleSubmitIntended(step: nat, buffer: Record): (e: SubmitEffect)
    ensures e.CallNext? && e.data == buffer
  {
    CallNext(buffer)
  }

  /** `currentQuestion`: the question of the current step, read through the
      catalog's checked lookup. */
  function Current(step: nat): (q: Catalog.Question)
    requires step < |Catalog.Questions|
    ensures q == Catalog.Questions[step]
  {
    Catalog.QuestionAt(step).value
  }

  /** `handleInputChange`: only the current question's entry is written. */
  function InputChange(step: nat, buffer: Record, value: Answer): (r: Record)
    requires step < |Catalog.Questions|
    ensures r.Keys == buffer.Keys + {Catalog.Questions[step].id}
    ensures r[Catalog.Questions[step].id] == value
    ensures forall k :: k in buffer && k != Catalog.Questions[step].id ==> r[k] == buffer[k]
  {
    SetEntry(buffer, Current(step).id, value)
  }

  /** The value a radio group, text area or select shows for the current question. */
  function FieldValue(step: nat, buffer: Record): string
    requires step < |Catalog.Questions|
  {
    StringOrEmpty(buffer, Current(step).id)
  }

  /** The options a checkbox group shows as checked for the current question. */
  function CheckedOptions(step: nat, buffer: Record): seq<string>
    requires step < |Catalog.Questions|
  {
    CheckedValues(buffer, Current(step).id)
  }

  /** The submit button's caption. */
  function SubmitLabel(step: nat): (caption: string)
    ensures caption == "Complete Assessment" <==> step == |Catalog.Questions| - 1
    ensures caption != "Complete Assessment" ==> caption == "Next"
  {
    if step == |Catalog.Questions| - 1 then "Complete Assessment" else "Next"
  }

  /** The caption announces completion exactly when submitting persists. */
  lemma LabelMatchesSubmit(step: nat, buffer: Record)
    ensures SubmitLabel(step) == "Complete Assessment" <==> HandleSubmit(step, buffer).Persist?
  {
  }

  /** A freshly mounted form shows nothing: empty fields and no checked box. */
  lemma FreshFormShowsNothing(step: nat)
    requires step < |Catalog.Questions|
    ensures FieldValue(step, EmptyBuffer) == ""
    ensures CheckedOptions(step, EmptyBuffer) == []
  {
  }

  /** Submitting an untouched form is accepted and forwards or stores `{}`. */
  lemma SubmitWithoutAnswer(step: nat)
    ensures HandleSubmit(step, EmptyBuffer) == CallNext(map[])
         || HandleSubmit(step, EmptyBuffer) == Persist(map[])
  {
  }
}
