# Assessment wizard — a Dafny model

This project models the onboarding questionnaire of the application. The model covers three parts:

- The wizard page (`AssessmentPage`). It holds a step index and an accumulated answer record. `handleNext` merges a step's answers into the record and advances. On the last step it persists the merged record instead. `handlePrevious` steps back.
- The per-step form (`AssessmentForm`). It holds a fixed catalog of ten questions and a local answer buffer. It has input handlers for radio, checkbox, textarea and select controls, and a submit handler.
- The pure derivations of the dashboard: roadmap progress, the track caption, priority badges, the five-item preview, and fallbacks for missing fields.

Modules, one per file:

| file | module | models |
|---|---|---|
| wrappers.dfy | `Wrappers` | `Option` (an absent or `undefined` value) and `Result` |
| answers.dfy | `Answers` | answer values, the record, object-spread merge, checkbox add/remove |
| catalog.dfy | `Catalog` | the question catalog and indexed access |
| form.dfy | `Form` | `AssessmentForm`'s handlers and captions |
| wizard.dfy | `Wizard` | `AssessmentPage`'s state, transitions, progress and caption |
| session.dfy | `Session` | the page and form together, driven by user events |
| dashboard.dfy | `Dashboard` | the dashboard's derived values |

The page renders the form keyed by the step index (app/assessment/page.tsx:64). So whenever the step changes, the form remounts with an empty buffer. `Session.Step` models this with `Remount`. One consequence is that the form never shows an answer given earlier: revisiting a checkbox step starts from an empty list.

Persisting (`localStorage.setItem` followed by the redirect to the dashboard) is modelled as an abstract output. `Wizard.Transition.persisted` is that output for one page call, and `Session.stored` is the record a session stored. Once a record is stored, the browser starts leaving the page. As a modelling choice, the session then ignores every later event (see `Session.StoredIsFinal` under "## Left out").

Two behaviours of the code are worth stating up front:

- The code has no terminal state. After storing a record it assigns the dashboard address and the page unloads. The model treats the store as the end of the session and ignores later events (`Session.StoredIsFinal`); the code itself does not guard against them.
- A multi-choice answer is a list in click order. Unchecking removes every occurrence of the option.

## Model

| member | source | states |
|---|---|---|
| Answers.Merge | app/assessment/page.tsx:20 | spreading `data` over the record: keys of `data` take `data`'s value, every other key keeps its value, no key is removed |
| Answers.MergeEmpty | app/assessment/page.tsx:20 | merging an empty step record leaves the accumulated record unchanged |
| Answers.MergeIdempotent | app/assessment/page.tsx:20 | merging the same step data twice equals merging it once |
| Answers.StringOrEmpty | components/assessment-form.tsx:196-198 | a radio, select or textarea shows the stored value when it is a string, otherwise `""` (the same read appears at :246-248 and :260-262) |
| Answers.CheckedValues | components/assessment-form.tsx:218 | a checkbox group shows the stored list, or `[]` when no list is stored |
| Answers.Check | components/assessment-form.tsx:229-230 | checking appends the option at the end; the earlier elements stay in order |
| Answers.Uncheck | components/assessment-form.tsx:231-232 | unchecking removes every occurrence of the option; other values keep their multiplicity |
| Answers.UncheckConcat | components/assessment-form.tsx:232 | the filter distributes over concatenation, so the remaining elements keep their original order |
| Answers.UncheckAbsent | components/assessment-form.tsx:232 | unchecking an option that is not in the list leaves the list unchanged |
| Answers.UncheckAfterCheck | components/assessment-form.tsx:228-233 | check followed by uncheck of the same option equals uncheck alone |
| Answers.CheckboxChange | components/assessment-form.tsx:228-233 | a checked box appends the option after the unchanged old list; an unchecked box leaves the option absent; other values keep their multiplicity |
| Answers.Click | components/assessment-form.tsx:222-233 | a click flips the option's membership, leaves all other values alone, and keeps a duplicate-free list duplicate-free |
| Answers.ClickTwice | components/assessment-form.tsx:228-233 | two clicks on an unchecked option restore the original list |
| Answers.ReadAfterWrite | components/assessment-form.tsx:196-198 | after a string is written, the radio, select or textarea read returns it; the checkbox read returns `[]` |
| Answers.CheckedAfterWrite | components/assessment-form.tsx:218 | after a list is written, the checkbox read returns it; the string read returns `""` |
| Catalog.QuestionAt | components/assessment-form.tsx:160 | indexing succeeds exactly on `[0, 10)` and returns the question at that index; it fails with OutOfRange elsewhere |
| Form.Current | components/assessment-form.tsx:160 | `currentQuestion` is the catalog question at the current step, read through `Catalog.QuestionAt`; the form's reads, writes and the session step all use it |
| Catalog.CatalogShape | components/assessment-form.tsx:42-156 | ten questions with pairwise-distinct ids; only the free-text question has no options; no option list repeats a value |
| Form.HandleSubmit | components/assessment-form.tsx:162-186 | it persists iff the step is the last one, and it persists the buffer itself; on other steps it forwards the buffer to `onNext`; no validation |
| Form.HandleSubmitIntended | components/assessment-form.tsx:183-185 | corrected handler: every step forwards the buffer to `onNext` |
| Form.InputChange | components/assessment-form.tsx:188-190 | only the current question's entry is set; every other entry is unchanged |
| Form.SubmitLabel | components/assessment-form.tsx:300 | the caption is "Complete Assessment" iff the step is the last, otherwise "Next" |
| Form.LabelMatchesSubmit | components/assessment-form.tsx:300 | the caption says "Complete Assessment" exactly when submitting persists |
| Form.FreshFormShowsNothing | components/assessment-form.tsx:159 | a fresh form shows an empty value and no checked option |
| Form.SubmitWithoutAnswer | components/assessment-form.tsx:162-185 | an untouched form still submits, forwarding or storing `{}` |
| Wizard.HandleNext | app/assessment/page.tsx:19-28 | merge frame; before the last step it advances by one and persists nothing; at the last step it stays and persists the merged record |
| Wizard.HandlePrevious | app/assessment/page.tsx:30-34 | the record is unchanged; the step decrements when above 0 and is a no-op at 0 |
| Wizard.Progress | app/assessment/page.tsx:17 | the progress value is positive; it is at most 100 iff the step is in range, and equals 100 iff on the last step |
| Wizard.StepLabel | app/assessment/page.tsx:52-53 | the caption reads "Step k of 10" with k = step + 1; 1 <= k <= 10 iff the step is in range; k = 10 iff on the last step |
| Wizard.ProgressMatchesCaption | app/assessment/page.tsx:17 | the progress value is k/n of 100, where "Step k of n" is the caption |
| Wizard.TransitionsMoveProgress | app/assessment/page.tsx:19-34 | before the last step, next raises the caption number by one and strictly raises progress; above step 0, previous lowers both |
| Wizard.CanGoBack | app/assessment/page.tsx:74 | `canGoBack` holds iff the step is above 0 |
| Wizard.CanGoBackIffPreviousMoves | app/assessment/page.tsx:74 | `canGoBack` holds exactly when Previous would change the state |
| Wizard.TransitionsStayInRange | app/assessment/page.tsx:19-34 | next and previous keep the step in `[0, 10)` |
| Wizard.RunInvariant | app/assessment/page.tsx:19-34 | under any interleaving of next and previous, the step stays in `[0, 10)` and no record key is lost |
| Wizard.RevisitOverwritesOnlyThatStep | app/assessment/page.tsx:19-34 | going back and resubmitting one question's answer overwrites only that entry |
| Wizard.EmptySubmitKeepsRecord | app/assessment/page.tsx:19-22 | an empty step advances without adding or changing entries |
| Wizard.NextCallsBeforeLastStepPersistNothing | app/assessment/page.tsx:21-22 | every next call made before the last step, including the one that reaches it, advances one step and persists nothing |
| Wizard.LastStepPersistsOnce | app/assessment/page.tsx:23-26 | one next call at the last step persists exactly one record: the merged one |
| Session.Step | app/assessment/page.tsx:63-75 | one user event keeps the session invariant. Submit hands the buffer to `handleNext` or stores it, per the form handler. Previous calls `handlePrevious`. A change or click writes the current question through `handleInputChange`, or is ignored when the step has no such control. Nothing changes after a store, and a step change empties the buffer |
| Session.Run | app/assessment/page.tsx:63-75 | any event sequence keeps the session invariant |
| Session.Remount | app/assessment/page.tsx:64 | the form keeps its buffer while the step is unchanged and starts empty when the step changes |
| Session.StepsMatchCatalog | app/assessment/page.tsx:16 | `totalSteps` equals the number of catalog questions, and the last question is "integrations" |
| Session.StartIsValid | app/assessment/page.tsx:13-14 | the start state (step 0, empty record, empty buffer) satisfies the invariant |
| Session.StoredIsFinal | components/assessment-form.tsx:166-167 | in the model, once a record is stored no event sequence changes the session, so the model stores at most once; this stands for the page unloading after the redirect |
| Session.NewStepShowsNothing | app/assessment/page.tsx:64 | when the step changes, the remounted form shows no earlier answer |
| Session.CheckedOptionsAreStoredList | components/assessment-form.tsx:218-233 | on a reachable checkbox step, the checked list is the stored list; it is duplicate-free and drawn from the options |
| Session.ControllerCompletionUnreachable | app/assessment/page.tsx:23-26 | as written, `onNext` is only called before the last step, so the page's persisting branch never runs |
| Session.AsWrittenStoresOnlyLastAnswer | components/assessment-form.tsx:164-167 | as written, a stored record contains at most the last question's key |
| Session.SubmitsWithoutAnswers | components/assessment-form.tsx:162-185 | submitting untouched forms advances one step per submit; the record is kept and nothing is stored |
| Session.AsWrittenLosesEarlierAnswers | components/assessment-form.tsx:164-167 | counterexample: the first answer is in the page's record, yet the stored record is empty |
| Session.IntendedStoresAccumulated | app/assessment/page.tsx:20-26 | with the corrected handler, over any event sequence, a stored record equals the page's accumulated record and contains every key the record held before |
| Session.IntendedSubmitMergesBuffer | app/assessment/page.tsx:19-26 | with the corrected handler, every submit merges the buffer into the page record; a submit on the last step stores exactly that merge, and earlier submits store nothing |
| Session.AsWrittenLastSubmitStoresBuffer | components/assessment-form.tsx:164-167 | as written, a submit on the last step stores the buffer alone and leaves the page untouched |
| Session.IntendedKeepsEarlierAnswers | app/assessment/page.tsx:23-26 | with the corrected handler, the same events store the first answer |
| Dashboard.CompletedItems | components/dashboard-content.tsx:41 | only completed items are kept, and every completed item is kept; full length iff all are completed, empty iff none are |
| Dashboard.CompletedCount | components/dashboard-content.tsx:41 | 0 <= count <= length; count = length iff all items are completed; count = 0 iff none are |
| Dashboard.CompletedCountAppend | components/dashboard-content.tsx:41 | the count of a concatenation is the sum of the parts' counts |
| Dashboard.CompletedItemsOne | components/dashboard-content.tsx:41 | a one-item roadmap keeps its item iff it is completed |
| Dashboard.CompletedItemsConcat | components/dashboard-content.tsx:41 | the filter distributes over concatenation, so completed items keep their order and their multiplicity |
| Dashboard.CompletingAnItemCountsIt | components/dashboard-content.tsx:41 | marking one open item completed raises the count by exactly one |
| Dashboard.CompletingAnItemRaisesProgress | components/dashboard-content.tsx:42 | marking one open item completed strictly raises the progress percentage |
| Dashboard.ProgressPercentage | components/dashboard-content.tsx:42 | undefined (NaN) iff the roadmap is empty; otherwise in [0, 100]; 100 iff all items are completed; 0 iff none are |
| Dashboard.TrackLabel | components/dashboard-content.tsx:52 | "FAANG" iff the track is "faang"; "Startup" iff "startup"; "Balanced" otherwise |
| Dashboard.TrackOptionsGetDistinctLabels | components/dashboard-content.tsx:52 | the catalog's three track options get three different captions |
| Dashboard.BadgeVariant | components/dashboard-content.tsx:149-155 | "destructive" iff the priority is "high"; "default" iff "medium"; "secondary" otherwise |
| Dashboard.Preview | components/dashboard-content.tsx:138 | the first min(5, length) items, in their original order |
| Dashboard.TimelineShown | components/dashboard-content.tsx:80 | "3 months" when the field is missing or empty; otherwise the field unchanged |
| Dashboard.WeeklyHoursShown | components/dashboard-content.tsx:108 | "10-20" when the field is missing or empty; otherwise the field unchanged |
| Dashboard.ExampleDashboard | components/dashboard-content.tsx:19-28 | the example roadmap has one of eight items completed (12.5 percent), and five items are previewed |

## Findings

| source | as written | input that shows it | evidently intended | confidence | as-written member | corrected member |
|---|---|---|---|---|---|---|
| components/assessment-form.tsx:164-167 | On the last question the form stores only its own buffer and never calls `onNext`. The buffer starts empty at every step because of the remount, and holds only the current question's answer. So the stored record holds at most the last question's answer, and the page's merge-and-persist branch (app/assessment/page.tsx:23-26) is unreachable. | Pick "faang" on step 1, then press submit on all ten steps. The page's record holds `track = "faang"`, but the stored record is `{}`. | The stored record is the page's accumulated record, including every answer given. | medium; not executed | Session.AsWrittenLosesEarlierAnswers | Session.IntendedStoresAccumulated |

The corrected behaviour is `Form.HandleSubmitIntended`, selected by `Session.Build.Intended`. `Session.IntendedSubmitMergesBuffer` shows that its final submit stores the merge of every earlier answer with the last one. `Session.Step` takes the build as a parameter. The as-written build is the faithful model of the code.

## Left out

- Storage and navigation: `localStorage.setItem` and `window.location.href` are reduced to the abstract stored record.
- Rendering: JSX, framer-motion animations and the UI component library are not modelled, nor are the options' display labels and the textarea placeholder. Question titles are kept in the catalog.
- Session.Step: the source's `currentQuestion` at an index outside the catalog would be `undefined` and throw when rendered. The form functions therefore require a valid step. `Catalog.QuestionAt` models the failing lookup as OutOfRange.
- Answers.CheckedValues: for a stored non-empty string, the source's cast would return the string itself. The model returns `[]`. `Session.CheckedOptionsAreStoredList` shows that no reachable session stores a string under a checkbox question.
- Session.Step: a radio or select change is only accepted with one of the question's own option values, and a checkbox click only with one of its options. These are the only values the controls offer.
- Answers.Click: the checkbox library's `onCheckedChange` is modelled as reporting the negation of the shown state. `Answers.CheckboxChange` models the handler for any reported value.
- Wizard.Progress: the value is computed exactly over reals. Floating-point rounding and the dashboard's `Math.round` are not modelled.
- Wizard.StepLabel: the caption is modelled as the pair of numbers, not as a formatted string.
- Dashboard.ProgressPercentage: the empty-roadmap NaN is represented by `None`.
- The bare controller run (`Wizard.Run`) collects every persisted record, because the controller keeps no terminal state. The page leaving after the first store is modelled in `Session`.
- React state batching and closures: `handleNext` reads `formData` and `currentStep` from its render closure, but updates the step with `prev => prev + 1`. `handlePrevious` does the same. The model applies each event to the current state, so closure and state always agree.
- Wizard.RunInvariant: does not cover events from a stale form. The form sits in `AnimatePresence mode="wait"` with a 0.3 s exit animation (app/assessment/page.tsx:62-68). During that exit the old form stays mounted, with its old `step` and old closures. A quick second Next at step 8 passes the stale guard and moves the step to 10. A quick second Previous at step 1 moves it to -1. `questions[step]` is then `undefined`, and rendering throws. The invariant holds only for events delivered to the current form.
- Session.Run: keeps `Valid` (step in `[0, 10)`) only for events delivered to the current form. It has the same exit-animation window as `Wizard.RunInvariant`.
- Session.StoredIsFinal: the code does not stop handling events when it stores. Assigning `window.location.href` (components/assessment-form.tsx:167) does not end event handling before the page unloads, and nothing disables the submit button. A second click on "Complete Assessment" in that window stores again, possibly with a changed buffer. The model stops at the first store.
- The commented-out backend request in the form's submit handler is dead code.
- The third-party profile lookup (components/github-insights.tsx) is network I/O.
- The dashboard page's storage read and JSON parse (app/dashboard/page.tsx) depend on the browser store and a library parser.
- The hard-coded progress chart (components/progress-chart.tsx) and the landing page (app/page.tsx) are static content.
- The dashboard's skill-level text (capitalised by CSS) and the recommended resources are static display. The dashboard reads its example data, not the stored record.
