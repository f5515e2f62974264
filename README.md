# API provider wizard state, in Dafny

This project models the state container of the "API provider" creation wizard of the
Syndesis integration platform's web UI. The wizard has three screens: upload an OpenAPI
specification, edit it, and review the resulting API provider. The container records:

- which screen is shown;
- the user's input, an uploaded file or pasted text;
- the outcome of the last validation of that input, a result or a failure;
- whether a validation request is in flight.

The container is a pure reducer. It maps the current state and a dispatched action to the
next state. Selectors read derived values off the state.

The model has three modules:

- `Wrappers` (`wrappers.dfy`) holds `Option`. It stands for the source's null or undefined fields.
- `ApiProviderReducer` (`api_provider_reducer.dfy`) models the state record and the initial
  state. It also holds the two step functions `NextStep` and `PreviousStep`, the reducer
  `Reduce`, and the selectors `ValidationError` and `Specification`. Each function's
  `ensures` states what the function means. A lemma per action states exactly which fields
  that action changes.
- `ApiProviderRuns` (`api_provider_runs.dfy`) models what the store does with the reducer.
  `Run` feeds a sequence of dispatched actions to the reducer from a given state. The lemmas
  there hold for every history:
  - every reachable state satisfies the invariant `WellFormed`;
  - a cancel forgets everything dispatched before it;
  - unrecognised actions have no effect;
  - a validation request stays in flight until its outcome or a cancel arrives.

`WellFormed` is the state invariant the reducer keeps:

- `loaded` is never raised;
- a validation result and a validation failure are never on record together;
- `hasErrors` implies that a failure, and no result, is on record.

One might expect exactly one of the two payloads to be meaningful at a time, gated by
`hasErrors`. The code does not keep that. After a failure, `VALIDATE_SPEC` (lines 76-82)
clears `hasErrors` but keeps `validationErrors`, so the model proves only the three facts
above. The lemma `StaleFailureAfterRevalidate` exhibits that state.

The specification selector returns `configuredProperties.specification` whenever
`configuredProperties` is present (lines 179-181), even when that field is absent. It then
does not fall back to the pasted text. `Specification` models it this way.

## Model

| member | source | states |
|---|---|---|
| `ApiProviderReducer.NextStep` | app/ui/src/app/integration/api-provider/api-provider.reducer.ts:19-35 | only `wizardStep` changes; any screen but the upload screen is left alone; the result is never the upload screen; it is the editor exactly when the state was already on the editor, or was on the upload screen with pasted text |
| `ApiProviderReducer.PreviousStep` | app/ui/src/app/integration/api-provider/api-provider.reducer.ts:37-54 | only `wizardStep` changes; the upload screen is left alone; the result is never the editor; it is the upload screen exactly when the state was not on the editor |
| `ApiProviderReducer.Reduce` | app/ui/src/app/integration/api-provider/api-provider.reducer.ts:56-135 | unrecognised actions are the identity; cancel yields the initial state; navigation actions change only the screen; the validation record changes only on complete, fail or cancel; the input changes only on upload, update or cancel; `VALIDATE_SPEC` sets loading and clears the error flag; complete, fail and cancel clear loading; `WellFormed` is preserved |
| `ApiProviderReducer.ValidationError` | app/ui/src/app/integration/api-provider/api-provider.reducer.ts:155-158 | absent when no failure is on record, otherwise the failure payload's `errors` list, itself possibly absent |
| `ApiProviderReducer.Specification` | app/ui/src/app/integration/api-provider/api-provider.reducer.ts:175-187 | the validated `configuredProperties.specification` when the result carries configured properties; otherwise the pasted text for a `Spec` input; otherwise absent |
| `ApiProviderReducer.InitialState` | app/ui/src/app/integration/api-provider/api-provider.reducer.ts:8-17 | the initial state is idle, not loaded and without errors; it holds an invalid `File` input and shows the upload screen; it is `WellFormed`; both selectors are absent on it |
| `ApiProviderReducer.NextStepIdempotent` | app/ui/src/app/integration/api-provider/api-provider.reducer.ts:20-33 | applying `NextStep` twice is the same as applying it once |
| `ApiProviderReducer.NavigationRoundTrips` | app/ui/src/app/integration/api-provider/api-provider.reducer.ts:19-54 | from the review, back then forward restores the state exactly when the input is a file; from the upload screen, forward then back restores it under the same condition; from the editor, back then forward never returns to the editor |
| `ApiProviderReducer.ReduceNavigation` | app/ui/src/app/integration/api-provider/api-provider.reducer.ts:61-67 | `NEXT_STEP` and `PREV_STEP` change only `wizardStep`, to the value the step functions give |
| `ApiProviderReducer.ReduceEditSpec` | app/ui/src/app/integration/api-provider/api-provider.reducer.ts:106-111 | `EDIT_SPEC` sets the editor screen and changes nothing else |
| `ApiProviderReducer.ReduceUploadSpec` | app/ui/src/app/integration/api-provider/api-provider.reducer.ts:69-74 | `UPLOAD_SPEC` stores its payload verbatim as the input and changes nothing else |
| `ApiProviderReducer.ReduceValidateSpec` | app/ui/src/app/integration/api-provider/api-provider.reducer.ts:76-82 | `VALIDATE_SPEC` sets `loading`, clears `hasErrors` and changes nothing else; the error selector is unchanged |
| `ApiProviderReducer.ReduceValidateComplete` | app/ui/src/app/integration/api-provider/api-provider.reducer.ts:84-93 | `VALIDATE_SPEC_COMPLETE` records the result, clears the failure, clears both flags and shows the review, and changes nothing else; the error selector is then absent; with configured properties, the specification selector yields the validated text |
| `ApiProviderReducer.ReduceValidateFail` | app/ui/src/app/integration/api-provider/api-provider.reducer.ts:95-104 | `VALIDATE_SPEC_FAIL` records the failure, clears the result, clears `loading`, sets `hasErrors` and shows the upload screen, and changes nothing else; the error selector yields the payload's `errors`; the specification selector falls back to the user's input |
| `ApiProviderReducer.ReduceUpdateSpec` | app/ui/src/app/integration/api-provider/api-provider.reducer.ts:113-123 | `UPDATE_SPEC(p)` sets the input to valid pasted text `p` and shows the review, and changes nothing else; without configured properties on record, the specification selector then yields `p` |
| `ApiProviderReducer.ReduceCreateCancel` | app/ui/src/app/integration/api-provider/api-provider.reducer.ts:125-129 | `CREATE_CANCEL` yields the initial state from any two states alike, and the result is `WellFormed` |
| `ApiProviderReducer.ReduceUnrecognised` | app/ui/src/app/integration/api-provider/api-provider.reducer.ts:131-133 | any other action returns the state unchanged |
| `ApiProviderRuns.Run` | app/ui/src/app/integration/api-provider/api-provider.reducer.ts:56-59 | replaying a history from a `WellFormed` state ends in a `WellFormed` state |
| `ApiProviderRuns.RunAppend` | app/ui/src/app/integration/api-provider/api-provider.reducer.ts:56-59 | replaying two histories one after the other is replaying their concatenation |
| `ApiProviderRuns.ReachableWellFormed` | app/ui/src/app/integration/api-provider/api-provider.reducer.ts:8-135 | every state reachable from the initial state is `WellFormed`, so `loaded` is never true |
| `ApiProviderRuns.StaleFailureAfterRevalidate` | app/ui/src/app/integration/api-provider/api-provider.reducer.ts:76-104 | after a failure and a new validation request, `hasErrors` is false while the old failure stays on record and the error selector still yields its list |
| `ApiProviderRuns.ReachableFailureFallsBack` | app/ui/src/app/integration/api-provider/api-provider.reducer.ts:155-187 | in a reachable state with `hasErrors`, the error selector yields the recorded failure's list, and the specification selector yields the user's own input |
| `ApiProviderRuns.CancelForgetsHistory` | app/ui/src/app/integration/api-provider/api-provider.reducer.ts:125-129 | from any state, a history with a cancel in it ends in the same state as the part after the cancel replayed from the initial state |
| `ApiProviderRuns.UnrecognisedIgnored` | app/ui/src/app/integration/api-provider/api-provider.reducer.ts:131-133 | removing every unrecognised action from a history does not change where it ends |
| `ApiProviderRuns.LoadingUntilSettled` | app/ui/src/app/integration/api-provider/api-provider.reducer.ts:76-104 | once `loading` is set, it stays set through any history that holds no complete, fail or cancel action |

## Left out

- The store wiring is not modelled. This covers `createFeatureSelector`, `createSelector` and
  their memoisation, the `ApiProviderStore` interface and the `'apiProviderState'` feature key
  (lines 1-5 and 137-143). These are library calls. The selectors are plain functions of the
  state instead, and `Run` stands for the store's dispatch loop.
- The field selectors for step, input, result, loading and loaded (lines 145-173) only read
  one field each. They are the datatype's field accessors (`s.wizardStep`, `s.loading`, ...).
- Action type strings and the `ApiProviderActions`, `ApiProviderWizardSteps` and
  `OpenApiUploaderValueType` constants live in modules that are not part of this model. They
  become the `Action`, `Step` and `UploaderType` datatypes. Every unknown action type becomes
  `Unrecognised`.
- The default parameter `state = initialState` (line 57) is a calling convention. The initial
  state is passed explicitly, as `Initial`.
- JavaScript truthiness on `&&` and the `as string` cast (lines 157, 179-183) are not modelled
  as such. Null and undefined are both `None`, so the model does not tell apart a selector
  result of `null` (after line 88, or from line 185) from one of `undefined` (in the initial
  state, or from lines 180 and 183). Falsy payloads that are not objects are not modelled.
- Payloads are typed and never null. `UPLOAD_SPEC`, `VALIDATE_SPEC_COMPLETE`,
  `VALIDATE_SPEC_FAIL` and `UPDATE_SPEC` always carry a value in the model. The source's
  `action: any` would also accept a missing payload and store `undefined`; for `UPDATE_SPEC`
  that gives `spec: undefined` (line 118), where the model always has `Some(text)`.
- Value equality stands for the source's reference identity. Lines 32, 52 and 132 return
  `state` itself and line 127 builds a fresh copy each time; the model compares values only.
- `File` stands for every uploader type other than `Spec`. The source only ever tests
  `=== Spec` (lines 25 and 182).
- The validation payloads are opaque apart from the fields the selectors read:
  `configuredProperties.specification` and `errors`. Their other fields and each error entry
  are kept as uninterpreted text.
- A payload on `VALIDATE_SPEC` is not modelled, because the reducer ignores it.
