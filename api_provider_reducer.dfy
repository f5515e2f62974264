/**
 * The state of the "API provider" creation wizard and its reducer: the
 * transition function from (state, action) to the next state, the two step
 * functions it delegates to, and the derived selectors read by the wizard's
 * screens.
 */
module ApiProviderReducer {
  import opened Wrappers

  /** The three screens of the wizard. */
  datatype Step = UploadSpecification | EditSpecification | ReviewApiProvider

  /** How the user supplied the OpenAPI document: an uploaded file, or pasted text. */
  datatype UploaderType = File | Spec

  /** The user's current input: its kind, whether it passed the uploader's
      own check, and the raw document text when there is one. */
  datatype UploaderValue = UploaderValue(kind: UploaderType, valid: bool, spec: Option<string>)

  /** Payload fields the module never inspects, kept verbatim as text. */
  type Opaque = string

  /** The part of a successful validation result the wizard reads. */
  datatype ConfiguredProperties = ConfiguredProperties(specification: Option<string>, rest: Opaque)

  /** A successful validation result. */
  datatype ValidationResponse = ValidationResponse(configuredProperties: Option<ConfiguredProperties>, rest: Opaque)

  /** A failed validation result; each error entry is kept as opaque text. */
  datatype ValidationErrors = ValidationErrors(errors: Option<seq<Opaque>>, rest: Opaque)

  /** The wizard's whole state, replaced on every transition. */
  datatype State = State(
    loading: bool,
    loaded: bool,
    hasErrors: bool,
    uploadSpecification: UploaderValue,
    wizardStep: Step,
    validationResponse: Option<ValidationResponse>,
    validationErrors: Option<ValidationErrors>)

  /** The events the wizard reacts to; `Unrecognised` stands for any other action type. */
  datatype Action =
    | NextStepAction
    | PrevStepAction
    | UploadSpec(value: UploaderValue)
    | ValidateSpec
    | ValidateSpecComplete(response: ValidationResponse)
    | ValidateSpecFail(failure: ValidationErrors)
    | EditSpec
    | UpdateSpec(text: string)
    | CreateCancel
    | Unrecognised(tag: string)
  {
    /** The actions that only move between screens. */
    predicate Navigates() {
      NextStepAction? || PrevStepAction? || EditSpec?
    }

    /** The actions that end a validation request (or abandon the wizard). */
    predicate Settles() {
      ValidateSpecComplete? || ValidateSpecFail? || CreateCancel?
    }
  }

  /** The state the wizard opens with and returns to on cancel. */
  const Initial: State := State(
    loading := false,
    loaded := false,
    hasErrors := false,
    uploadSpecification := UploaderValue(File, false, None),
    wizardStep := UploadSpecification,
    validationResponse := None,
    validationErrors := None)

  /** The state invariant the transitions keep: the completion flag is never
      raised, a success and a failure are never both on record, and a recorded
      failure comes with its error payload and without a success. */
  predicate WellFormed(s: State) {
    && !s.loaded
    && !(s.validationResponse.Some? && s.validationErrors.Some?)
    && (s.hasErrors ==> s.validationResponse.None? && s.validationErrors.Some?)
  }

  /** Forward navigation: leaves the upload screen, to the editor for pasted
      text and straight to the review otherwise; elsewhere it does nothing. */
  function NextStep(s: State): (r: State)
    ensures r == s.(wizardStep := r.wizardStep)
    ensures s.wizardStep != UploadSpecification ==> r == s
    ensures r.wizardStep != UploadSpecification
    ensures r.wizardStep == EditSpecification <==>
      s.wizardStep == EditSpecification
      || (s.wizardStep == UploadSpecification && s.uploadSpecification.kind == Spec)
  {
    match s.wizardStep
    case UploadSpecification =>
      s.(wizardStep := if s.uploadSpecification.kind == Spec then EditSpecification else ReviewApiProvider)
    case _ => s
  }

  /** Backward navigation: the review goes back to the upload, the editor goes
      back to the review, and the upload screen stays where it is. */
  function PreviousStep(s: State): (r: State)
    ensures r == s.(wizardStep := r.wizardStep)
    ensures s.wizardStep == UploadSpecification ==> r == s
    ensures r.wizardStep != EditSpecification
    ensures r.wizardStep == UploadSpecification <==> s.wizardStep != EditSpecification
  {
    match s.wizardStep
    case ReviewApiProvider => s.(wizardStep := UploadSpecification)
    case EditSpecification => s.(wizardStep := ReviewApiProvider)
    case UploadSpecification => s
  }

  /** The reducer: total over every action. */
  function Reduce(s: State, a: Action): (r: State)
    ensures a.Unrecognised? ==> r == s
    ensures a.CreateCancel? ==> r == Initial
    ensures a.Navigates() ==> r == s.(wizardStep := r.wizardStep)
    // the validation record changes only when a validation ends or the wizard is cancelled
    ensures !a.Settles() ==>
      r.validationResponse == s.validationResponse && r.validationErrors == s.validationErrors
    // the user's input changes only when it is uploaded, edited or discarded
    ensures r.uploadSpecification != s.uploadSpecification ==>
      a.UploadSpec? || a.UpdateSpec? || a.CreateCancel?
    ensures a.ValidateSpec? ==> r.loading && !r.hasErrors
    ensures a.Settles() ==> !r.loading
    ensures WellFormed(s) ==> WellFormed(r)
  {
    match a
    case NextStepAction => NextStep(s)
    case PrevStepAction => PreviousStep(s)
    case UploadSpec(value) => s.(uploadSpecification := value)
    case ValidateSpec => s.(loading := true, hasErrors := false)
    case ValidateSpecComplete(response) =>
      s.(validationResponse := Some(response),
         validationErrors := None,
         loading := false,
         hasErrors := false,
         wizardStep := ReviewApiProvider)
    case ValidateSpecFail(failure) =>
      s.(loading := false,
         hasErrors := true,
         validationResponse := None,
         validationErrors := Some(failure),
         wizardStep := UploadSpecification)
    case EditSpec => s.(wizardStep := EditSpecification)
    case UpdateSpec(text) =>
      s.(uploadSpecification := UploaderValue(Spec, true, Some(text)),
         wizardStep := ReviewApiProvider)
    case CreateCancel => Initial
    case Unrecognised(_) => s
  }

  /** Whether a validation result carrying configured properties is on record. */
  predicate HasConfiguredProperties(s: State) {
    s.validationResponse.Some? && s.validationResponse.value.configuredProperties.Some?
  }

  /** The error list of the recorded failure; absent when no failure is recorded. */
  function ValidationError(s: State): (r: Option<seq<Opaque>>)
    ensures s.validationErrors.None? ==> r.None?
    ensures s.validationErrors.Some? ==> r == s.validationErrors.value.errors
  {
    match s.validationErrors
    case None => None
    case Some(failure) => failure.errors
  }

  /** The specification text the wizard works with: the validated one when the
      validation result carries configured properties, else the pasted text,
      else nothing. */
  function Specification(s: State): (r: Option<string>)
    ensures HasConfiguredProperties(s) ==>
      r == s.validationResponse.value.configuredProperties.value.specification
    ensures !HasConfiguredProperties(s) && s.uploadSpecification.kind == Spec ==>
      r == s.uploadSpecification.spec
    ensures !HasConfiguredProperties(s) && s.uploadSpecification.kind == File ==> r.None?
  {
    if HasConfiguredProperties(s) then
      s.validationResponse.value.configuredProperties.value.specification
    else if s.uploadSpecification.kind == Spec then
      s.uploadSpecification.spec
    else
      None
  }

  /** The initial state: idle, no errors, an invalid file upload, on the upload screen. */
  lemma InitialState()
    ensures !Initial.loading && !Initial.loaded && !Initial.hasErrors
    ensures Initial.uploadSpecification.kind == File && !Initial.uploadSpecification.valid
    ensures Initial.wizardStep == UploadSpecification
    ensures WellFormed(Initial)
    ensures Specification(Initial).None? && ValidationError(Initial).None?
  {
  }

  /** Forward navigation reaches a screen from which it goes nowhere. */
  lemma NextStepIdempotent(s: State)
    ensures NextStep(NextStep(s)) == NextStep(s)
  {
  }

  /** Back then forward restores the review screen exactly when the input is a
      file; forward then back restores the upload screen under the same
      condition; and back then forward never returns to the editor. */
  lemma NavigationRoundTrips(s: State)
    ensures s.wizardStep == ReviewApiProvider ==>
      (NextStep(PreviousStep(s)) == s <==> s.uploadSpecification.kind == File)
    ensures s.wizardStep == UploadSpecification ==>
      (PreviousStep(NextStep(s)) == s <==> s.uploadSpecification.kind == File)
    ensures s.wizardStep == EditSpecification ==> NextStep(PreviousStep(s)) != s
  {
  }

  /** NEXT_STEP and PREV_STEP are the two step functions and move only the screen. */
  lemma ReduceNavigation(s: State)
    ensures Reduce(s, NextStepAction) == s.(wizardStep := NextStep(s).wizardStep)
    ensures Reduce(s, PrevStepAction) == s.(wizardStep := PreviousStep(s).wizardStep)
  {
  }

  /** EDIT_SPEC opens the editor and changes nothing else. */
  lemma ReduceEditSpec(s: State)
    ensures Reduce(s, EditSpec) == s.(wizardStep := EditSpecification)
  {
  }

  /** UPLOAD_SPEC stores its payload verbatim and changes nothing else. */
  lemma ReduceUploadSpec(s: State, value: UploaderValue)
    ensures Reduce(s, UploadSpec(value)) == s.(uploadSpecification := value)
  {
  }

  /** VALIDATE_SPEC marks a request in flight and clears the failure flag, keeping
      the previous result on record. */
  lemma ReduceValidateSpec(s: State)
    ensures Reduce(s, ValidateSpec) == s.(loading := true, hasErrors := false)
    ensures ValidationError(Reduce(s, ValidateSpec)) == ValidationError(s)
  {
  }

  /** VALIDATE_SPEC_COMPLETE records the result, clears any failure, stops
      loading and shows the review; the validated text then wins the selector. */
  lemma ReduceValidateComplete(s: State, response: ValidationResponse)
    ensures Reduce(s, ValidateSpecComplete(response)) ==
      s.(validationResponse := Some(response), validationErrors := None,
         loading := false, hasErrors := false, wizardStep := ReviewApiProvider)
    ensures ValidationError(Reduce(s, ValidateSpecComplete(response))).None?
    ensures response.configuredProperties.Some? ==>
      Specification(Reduce(s, ValidateSpecComplete(response))) == response.configuredProperties.value.specification
  {
  }

  /** VALIDATE_SPEC_FAIL records the failure, drops any result, stops loading
      and returns to the upload; the error selector yields the payload's list
      and the specification falls back to the user's own input. */
  lemma ReduceValidateFail(s: State, failure: ValidationErrors)
    ensures Reduce(s, ValidateSpecFail(failure)) ==
      s.(loading := false, hasErrors := true, validationResponse := None,
         validationErrors := Some(failure), wizardStep := UploadSpecification)
    ensures ValidationError(Reduce(s, ValidateSpecFail(failure))) == failure.errors
    ensures Specification(Reduce(s, ValidateSpecFail(failure))) ==
      (if s.uploadSpecification.kind == Spec then s.uploadSpecification.spec else None)
  {
  }

  /** UPDATE_SPEC replaces the input by valid pasted text and shows the review;
      with no configured properties on record, that text is the specification. */
  lemma ReduceUpdateSpec(s: State, text: string)
    ensures Reduce(s, UpdateSpec(text)) ==
      s.(uploadSpecification := UploaderValue(Spec, true, Some(text)), wizardStep := ReviewApiProvider)
    ensures !HasConfiguredProperties(s) ==> Specification(Reduce(s, UpdateSpec(text))) == Some(text)
  {
  }

  /** CREATE_CANCEL discards everything, whatever the state was. */
  lemma ReduceCreateCancel(s: State, t: State)
    ensures Reduce(s, CreateCancel) == Reduce(t, CreateCancel) == Initial
    ensures WellFormed(Reduce(s, CreateCancel))
  {
  }

  /** Any other action leaves the state as it is. */
  lemma ReduceUnrecognised(s: State, tag: string)
    ensures Reduce(s, Unrecognised(tag)) == s
  {
  }
}
