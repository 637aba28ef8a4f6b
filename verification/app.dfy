/**
 The component's state and its handlers as pure transitions. The generation
 call is cut out: issuing it is an output of the submit transition, and its
 settlement arrives later as an event carrying the response or what was thrown.
 */
module App {
  import opened Types
  import Text
  import Form
  import Expansion
  import Rendering

  const RequiredMessage := "Story Title and Acceptance Criteria are required"
  const FallbackMessage := "Failed to generate tests"

  /** The ticket list a successful connect fabricates. */
  const MockTickets: seq<string> := ["PROJ-123", "PROJ-456", "PROJ-789", "PROJ-101", "PROJ-202"]

  const NoCredentials := Credentials("", "", "")

  /** Every piece of component state, one field per `useState`. */
  datatype AppState = AppState(
    showJiraModal: bool,
    credentials: Credentials,
    jiraConnected: bool,
    jiraTickets: seq<string>,
    selectedJiraTicket: string,
    jiraStoryId: string,
    form: Request,
    results: Option<Response>,
    isLoading: bool,
    error: Option<string>,
    expanded: set<string>)

  /** The state on first render. */
  const Initial := AppState(false, NoCredentials, false, [], "", "", Form.EmptyRequest, None, false, None, {})

  /** The tracker panel's state is the same in `a` and `b`. */
  predicate SameTracker(a: AppState, b: AppState) {
    && a.showJiraModal == b.showJiraModal
    && a.credentials == b.credentials
    && a.jiraConnected == b.jiraConnected
    && a.jiraTickets == b.jiraTickets
    && a.selectedJiraTicket == b.selectedJiraTicket
  }

  /** The submission state (results, loading flag, error) is the same. */
  predicate SameSubmission(a: AppState, b: AppState) {
    a.results == b.results && a.isLoading == b.isLoading && a.error == b.error
  }

  // Results panel and form

  /** `toggleTestCaseExpansion(id)`: flips `id`'s membership in the expanded
      set and touches nothing else. */
  function ToggleRow(st: AppState, id: string): (r: AppState)
    ensures id in r.expanded <==> id !in st.expanded
    ensures forall x :: x != id ==> (x in r.expanded <==> x in st.expanded)
    ensures r == st.(expanded := r.expanded)
  {
    st.(expanded := Expansion.Toggle(st.expanded, id))
  }

  /** `handleInputChange(field, value)`: the named field takes the value; the
      other three fields and all other state keep theirs. */
  function EditForm(st: AppState, f: Field, v: string): (r: AppState)
    ensures Form.FieldValue(r.form, f) == v
    ensures forall g :: g != f ==> Form.FieldValue(r.form, g) == Form.FieldValue(st.form, g)
    ensures r == st.(form := r.form)
  {
    st.(form := Form.EditField(st.form, f, v))
  }

  // Submission lifecycle

  /** A transition's next state, and the request sent to the generation
      service if the transition issues the call. */
  datatype Transition = Transition(next: AppState, call: Option<Request>)

  /** The synchronous part of `handleSubmit`. A title or acceptance criteria
      that is blank sets the fixed error and issues nothing, leaving the
      loading flag and results alone; otherwise the call is issued with the
      current form, loading starts and the error is cleared. The form is never
      changed. */
  function SubmitStart(st: AppState): (t: Transition)
    ensures t.call.None? <==> Text.IsBlank(st.form.storyTitle) || Text.IsBlank(st.form.acceptanceCriteria)
    ensures t.call.None? ==> t.next == st.(error := Some(RequiredMessage))
    ensures t.call.Some? ==> t.call.value == st.form
    ensures t.call.Some? ==> t.next.isLoading && t.next.error.None?
    ensures t.call.Some? ==> t.next == st.(isLoading := t.next.isLoading, error := t.next.error)
  {
    Form.MissingRequiredIffBlank(st.form);
    if Form.MissingRequired(st.form) then Transition(st.(error := Some(RequiredMessage)), None)
    else Transition(st.(isLoading := true, error := None), Some(st.form))
  }

  /** The call resolved: the response replaces the results wholesale and
      loading ends. The form, the error, the tracker and the expanded set are
      left as they were; in particular the expanded set is not cleared. */
  function SubmitSuccess(st: AppState, resp: Response): (r: AppState)
    ensures r.results == Some(resp) && !r.isLoading
    ensures r.form == st.form && r.error == st.error && r.expanded == st.expanded
    ensures SameTracker(st, r) && r.jiraStoryId == st.jiraStoryId
  {
    st.(results := Some(resp), isLoading := false)
  }

  /** `err instanceof Error ? err.message : 'Failed to generate tests'`. */
  function FailureMessage(thrown: Thrown): (m: string)
    ensures thrown.ErrorObject? ==> m == thrown.message
    ensures thrown.OtherValue? ==> m == FallbackMessage
  {
    match thrown
    case ErrorObject(message) => message
    case OtherValue => FallbackMessage
  }

  /** The call rejected: the error becomes the thrown error's message, or the
      fallback text when what was thrown is not an `Error`; loading ends; the
      previous results stay exactly as they were, as do the form, the tracker
      and the expanded set. */
  function SubmitFailure(st: AppState, thrown: Thrown): (r: AppState)
    ensures thrown.ErrorObject? ==> r.error == Some(thrown.message)
    ensures thrown.OtherValue? ==> r.error == Some(FallbackMessage)
    ensures !r.isLoading
    ensures r.results == st.results && r.form == st.form && r.expanded == st.expanded
    ensures SameTracker(st, r) && r.jiraStoryId == st.jiraStoryId
  {
    st.(error := Some(FailureMessage(thrown)), isLoading := false)
  }

  /** The error banner: shown only for a non-empty error message. */
  function ErrorBanner(st: AppState): (banner: Option<string>)
    ensures banner.Some? <==> st.error.Some? && st.error.value != []
    ensures banner.Some? ==> banner.value == st.error.value
  {
    if st.error.Some? && st.error.value != [] then st.error else None
  }

  // Tracker panel

  /** `handleJiraCredentialChange(field, value)`. */
  function EditCredential(st: AppState, f: CredentialField, v: string): (r: AppState)
    ensures f.Url? ==> r.credentials == st.credentials.(url := v)
    ensures f.Email? ==> r.credentials == st.credentials.(email := v)
    ensures f.ApiToken? ==> r.credentials == st.credentials.(apiToken := v)
    ensures r == st.(credentials := r.credentials)
  {
    match f
    case Url => st.(credentials := st.credentials.(url := v))
    case Email => st.(credentials := st.credentials.(email := v))
    case ApiToken => st.(credentials := st.credentials.(apiToken := v))
  }

  /** `handleConnectToJira`. A credential field that is the empty string (not
      merely blank) leaves the state unchanged; otherwise the panel is marked
      connected, the modal closes and the ticket list becomes the fixed five
      tickets. Credentials, selection, story id, form, submission state and the
      expanded set are kept. */
  function Connect(st: AppState): (r: AppState)
    ensures st.credentials.url == [] || st.credentials.email == [] || st.credentials.apiToken == [] ==> r == st
    ensures st.credentials.url != [] && st.credentials.email != [] && st.credentials.apiToken != [] ==>
      && r.jiraConnected && !r.showJiraModal && r.jiraTickets == MockTickets
      && r.credentials == st.credentials && r.selectedJiraTicket == st.selectedJiraTicket
      && r.jiraStoryId == st.jiraStoryId && r.form == st.form
      && SameSubmission(st, r) && r.expanded == st.expanded
  {
    var c := st.credentials;
    if c.url == [] || c.email == [] || c.apiToken == [] then st
    else st.(jiraConnected := true, showJiraModal := false, jiraTickets := MockTickets)
  }

  /** `handleDisconnectJira`: clears the connected flag, the tickets, the
      selection and all three credentials; the modal flag, the story id, the
      form, the submission state and the expanded set are kept. */
  function Disconnect(st: AppState): (r: AppState)
    ensures !r.jiraConnected && r.jiraTickets == [] && r.selectedJiraTicket == []
    ensures r.credentials.url == [] && r.credentials.email == [] && r.credentials.apiToken == []
    ensures r.showJiraModal == st.showJiraModal && r.jiraStoryId == st.jiraStoryId
    ensures r.form == st.form && SameSubmission(st, r) && r.expanded == st.expanded
  {
    st.(jiraConnected := false, jiraTickets := [], selectedJiraTicket := "", credentials := NoCredentials)
  }

  // Events

  /** What the user (or the settling generation call) can do. */
  datatype Event =
    | ClickRow(id: string)
    | EditField(field: Field, value: string)
    | EditStoryId(value: string)
    | ClickSubmit
    | CallSucceeded(resp: Response)
    | CallFailed(thrown: Thrown)
    | OpenModal
    | CloseModal
    | EditCredentialField(credential: CredentialField, value: string)
    | ClickConnect
    | ClickDisconnect
    | SelectTicket(ticket: string)
    | ClickFetch

  /** The ids of the rows on screen. */
  function ShownIds(st: AppState): set<string> {
    if st.results.None? then {} else set tc | tc in st.results.value.cases :: tc.id
  }

  /** Whether the event can happen in `st`: the control is on screen and not
      disabled, or, for a settlement, a call is outstanding. A submit also
      needs the title and the acceptance criteria to be non-empty: both
      controls are marked `required`, and the browser's constraint validation
      cancels the submission of a form with an empty required control before
      the submit handler runs. */
  predicate Enabled(st: AppState, ev: Event) {
    match ev
    case ClickRow(id) => id in ShownIds(st)
    case EditField(_, _) => true
    case EditStoryId(_) => true
    case ClickSubmit => !st.isLoading && st.form.storyTitle != [] && st.form.acceptanceCriteria != []
    case CallSucceeded(_) => st.isLoading
    case CallFailed(_) => st.isLoading
    case OpenModal => !st.jiraConnected
    case CloseModal => st.showJiraModal
    case EditCredentialField(_, _) => st.showJiraModal
    case ClickConnect => st.showJiraModal
    case ClickDisconnect => st.jiraConnected
    case SelectTicket(t) => st.jiraConnected && (t == [] || t in st.jiraTickets)
    case ClickFetch => Text.Trim(st.jiraStoryId) != []
  }

  /** The event settles the outstanding generation call. */
  predicate Settles(st: AppState, ev: Event) {
    Enabled(st, ev) && (ev.CallSucceeded? || ev.CallFailed?)
  }

  /** The events of the submission lifecycle. */
  predicate IsSubmissionEvent(ev: Event) {
    ev.ClickSubmit? || ev.CallSucceeded? || ev.CallFailed?
  }

  /** Every other event: edits, row clicks and the tracker panel. None of
      them touches the results, the loading flag or the error. */
  function Interact(st: AppState, ev: Event): (r: AppState)
    requires !IsSubmissionEvent(ev)
    ensures SameSubmission(st, r)
  {
    match ev
    case ClickRow(id) => ToggleRow(st, id)
    case EditField(f, v) => EditForm(st, f, v)
    case EditStoryId(v) => st.(jiraStoryId := v)
    case OpenModal => st.(showJiraModal := true)
    case CloseModal => st.(showJiraModal := false)
    case EditCredentialField(f, v) => EditCredential(st, f, v)
    case ClickConnect => Connect(st)
    case ClickDisconnect => Disconnect(st)
    case SelectTicket(tk) => st.(selectedJiraTicket := tk)
    case ClickFetch => st
  }

  /** A submission event in a state where it is enabled: a submit click
      runs the synchronous part of the submit handler, a settlement ends the
      outstanding call. */
  function Submission(st: AppState, ev: Event): (t: Transition)
    requires IsSubmissionEvent(ev)
    ensures t.call.Some? ==> ev.ClickSubmit? && t.next.isLoading && t.call.value == st.form
    ensures !ev.ClickSubmit? ==> !t.next.isLoading && t.call.None?
    ensures ev.ClickSubmit? && t.call.None? ==> t.next.isLoading == st.isLoading
  {
    match ev
    case ClickSubmit => SubmitStart(st)
    case CallSucceeded(resp) => Transition(SubmitSuccess(st, resp), None)
    case CallFailed(thrown) => Transition(SubmitFailure(st, thrown), None)
  }

  /** One event. A disabled event changes nothing. Only an enabled submit
      click can issue the call, and only with the current form; it starts
      loading. Only a settlement ends loading. */
  function Step(st: AppState, ev: Event): (t: Transition)
    ensures !Enabled(st, ev) ==> t == Transition(st, None)
    ensures t.call.Some? ==> ev.ClickSubmit? && !st.isLoading && t.next.isLoading && t.call.value == st.form
    ensures Settles(st, ev) ==> st.isLoading && !t.next.isLoading && t.call.None?
    ensures !Settles(st, ev) && t.call.None? ==> t.next.isLoading == st.isLoading
  {
    if !Enabled(st, ev) then Transition(st, None)
    else if IsSubmissionEvent(ev) then Submission(st, ev)
    else Transition(Interact(st, ev), None)
  }

  /** The outcome of a sequence of events: the final state, the requests sent
      in order, and how many calls settled. */
  datatype RunResult = RunResult(final: AppState, calls: seq<Request>, settled: nat)

  function Run(st: AppState, events: seq<Event>): RunResult
    decreases |events|
  {
    if events == [] then RunResult(st, [], 0)
    else
      var t := Step(st, events[0]);
      var rest := Run(t.next, events[1..]);
      RunResult(
        rest.final,
        (if t.call.Some? then [t.call.value] else []) + rest.calls,
        (if Settles(st, events[0]) then 1 else 0) + rest.settled)
  }

  function Pending(st: AppState): nat {
    if st.isLoading then 1 else 0
  }

  /** Calls issued and calls settled balance, with the loading flag counting
      the one outstanding call: the submit control being disabled while
      loading means no second call is ever issued before the first settles. */
  lemma {:induction false} CallsBalance(st: AppState, events: seq<Event>)
    ensures var r := Run(st, events); |r.calls| + Pending(st) == r.settled + Pending(r.final)
    decreases |events|
  {
    if events != [] {
      CallsBalance(Step(st, events[0]).next, events[1..]);
    }
  }

  /** From the initial state, the calls issued exceed the calls settled by at
      most one, and by one exactly while loading. */
  lemma AtMostOneCallInFlight(events: seq<Event>)
    ensures |Run(Initial, events).calls| == Run(Initial, events).settled + Pending(Run(Initial, events).final)
  {
    CallsBalance(Initial, events);
  }

  /** What holds of every state the component can reach: nothing is shown as
      an error while loading; a disconnected panel holds no tickets and no
      selection; a connected panel holds exactly the fabricated tickets, a
      selection among them (or none), and its modal is closed. */
  predicate Consistent(st: AppState) {
    && (st.isLoading ==> st.error.None?)
    && (!st.jiraConnected ==> st.jiraTickets == [] && st.selectedJiraTicket == [])
    && (st.jiraConnected ==>
          && st.jiraTickets == MockTickets
          && !st.showJiraModal
          && (st.selectedJiraTicket == [] || st.selectedJiraTicket in MockTickets))
  }

  lemma InitialConsistent()
    ensures Consistent(Initial)
  {
  }

  /** Every event keeps the state consistent. */
  lemma StepKeepsConsistent(st: AppState, ev: Event)
    requires Consistent(st)
    ensures Consistent(Step(st, ev).next)
  {
  }

  /** Every sequence of events keeps the state consistent. */
  lemma {:induction false} RunKeepsConsistent(st: AppState, events: seq<Event>)
    requires Consistent(st)
    ensures Consistent(Run(st, events).final)
    decreases |events|
  {
    if events != [] {
      StepKeepsConsistent(st, events[0]);
      RunKeepsConsistent(Step(st, events[0]).next, events[1..]);
    }
  }

  /** A failed call after a successful one keeps the successful results on
      screen while showing the new error; both calls were sent with the
      unchanged form. */
  lemma FailureAfterSuccessKeepsResults(st: AppState, resp: Response, thrown: Thrown)
    requires !st.isLoading
    requires !Text.IsBlank(st.form.storyTitle) && !Text.IsBlank(st.form.acceptanceCriteria)
    ensures var t1 := Step(st, ClickSubmit);
      var s2 := Step(t1.next, CallSucceeded(resp)).next;
      var t3 := Step(s2, ClickSubmit);
      var s4 := Step(t3.next, CallFailed(thrown)).next;
      && t1.call == Some(st.form) && t3.call == Some(st.form)
      && s4.results == Some(resp)
      && s4.error == Some(FailureMessage(thrown))
      && !s4.isLoading
  {
  }

  /** A submission the handler rejects, because the title or the acceptance
      criteria is whitespace only (and non-empty, else the browser holds the
      submission back), issues no call and leaves everything but the error
      as it was. */
  lemma RejectedSubmitIssuesNothing(st: AppState)
    requires !st.isLoading
    requires st.form.storyTitle != [] && st.form.acceptanceCriteria != []
    requires Text.IsBlank(st.form.storyTitle) || Text.IsBlank(st.form.acceptanceCriteria)
    ensures var r := Run(st, [ClickSubmit]);
      && r.calls == []
      && r.final == st.(error := Some(RequiredMessage))
      && ErrorBanner(r.final) == Some(RequiredMessage)
  {
  }

  /** Clicking a shown row twice restores the state. */
  lemma ClickRowTwice(st: AppState, id: string)
    requires id in ShownIds(st)
    ensures Run(st, [ClickRow(id), ClickRow(id)]).final == st
  {
    var s1 := Step(st, ClickRow(id)).next;
    assert ShownIds(s1) == ShownIds(st);
    var s2 := Step(s1, ClickRow(id)).next;
    Expansion.ToggleTwice(st.expanded, id);
    assert s2 == st;
    assert [ClickRow(id)][1..] == [];
    assert Run(s1, [ClickRow(id)]).final == s2;
    var events := [ClickRow(id), ClickRow(id)];
    assert events[1..] == [ClickRow(id)];
  }

  /** Clicking the row of a collapsed case shows its step breakdown, one row
      per step. */
  lemma ClickRowShowsSteps(st: AppState, i: nat)
    requires st.results.Some? && i < |st.results.value.cases|
    requires st.results.value.cases[i].id !in st.expanded
    ensures var next := Step(st, ClickRow(st.results.value.cases[i].id)).next;
      var row := Rendering.CaseRows(next.results.value.cases, next.expanded)[i];
      && row.details.Some?
      && |row.details.value| == |st.results.value.cases[i].steps|
  {
  }

  /** The expanded set survives a new response: a case in the new response
      whose id was expanded before is shown expanded straight away. */
  lemma SuccessKeepsStaleExpansion(st: AppState, resp: Response, i: nat)
    requires st.isLoading
    requires i < |resp.cases| && resp.cases[i].id in st.expanded
    ensures var next := Step(st, CallSucceeded(resp)).next;
      Rendering.CaseRows(next.results.value.cases, next.expanded)[i].details
        == Some(Rendering.StepRows(resp.cases[i]))
  {
  }

  /** Credentials that are blank but not empty pass the connect check. */
  lemma ConnectDoesNotTrim(st: AppState)
    requires var c := st.credentials;
      && c.url != [] && c.email != [] && c.apiToken != []
      && Text.IsBlank(c.url) && Text.IsBlank(c.email) && Text.IsBlank(c.apiToken)
    ensures Connect(st).jiraConnected && Connect(st).jiraTickets == MockTickets
  {
  }

  /** Disconnecting after a connect leaves no trace of the connection in the
      tracker panel. */
  lemma ConnectThenDisconnect(st: AppState)
    requires Consistent(st) && st.showJiraModal
    requires st.credentials.url != [] && st.credentials.email != [] && st.credentials.apiToken != []
    ensures var r := Run(st, [ClickConnect, ClickDisconnect]).final;
      && !r.jiraConnected && r.jiraTickets == [] && r.selectedJiraTicket == []
      && r.credentials == NoCredentials
      && r.form == st.form && SameSubmission(st, r) && r.expanded == st.expanded
  {
  }

  /** The submit button and the browser's check of the two `required`
      controls: a call goes out exactly when nothing is loading and neither
      the title nor the acceptance criteria is blank; while loading, or with
      either required control empty, a submit changes nothing at all. */
  lemma SubmitGate(st: AppState)
    ensures Step(st, ClickSubmit).call.Some? <==>
      !st.isLoading && !Text.IsBlank(st.form.storyTitle) && !Text.IsBlank(st.form.acceptanceCriteria)
    ensures st.isLoading || st.form.storyTitle == [] || st.form.acceptanceCriteria == [] ==>
      Step(st, ClickSubmit) == Transition(st, None)
  {
    Form.MissingRequiredIffBlank(st.form);
  }

  /** The tracker panel shows the connect button only while disconnected,
      and the disconnect button and the ticket list only while connected;
      a selection is one of the listed tickets or the empty placeholder. */
  lemma TrackerControlsGate(st: AppState, ticket: string)
    ensures st.jiraConnected ==> Step(st, OpenModal).next == st
    ensures !st.jiraConnected ==> Step(st, ClickDisconnect).next == st
    ensures !st.jiraConnected || (ticket != [] && ticket !in st.jiraTickets) ==>
      Step(st, SelectTicket(ticket)).next == st
    ensures st.jiraConnected && ticket in st.jiraTickets ==>
      Step(st, SelectTicket(ticket)).next == st.(selectedJiraTicket := ticket)
  {
  }

  /** The credential inputs, Cancel, the close control and Connect exist only
      while the modal is open. */
  lemma ModalControlsGate(st: AppState, f: CredentialField, v: string)
    requires !st.showJiraModal
    ensures Step(st, EditCredentialField(f, v)).next == st
    ensures Step(st, ClickConnect).next == st
    ensures Step(st, CloseModal).next == st
  {
  }

  /** Only the rows of the current results can be clicked: with no results
      on screen, or for an id no shown case carries, a row click changes
      nothing. */
  lemma RowClickGate(st: AppState, id: string)
    requires st.results.None? || forall i :: 0 <= i < |st.results.value.cases| ==> st.results.value.cases[i].id != id
    ensures Step(st, ClickRow(id)).next == st
  {
    if st.results.Some? {
      assert id !in ShownIds(st);
    }
  }
}
