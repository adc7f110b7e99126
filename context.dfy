/** The application-wide state of context.tsx: the contact details collected on the
    first page and the quote form, each absent until dispatched, and `appReducer`. */
module AppContext {
  import opened Common

  /** Both slots start `null`; a payload that is `null` or missing is `None`. */
  datatype AppState<P> = AppState(contactInfo: Option<P>, quoteForm: Option<P>)

  /** An action is a type string and an optional payload. */
  datatype Action<P> = Action(kind: string, payload: Option<P>)

  const SetContactInfo: string := "SET_CONTACT_INFO"
  const SetQuoteForm: string := "SET_QUOTE_FORM"

  function InitialState<P>(): AppState<P> {
    AppState(None, None)
  }

  /** `appReducer`. */
  function AppReducer<P>(state: AppState<P>, action: Action<P>): (r: AppState<P>)
    ensures action.kind == SetContactInfo ==> r.contactInfo == action.payload && r.quoteForm == state.quoteForm
    ensures action.kind == SetQuoteForm ==> r.quoteForm == action.payload && r.contactInfo == state.contactInfo
    ensures action.kind != SetContactInfo && action.kind != SetQuoteForm ==> r == state
  {
    if action.kind == SetContactInfo then state.(contactInfo := action.payload)
    else if action.kind == SetQuoteForm then state.(quoteForm := action.payload)
    else state
  }

  /** The state after dispatching `actions` in order from the initial state. */
  function Replay<P>(actions: seq<Action<P>>): AppState<P> {
    if actions == [] then InitialState()
    else AppReducer(Replay(actions[..|actions| - 1]), actions[|actions| - 1])
  }

  /** The payload of the last action of type `kind`, `None` when there is none. */
  function LastPayload<P>(actions: seq<Action<P>>, kind: string): Option<P> {
    if actions == [] then None
    else if actions[|actions| - 1].kind == kind then actions[|actions| - 1].payload
    else LastPayload(actions[..|actions| - 1], kind)
  }

  /** Each slot holds what the last action of its own type carried, whatever other
      actions were dispatched in between. */
  lemma {:induction false} ReplayIsLastWrite<P>(actions: seq<Action<P>>)
    ensures Replay(actions).contactInfo == LastPayload(actions, SetContactInfo)
    ensures Replay(actions).quoteForm == LastPayload(actions, SetQuoteForm)
  {
    if actions != [] {
      ReplayIsLastWrite(actions[..|actions| - 1]);
    }
  }

  /** Dispatching the same action twice is dispatching it once. */
  lemma ReducerIdempotent<P>(state: AppState<P>, action: Action<P>)
    ensures AppReducer(AppReducer(state, action), action) == AppReducer(state, action)
  {
  }

  /** Actions of different types commute. */
  lemma DifferentKindsCommute<P>(state: AppState<P>, a: Action<P>, b: Action<P>)
    requires a.kind != b.kind
    ensures AppReducer(AppReducer(state, a), b) == AppReducer(AppReducer(state, b), a)
  {
  }
}
