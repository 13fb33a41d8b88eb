/** Session reuse (`authenticate`): the decision both entry points take before any other request. */
module Sessions {
  import opened Options
  import opened Entities

  /** What `authenticate` does: return the stored session without a request, store the fetched
      one, or end the run (`process.exit(1)`) reporting the rejected response. */
  datatype AuthDecision = Reuse(session: Session) | Store(session: Session) | Reject(response: Session)

  /** `stored` is what the session file holds (`None` when it was never written); `whoami` is
      the response the identity request would give; `isValidSession` is the unseen validity check. */
  function Authenticate(stored: Option<Session>, whoami: Session, isValidSession: Session -> bool): (r: AuthDecision)
    ensures stored.Some? && isValidSession(stored.value) <==> r.Reuse?
    ensures r.Reuse? ==> r.session == stored.value
    ensures r.Store? ==> r.session == whoami && isValidSession(whoami)
    ensures r.Reject? ==> r.response == whoami && !isValidSession(whoami)
  {
    if stored.Some? && isValidSession(stored.value) then Reuse(stored.value)
    else if isValidSession(whoami) then Store(whoami)
    else Reject(whoami)
  }

  /** Once a fetched session has been stored, the next run reuses it without a request,
      whatever the identity request would answer then. */
  lemma StoredSessionIsReused(stored: Option<Session>, whoami: Session, later: Session, isValidSession: Session -> bool)
    requires Authenticate(stored, whoami, isValidSession).Store?
    ensures Authenticate(Some(whoami), later, isValidSession) == Reuse(whoami)
  {
  }
}
