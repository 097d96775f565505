/** The lifecycle graph of a PDF job. */
module JobStatus {

  datatype Status =
    | Queued | Analyzing | Optimizing | Validating
    | Completed | Failed | Cancelled | Expired
    | Unknown

  const KNOWN: set<Status> :=
    {Queued, Analyzing, Optimizing, Validating, Completed, Failed, Cancelled, Expired}

  /** The transitions table: the allowed direct successors of each status. */
  function Successors(s: Status): seq<Status> {
    match s
    case Queued => [Analyzing, Failed, Cancelled]
    case Analyzing => [Queued, Optimizing, Completed, Failed, Cancelled]
    case Optimizing => [Queued, Validating, Failed, Cancelled]
    case Validating => [Queued, Optimizing, Completed, Failed, Cancelled]
    case Completed => [Expired]
    case Failed => [Expired]
    case Cancelled => [Expired]
    case Expired => []
    case Unknown => []
  }

  predicate CanTransition(s: Status, next: Status) {
    next in Successors(s)
  }

  predicate ValidTransition(current: Status, next: Status) {
    current in KNOWN && next in KNOWN && CanTransition(current, next)
  }

  predicate Terminal(s: Status) {
    s == Completed || s == Failed || s == Cancelled || s == Expired
  }

  /** The statuses under which a worker holds a lease. */
  predicate Active(s: Status) {
    s == Analyzing || s == Optimizing || s == Validating
  }

  /** The graph read from its targets: which statuses each status can be entered from. */
  lemma EnteredFrom(s: Status)
    ensures !CanTransition(s, Unknown)
    ensures CanTransition(s, Analyzing) <==> s == Queued
    ensures CanTransition(s, Queued) <==> Active(s)
    ensures CanTransition(s, Optimizing) <==> s == Analyzing || s == Validating
    ensures CanTransition(s, Validating) <==> s == Optimizing
    ensures CanTransition(s, Completed) <==> s == Analyzing || s == Validating
    ensures CanTransition(s, Failed) <==> s == Queued || Active(s)
    ensures CanTransition(s, Cancelled) <==> s == Queued || Active(s)
    ensures CanTransition(s, Expired) <==> Terminal(s) && s != Expired
  {
  }
}
