/** The states of a research run and the two transition tables over them: the one the package
    validator uses (architecture/tools/validate_package.py) and the one the application uses
    (src/model_forge/domain/runs.py). */
module RunStates {
  datatype Status =
    | Created | Preparing | Prepared | Running | CancellationRequested | Submitted | Validating
    | Promoting | Published | Cancelled | Failed | Rejected | Conflicted
    | CorrectionAuthorized | Correcting | CorrectionExhausted

  predicate IsCorrectionState(s: Status) {
    s.CorrectionAuthorized? || s.Correcting? || s.CorrectionExhausted?
  }

  /** The states a run journal may name. */
  type JournalStatus = s: Status | !IsCorrectionState(s) witness Created

  /** `LEGAL_RUN_TRANSITIONS`. */
  function JournalTransitions(s: JournalStatus): set<Status> {
    match s
    case Created => {Preparing, CancellationRequested}
    case Preparing => {Prepared, CancellationRequested, Failed}
    case Prepared => {Running, CancellationRequested, Failed}
    case Running => {Submitted, CancellationRequested, Failed}
    case CancellationRequested => {Cancelled}
    case Submitted => {Validating}
    case Validating => {Promoting, Rejected, Conflicted, Failed}
    case Promoting => {Published, Conflicted, Failed}
    case _ => {}
  }

  /** `_TRANSITIONS`, with the correction flow. */
  function RuntimeTransitions(s: Status): set<Status> {
    match s
    case Created => {Preparing, CancellationRequested, Failed}
    case Preparing => {Prepared, CancellationRequested, Conflicted, Failed}
    case Prepared => {Running, CancellationRequested, Failed}
    case Running => {Submitted, CancellationRequested, Failed}
    case CancellationRequested => {Cancelled}
    case Submitted => {Validating, Rejected, Failed}
    case Validating => {Promoting, Rejected, Conflicted, Failed}
    case Promoting => {Published, Conflicted, Failed}
    case Failed => {CorrectionAuthorized}
    case Rejected => {CorrectionAuthorized}
    case CorrectionAuthorized => {Correcting, CorrectionExhausted}
    case Correcting => {Submitted, CorrectionExhausted, Running}
    case _ => {}
  }

  /** The two tables disagree on exactly four transitions between journal states, all of them
      allowed only by the application. */
  lemma TablesDifferExactly(s: JournalStatus, t: JournalStatus)
    ensures t in JournalTransitions(s) ==> t in RuntimeTransitions(s)
    ensures t in RuntimeTransitions(s) && t !in JournalTransitions(s) <==>
      (s, t) in {(Created, Failed), (Preparing, Conflicted), (Submitted, Rejected), (Submitted, Failed)}
  {
  }
}
