/** The coordinator that advances or recovers one run
    (src/model_forge/application/run_coordinator.py).

    Every read and every write of the database is one step; between two steps the researcher may
    ask for cancellation and other runs may publish.  Role execution, validation and planning are
    foreign work: an oracle says how each piece of it ends. */
module RunCoordinator {
  import opened Wrappers
  import opened RunStates
  import opened PublicationHead

  const TERMINAL: set<Status> := {Published, Failed, Rejected, Conflicted, Cancelled, CorrectionExhausted}
  const CANCELLABLE: set<Status> := {Created, Preparing, Prepared, Running}
  const ITERATIONS := 24

  /** The receipt of a publication: the head it continued and the head it left. */
  datatype Receipt = Receipt(prior: Head, next: Head)

  /** What the database holds about one run, and the head of its project. */
  datatype Durable = Durable(status: Status, fenced: bool, submitted: bool, frozen: Option<Head>,
                             head: Head, receipts: seq<Receipt>)

  // ---------------------------------------------------------------- atomic writes

  /** A transition that read status `read`. */
  function Moved(d: Durable, read: Status, target: Status): Durable {
    if d.status == read then d.(status := target) else d
  }

  function AskedToCancel(d: Durable): Durable {
    if d.status in CANCELLABLE && !d.submitted && !d.fenced
    then d.(status := CancellationRequested, fenced := true) else d
  }

  /** The head after a publication of at least one event. */
  function Next(h: Head, events: nat, root: int): Head {
    Head(h.sequence + events + 1, root, h.revision + 1)
  }

  /** The publication transaction of this run: it commits only against the frozen head. */
  function Publishes(d: Durable, events: nat, root: int): Durable {
    if d.frozen == Some(d.head)
    then d.(head := Next(d.head, events, root), receipts := d.receipts + [Receipt(d.head, Next(d.head, events, root))])
    else d
  }

  // ---------------------------------------------------------------- what stays true

  /** A receipt exists only for a run that is promoting or published, there is at most one, and
      it continues exactly the frozen head. */
  ghost predicate Consistent(d: Durable) {
    && |d.receipts| <= 1
    && (d.receipts != [] ==>
          && d.status in {Promoting, Published} && d.frozen == Some(d.receipts[0].prior)
          && d.receipts[0].prior.sequence < d.head.sequence)
    && (d.status == Published ==> d.receipts != [])
    && (d.frozen.Some? ==> d.frozen.value.sequence <= d.head.sequence)
    && (d.status == Promoting ==> d.frozen.Some?)
    && (d.fenced <==> d.status in {CancellationRequested, Cancelled})
    && !(d.submitted && d.fenced)
  }

  /** What others can do to a run between two steps of its coordinator. */
  ghost predicate Drift(d: Durable, e: Durable) {
    && e.submitted == d.submitted && e.frozen == d.frozen && e.receipts == d.receipts
    && d.head.sequence <= e.head.sequence
    && ((e.status == d.status && e.fenced == d.fenced)
        || (d.status in CANCELLABLE && !d.submitted && e.status == CancellationRequested && e.fenced))
  }

  /** How high a state is on the way to an end. */
  function Rank(s: Status): nat {
    match s
    case Created => 0
    case Preparing => 1
    case Prepared => 2
    case Running => 3
    case CancellationRequested => 4
    case Submitted => 4
    case Validating => 5
    case Promoting => 6
    case _ => 7
  }

  /** How a piece of foreign work ends. */
  datatype Work = Done | StillPending | RoleCancelled | RoleFailed | Refused | Conflict | Broken

  datatype Advance = Advanced | Pending | Raised(conflict: bool)

  datatype Ending = Finished | Waiting | Handled | Escaped | FuelSpent

  /** Where one pass of the loop can leave a run that it does not leave alone. */
  function Successors(s: Status): set<Status> {
    match s
    case Created => {Preparing, CancellationRequested}
    case Preparing => {Prepared, CancellationRequested}
    case Prepared => {Running, CancellationRequested}
    case Running => {Submitted, Failed, CancellationRequested, Cancelled}
    case CancellationRequested => {Cancelled}
    case Submitted => {Validating}
    case Validating => {Promoting, Rejected}
    case Promoting => {Published, Conflicted}
    case _ => {}
  }

  /** The way of a run that nothing disturbs, pass by pass. */
  const UNDISTURBED: seq<Status> := [Created, Preparing, Prepared, Running, Submitted, Validating, Promoting, Published]

  class Coordinator {
    var d: Durable
    var clock: nat
    const cancels: nat -> bool
    const elsewhere: nat -> Option<(nat, int)>
    const works: nat -> Work

    constructor (d: Durable, cancels: nat -> bool, elsewhere: nat -> Option<(nat, int)>, works: nat -> Work)
      ensures this.d == d && this.cancels == cancels && this.elsewhere == elsewhere && this.works == works
    {
      this.d, this.clock, this.cancels, this.elsewhere, this.works := d, 0, cancels, elsewhere, works;
    }

    /** Nobody asks for cancellation and nobody else publishes. */
    ghost predicate Alone() {
      forall i :: !cancels(i) && elsewhere(i).None?
    }

    /** Lets the others act once. */
    method Tick()
      modifies this
      ensures Drift(old(d), d) && (Consistent(old(d)) ==> Consistent(d))
      ensures Alone() ==> d == old(d)
    {
      if cancels(clock) { d := AskedToCancel(d); }
      match elsewhere(clock) {
        case Some(p) => d := d.(head := Next(d.head, p.0, p.1));
        case None =>
      }
      clock := clock + 1;
    }

    /** `RunLifecycle.transition`: it raises on an illegal target and ignores a lost swap. */
    method Transition(target: Status) returns (ok: bool)
      requires Consistent(d) && target != CancellationRequested
      requires if target == Published then d.receipts != [] && d.status == Promoting else d.receipts == []
      requires target == Promoting ==> d.frozen.Some?
      requires target == Cancelled ==> d.status == CancellationRequested
      modifies this
      ensures Consistent(d) && d.receipts == old(d.receipts) && d.submitted == old(d.submitted) && d.frozen == old(d.frozen)
      ensures !ok ==> Drift(old(d), d) && target !in RuntimeTransitions(d.status)
      ensures ok ==> d.status == target || (d.status == CancellationRequested && old(d.status) in CANCELLABLE)
      ensures ok && Rank(old(d.status)) < 7 ==> Rank(d.status) > Rank(old(d.status))
      ensures Alone() ==> (ok <==> target in RuntimeTransitions(old(d.status)))
      ensures Alone() && ok ==> d == old(d).(status := target)
      ensures old(d.submitted) ==> (ok <==> target in RuntimeTransitions(old(d.status))) && (ok ==> d.status == target)
    {
      Tick();
      var status := d.status;
      if target !in RuntimeTransitions(status) { return false; }
      if Rank(status) < 7 { TransitionsGoUp(status, target); }
      Tick();
      d := Moved(d, status, target);
      ok := true;
    }

    /** `_handle_error`: afterwards the run has ended or waits for its cancellation to settle.
        It raises itself only when the cancellation arrives between its two reads. */
    method HandleError(conflict: bool) returns (escaped: bool)
      requires Consistent(d) && d.receipts == []
      requires d.status in TERMINAL || Rank(d.status) < 7
      modifies this
      ensures Consistent(d) && d.receipts == [] && d.submitted == old(d.submitted)
      ensures escaped ==> d.status == CancellationRequested
      ensures d.status == CancellationRequested || d.status ==
        if old(d.status) in TERMINAL then old(d.status)
        else if conflict && old(d.status) in {Promoting, Preparing} then Conflicted
        else Failed
      ensures Alone() ==> d == old(d).(status := d.status)
      ensures Alone() && old(d.status) != CancellationRequested ==> d.status != CancellationRequested
    {
      Tick();
      var status := d.status;
      if status in TERMINAL || status == CancellationRequested { return false; }
      var ok: bool;
      if conflict && status in {Promoting, Preparing} {
        ok := Transition(Conflicted);
      } else {
        ok := Transition(Failed);
      }
      escaped := !ok;
    }

    /** `_prepare`: the head is captured first and frozen with the manifest, once. */
    method Prepare(w: Work) returns (a: Advance)
      requires Consistent(d) && d.status == Preparing
      modifies this
      ensures Consistent(d) && d.receipts == old(d.receipts) && d.submitted == old(d.submitted)
      ensures old(d.frozen).Some? ==> d.frozen == old(d.frozen)
      ensures a.Advanced? ==> d.status in Successors(Preparing) && d.frozen.Some?
      ensures a.Raised? ==> d.status in {Preparing, CancellationRequested}
      ensures old(d.frozen).None? && w != Done ==> a == Raised(w == Conflict) && d.frozen == None
      ensures Alone() && old(d.frozen).None? && w != Done ==> d == old(d)
      ensures Alone() && old(d.frozen).None? && w == Done ==>
        a.Advanced? && d == old(d).(status := Prepared, frozen := Some(old(d.head)))
      ensures Alone() && old(d.frozen).Some? ==> a.Advanced? && d == old(d).(status := Prepared)
      ensures Alone() && w == Done && OnTrack(old(d), Preparing) ==> a.Advanced? && OnTrack(d, Prepared)
      ensures old(d.submitted) ==> (a.Advanced? <==> old(d.frozen).Some? || w == Done) && (a.Advanced? ==> d.status == Prepared)
      ensures !a.Pending?
    {
      if d.frozen.None? {
        Tick();
        var basis := d.head;
        if w != Done { return Raised(w == Conflict); }
        Tick();
        d := d.(frozen := Some(basis));
      }
      var ok := Transition(Prepared);
      a := if ok then Advanced else Raised(false);
    }

    method Fail() returns (a: Advance)
      requires Consistent(d) && d.receipts == [] && d.status in {Running, CancellationRequested}
      modifies this
      ensures Consistent(d) && d.receipts == [] && d.submitted == old(d.submitted) && d.frozen == old(d.frozen)
      ensures a.Advanced? ==> d.status in {Failed, CancellationRequested}
      ensures a.Raised? ==> d.status == CancellationRequested
      ensures !a.Pending? && (Alone() && old(d.status) == Running ==> a.Advanced? && d.status == Failed)
      ensures old(d.submitted) && old(d.status) == Running ==> a.Advanced? && d.status == Failed
    {
      var ok := Transition(Failed);
      a := if ok then Advanced else Raised(false);
    }

    /** `_settle_cancellation`. */
    method SettleCancellation(settling: Work) returns (a: Advance)
      requires Consistent(d) && d.status == CancellationRequested
      modifies this
      ensures Consistent(d) && d.receipts == [] && d.submitted == old(d.submitted) && d.frozen == old(d.frozen)
      ensures a == if settling == StillPending then Pending else if settling == Done then Advanced else Raised(settling == Conflict)
      ensures d.status == if settling == Done then Cancelled else CancellationRequested
    {
      Tick();
      if settling == StillPending { return Pending; }
      if settling != Done { return Raised(settling == Conflict); }
      var ok := Transition(Cancelled);
      a := if ok then Advanced else Raised(false);
    }

    /** `_execute`, with the submission gate at its end: a run that already has a submission is
        reported as submitted without being moved. */
    method Execute(w: Work, settling: Work) returns (a: Advance)
      requires Consistent(d) && d.status == Running
      modifies this
      ensures Consistent(d) && d.receipts == [] && (old(d.submitted) ==> d.submitted)
      ensures d.frozen == old(d.frozen)
      ensures d.status in Successors(Running) + {Running}
      ensures a.Advanced? ==> d.status != Running || (old(d.submitted) && w == Done)
      ensures !a.Advanced? ==> d.status in {Running, CancellationRequested}
      ensures d.status == Running ==> d.submitted == old(d.submitted)
      ensures d.status == Submitted ==> w == Done && d.submitted
      ensures d.status == Failed ==> w in {RoleFailed, RoleCancelled}
      ensures w == StillPending ==> a.Pending?
      ensures a.Pending? ==> w == StillPending || (w in {Done, RoleCancelled} && settling == StillPending)
      ensures w == Done && old(d.submitted) ==> a.Advanced? && d.status == Running
      ensures old(d.submitted) ==> (a.Advanced? <==> w in {Done, RoleFailed, RoleCancelled})
      ensures old(d.submitted) && w in {RoleFailed, RoleCancelled} ==> d.status == Failed
      ensures Alone() && w == Done && !old(d.submitted) ==> a.Advanced? && d == old(d).(status := Submitted, submitted := true)
      ensures Alone() && w in {RoleFailed, RoleCancelled} ==> a.Advanced? && d.status == Failed
      ensures Alone() && w == Done && OnTrack(old(d), Running) ==> a.Advanced? && OnTrack(d, Submitted)
    {
      Tick();
      if w == StillPending { return Pending; }
      if w == Done {
        Tick();
        if d.submitted { return Advanced; }
        if !d.fenced {
          d := d.(status := Submitted, submitted := true);
          return Advanced;
        }
      }
      if w in {Done, RoleCancelled} {
        Tick();
        if d.status == CancellationRequested {
          a := SettleCancellation(settling);
        } else {
          a := Fail();
        }
        return;
      }
      if w == RoleFailed {
        a := Fail();
        return;
      }
      a := Raised(w == Conflict);
    }

    /** `_validate`. */
    method Validate(w: Work) returns (a: Advance)
      requires Consistent(d) && d.status == Validating
      modifies this
      ensures Consistent(d) && d.receipts == [] && d.submitted == old(d.submitted) && d.frozen == old(d.frozen)
      ensures w == Refused ==> a.Advanced? && d.status == Rejected
      ensures w == Done && old(d.frozen).Some? ==> a.Advanced? && d.status == Promoting
      ensures w != Refused && !(w == Done && old(d.frozen).Some?) ==> a == Raised(w == Conflict) && d.status == Validating
      ensures Alone() && w == Done && OnTrack(old(d), Validating) ==> OnTrack(d, Promoting)
    {
      Tick();
      var ok: bool;
      if w == Refused {
        ok := Transition(Rejected);
      } else if w == Done && d.frozen.Some? {
        ok := Transition(Promoting);
      } else {
        return Raised(w == Conflict);
      }
      a := if ok then Advanced else Raised(false);
    }

    /** `_promote`: a receipt found first means the publication was committed before; otherwise
        the plan is built again and one publication is attempted against the frozen head. */
    method Promote(w: Work, events: nat, root: int) returns (a: Advance)
      requires Consistent(d) && d.status == Promoting
      modifies this
      ensures Consistent(d) && old(d.receipts) <= d.receipts && d.submitted == old(d.submitted)
      ensures old(d.receipts) != [] ==> a.Advanced? && d.receipts == old(d.receipts)
      ensures old(d.receipts) == [] && w != Done ==> a == Raised(w == Conflict) && d.status == Promoting && d.receipts == []
      ensures old(d.receipts) == [] && w == Done ==> a.Advanced?
      ensures a.Advanced? ==> d.status == (if d.receipts != [] then Published else Conflicted)
      ensures Alone() && old(d.receipts) != [] ==> d == old(d).(status := Published)
      ensures Alone() && old(d.receipts) == [] && w != Done ==> d == old(d)
      ensures Alone() && old(d.receipts) == [] && w == Done ==>
        d == if old(d.frozen) != Some(old(d.head)) then old(d).(status := Conflicted)
             else old(d).(status := Published, head := Next(old(d.head), events, root),
                          receipts := [Receipt(old(d.head), Next(old(d.head), events, root))])
      ensures Alone() && w == Done && OnTrack(old(d), Promoting) ==> OnTrack(d, Published)
    {
      Tick();
      if d.receipts == [] {
        if w != Done { return Raised(w == Conflict); }
        Tick();
        d := Publishes(d, events, root);
      }
      Tick();
      var ok: bool;
      if d.receipts != [] {
        ok := Transition(Published);
      } else {
        ok := Transition(Conflicted);
      }
      a := if ok then Advanced else Raised(false);
    }

    /** The passes that only move the run. */
    method MoveOn(status: Status) returns (a: Advance)
      requires Consistent(d) && d.status == status && status in {Created, Prepared, Submitted}
      modifies this
      ensures Consistent(d) && d.receipts == [] && d.submitted == old(d.submitted)
      ensures a.Advanced? ==> d.status in Successors(status)
      ensures !a.Advanced? ==> a == Raised(false) && d.status in {status, CancellationRequested}
      ensures Alone() && OnTrack(old(d), status) ==> a.Advanced? && OnTrack(d, After(status))
      ensures d.frozen == old(d.frozen)
      ensures old(d.submitted) ==> a.Advanced? && d.status == After(status)
    {
      var ok: bool;
      if status == Created {
        ok := Transition(Preparing);
      } else if status == Prepared {
        ok := Transition(Running);
      } else {
        ok := Transition(Validating);
      }
      a := if ok then Advanced else Raised(false);
    }

    /** One pass of the loop body, for a status just read. */
    method Iterate(status: Status, w: Work, settling: Work, events: nat, root: int) returns (a: Advance)
      requires Consistent(d) && d.status == status && status !in TERMINAL
      modifies this
      ensures Consistent(d) && old(d.receipts) <= d.receipts && (old(d.submitted) ==> d.submitted)
      ensures Rank(d.status) <= Rank(Running) ==> d.submitted == old(d.submitted)
      ensures a.Advanced? ==> d.status in Successors(status) || (status == d.status == Running && old(d.submitted))
      ensures a.Pending? ==> d.status in {Running, CancellationRequested, CorrectionAuthorized, Correcting}
      ensures a.Raised? ==> d.receipts == [] && Rank(d.status) < 7
      ensures status in {CorrectionAuthorized, Correcting} ==> a.Pending? && d == old(d)
      ensures status == Running && w == Done && old(d.submitted) ==> a.Advanced? && d.status == Running
      ensures Alone() && w == Done && OnTrack(old(d), status) ==> a.Advanced? && OnTrack(d, After(status))
      ensures old(d.submitted) && Rank(status) <= Rank(Running) ==> GoesRound(old(d), status, w, a.Advanced?, d)
    {
      if status == Preparing {
        a := Prepare(w);
      } else if status == Running {
        a := Execute(w, settling);
      } else if status == CancellationRequested {
        a := SettleCancellation(settling);
      } else if status == Validating {
        a := Validate(w);
      } else if status == Promoting {
        a := Promote(w, events, root);
      } else if status == CorrectionAuthorized || status == Correcting {
        a := Pending;
      } else {
        a := MoveOn(status);
      }
    }

    /** One pass: `None` goes around the loop again. */
    method Pass(w: Work, settling: Work, events: nat, root: int) returns (end: Option<Ending>)
      requires Consistent(d)
      modifies this
      ensures Consistent(d) && old(d.receipts) <= d.receipts && (old(d.submitted) ==> d.submitted)
      ensures Rank(d.status) <= Rank(Running) ==> d.submitted == old(d.submitted)
      ensures Ended(end, d)
      ensures end.None? ==>
        Rank(d.status) > Rank(old(d.status)) || (d.status == old(d.status) == Running && old(d.submitted))
      ensures old(d.submitted) && Rank(old(d.status)) <= Rank(Running) ==> GoesRound(old(d), old(d.status), w, end.None?, d)
      ensures old(d.status) in TERMINAL ==> end == Some(Finished)
      ensures Alone() && old(d.status) in TERMINAL ==> end == Some(Finished) && d == old(d)
      ensures Alone() && w == Done && old(d.status) !in TERMINAL && OnTrack(old(d), old(d.status)) ==>
        end.None? && OnTrack(d, After(old(d.status)))
    {
      Tick();
      var status := d.status;
      if status in TERMINAL { return Some(Finished); }
      var a := Iterate(status, w, settling, events, root);
      if a.Pending? { return Some(Waiting); }
      if a.Raised? {
        var escaped := HandleError(a.conflict);
        return Some(if escaped then Escaped else Handled);
      }
      SuccessorsAreHigher(status, d.status);
      end := None;
    }

    /** `run`.  The fuel ends the loop exactly for a run that was submitted before it was executed
        and whose plan then completes in every pass; only the last pass may fail the run instead.
        In every other case it ends because the run ended, waits for others, or an error was
        sealed.  A new run that nothing disturbs is published, with one receipt. */
    method Run(settling: Work, events: nat, root: int) returns (end: Ending)
      requires Consistent(d)
      modifies this
      ensures Consistent(d) && old(d.receipts) <= d.receipts
      ensures end != FuelSpent ==> Ended(Some(end), d)
      ensures end == FuelSpent <==> Spins(old(d))
      ensures end == FuelSpent ==> d.status == if works(ITERATIONS - 1) == Done then Running else Failed
      ensures Undisturbed(old(d)) ==> end == Finished && d.status == Published && |d.receipts| == 1
    {
      ghost var start, undisturbed := d, Undisturbed(d);
      StartsInLoop(start);
      hide InLoop, Spins, Consistent, Ended;
      var i := 0;
      while i < ITERATIONS
        invariant 0 <= i <= ITERATIONS && Consistent(d) && old(d.receipts) <= d.receipts
        invariant InLoop(start, d, i)
        invariant undisturbed ==> i < |UNDISTURBED| && OnTrack(d, UNDISTURBED[i])
      {
        if undisturbed && UNDISTURBED[i] !in TERMINAL { TrackStep(i); }
        var ended := Turn(start, i, settling, events, root);
        if ended.Some? { return ended.value; }
        i := i + 1;
      }
      WholeLoopSpins(start, d);
      end := FuelSpent;
    }

    /** The pass `i` of the loop, and what it means for the fuel. */
    method Turn(ghost start: Durable, i: nat, settling: Work, events: nat, root: int) returns (end: Option<Ending>)
      requires Consistent(d) && i < ITERATIONS && InLoop(start, d, i)
      modifies this
      ensures Consistent(d) && old(d.receipts) <= d.receipts && Ended(end, d)
      ensures if end.None? then InLoop(start, d, i + 1) else !Spins(start)
      ensures Alone() && old(d.status) in TERMINAL ==> end == Some(Finished) && d == old(d)
      ensures Alone() && works(i) == Done && old(d.status) !in TERMINAL && OnTrack(old(d), old(d.status)) ==>
        end.None? && OnTrack(d, After(old(d.status)))
    {
      end := Pass(works(i), settling, events, root);
      if end.Some? {
        EndingIsNotSpent(start, old(d), d, i);
      } else {
        StaysInLoop(start, old(d), d, i);
      }
    }

    lemma StartsInLoop(start: Durable)
      ensures InLoop(start, start, 0)
    {
    }

    lemma WholeLoopSpins(start: Durable, d: Durable)
      requires InLoop(start, d, ITERATIONS)
      ensures Spins(start) && d.status == if works(ITERATIONS - 1) == Done then Running else Failed
    {
    }

    /** What a pass says of a submitted run that is not past running. */
    ghost predicate Passed(before: Durable, after: Durable, i: nat, goes: bool) {
      before.submitted && Rank(before.status) <= Rank(Running) ==> GoesRound(before, before.status, works(i), goes, after)
    }

    lemma EndingIsNotSpent(start: Durable, before: Durable, after: Durable, i: nat)
      requires i < ITERATIONS && InLoop(start, before, i) && Passed(before, after, i, false)
      ensures !Spins(start)
    {
    }

    lemma StaysInLoop(start: Durable, before: Durable, after: Durable, i: nat)
      requires i < ITERATIONS && InLoop(start, before, i) && Passed(before, after, i, true)
      requires before.status !in TERMINAL && (before.submitted ==> after.submitted)
      requires Rank(after.status) <= Rank(Running) ==> after.submitted == before.submitted
      requires Rank(after.status) > Rank(before.status) || (before.submitted && after.status == before.status == Running)
      ensures InLoop(start, after, i + 1)
    {
    }

    /** The passes before `i` have kept a submitted run going. */
    ghost predicate Course(d: Durable, i: nat) {
      var lead := Rank(Running) - Rank(d.status);
      && d.submitted && lead >= 0
      && (d.frozen.None? && lead >= 2 && i > lead - 2 ==> works(lead - 2) == Done)
      && forall k | lead <= k < i :: works(k) == Done
    }

    /** What the loop keeps: still on that course, or above it by rank, or just failed by the last
        pass. */
    ghost predicate InLoop(start: Durable, d: Durable, i: nat) {
      || (Course(start, i) && OnCourse(start, d, i))
      || (!Course(start, i) && i <= Rank(d.status) && (Rank(d.status) <= Rank(Running) ==> !start.submitted && !d.submitted))
      || (i > 0 && i > Rank(Running) - Rank(start.status) && Course(start, i - 1) && works(i - 1) in {RoleFailed, RoleCancelled} && d.status == Failed)
    }

    ghost predicate OnCourse(start: Durable, d: Durable, i: nat) {
      var rank := Rank(start.status) + i;
      && d.submitted && d.status == (if rank == 0 then Created else if rank == 1 then Preparing else if rank == 2 then Prepared else Running)
      && (rank <= 1 ==> d.frozen == start.frozen)
    }

    /** A run that spends all the fuel: it was submitted before, its preparation succeeds if it is
        still to come, the plan completes in every pass but the last, and the last pass completes
        the plan or fails the run. */
    ghost predicate Spins(d: Durable) {
      && Course(d, ITERATIONS - 1) && works(ITERATIONS - 1) in {Done, RoleFailed, RoleCancelled}
    }

    /** A new run whose work completes while nobody else acts. */
    ghost predicate Undisturbed(d: Durable) {
      Alone() && OnTrack(d, Created) && forall i :: works(i) == Done
    }
  }

  /** How a pass treats a run that was submitted before and is not past running: it goes round
      again exactly when its work allows it, and then the run is one further, running, or failed. */
  predicate GoesRound(d: Durable, status: Status, w: Work, goes: bool, e: Durable) {
    match status
    case Created => goes && e.status == Preparing && e.frozen == d.frozen
    case Preparing => (goes <==> d.frozen.Some? || w == Done) && (goes ==> e.status == Prepared)
    case Prepared => goes && e.status == Running
    case Running => (goes <==> w in {Done, RoleFailed, RoleCancelled}) && (goes ==> e.status == if w == Done then Running else Failed)
    case _ => true
  }

  /** What each ending says of the run. */
  predicate Ended(end: Option<Ending>, d: Durable) {
    match end
    case None => true
    case Some(Finished) => d.status in TERMINAL
    case Some(Waiting) => d.status in {Running, CancellationRequested, CorrectionAuthorized, Correcting}
    case Some(Handled) => d.status in TERMINAL + {CancellationRequested}
    case Some(Escaped) => d.status == CancellationRequested
    case Some(FuelSpent) => false
  }

  function After(s: Status): Status {
    match s
    case Created => Preparing
    case Preparing => Prepared
    case Prepared => Running
    case Running => Submitted
    case Submitted => Validating
    case Validating => Promoting
    case _ => Published
  }

  /** A run on its undisturbed way: nothing is frozen before it is prepared, and afterwards the
      frozen head is still the current one, until it is published. */
  predicate OnTrack(d: Durable, s: Status) {
    && d.status == s && s in UNDISTURBED && !d.fenced && (d.submitted <==> Rank(s) > Rank(Running))
    && (if Rank(s) <= Rank(Preparing) then d.frozen == None else d.frozen.Some?)
    && (s == Published || d.receipts == []) && (s != Published && d.frozen.Some? ==> d.frozen == Some(d.head))
  }

  lemma TrackStep(i: nat)
    requires i < |UNDISTURBED| && UNDISTURBED[i] !in TERMINAL
    ensures i + 1 < |UNDISTURBED| && UNDISTURBED[i + 1] == After(UNDISTURBED[i])
  {
  }

  lemma TransitionsGoUp(s: Status, t: Status)
    requires t in RuntimeTransitions(s) && Rank(s) < 7
    ensures Rank(t) > Rank(s)
  {
  }

  lemma SuccessorsAreHigher(s: Status, t: Status)
    ensures t in Successors(s) ==> Rank(t) > Rank(s) && t in RuntimeTransitions(s) + {CancellationRequested, Cancelled}
  {
  }
}
