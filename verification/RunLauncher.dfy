/** The launch record of one sealed run (src/model_forge/application/run_launcher.py,
    `launch_sealed_run`).  Every operation that can raise asks a fault oracle; the state lock
    around it is the subject of StateLock. */
module RunLauncher {
  import opened Wrappers

  datatype Status = Running | Succeeded | Failed | Cancelled

  datatype LaunchError = PreflightRefused | Fault | Interrupted

  /** What an operation raises: an exception, which the handlers catch, or an interrupt such as the
      one from the keyboard, which passes them. */
  datatype Raise = Nothing | Exception | Interrupt

  /** What each operation raises, by its number. */
  type Faults = nat -> Raise

  function ErrorOf(r: Raise): LaunchError {
    if r == Interrupt then Interrupted else Fault
  }

  /** Some operation raises this. */
  ghost predicate Raised(faults: Faults, e: LaunchError) {
    e != PreflightRefused && exists i :: faults(i) != Nothing && ErrorOf(faults(i)) == e
  }

  /** A process that died is called cancelled when the user asked for it; `cancel` is what the
      flag says, or `None` when the launcher was given no way to look it up. */
  function Effective(outcome: Status, cancel: Option<bool>): Status {
    if outcome == Failed && cancel == Some(true) then Cancelled else outcome
  }

  // ---------------------------------------------------------------- which operation is which

  /** A launch whose first operation is `n` creates the record in it, runs the preflight in
      `n + 1`, writes the brief and its digest, runs the process and writes the logs in the four
      after that, and then closes the record. */
  const STEPS := 6

  /** The process ran and its logs were written. */
  predicate Executed(faults: Faults, n: nat, preflightPasses: bool) {
    preflightPasses && forall i | n < i < n + STEPS :: faults(i) == Nothing
  }

  /** The operation after the abort, or after the logs. */
  function Closing(faults: Faults, n: nat, preflightPasses: bool): nat {
    if faults(n + 1) != Nothing || !preflightPasses then n + 2
    else if faults(n + 2) != Nothing then n + 3
    else if faults(n + 3) != Nothing then n + 4
    else if faults(n + 4) != Nothing then n + 5
    else n + STEPS
  }

  /** The two operations after the logs that can close the record: a failed process is looked up
      among the cancelled ones first. */
  predicate CloseRaises(faults: Faults, c: nat, outcome: Status, cancel: Option<bool>) {
    faults(c) != Nothing || (outcome == Failed && cancel.Some? && faults(c + 1) != Nothing)
  }

  /** A launch stays recorded as running when its record was created and then closing it raises, or
      an interrupt passes the handler that would close it. */
  predicate StaysRunning(faults: Faults, n: nat, preflightPasses: bool, outcome: Status, cancel: Option<bool>) {
    var c := Closing(faults, n, preflightPasses);
    && faults(n) == Nothing
    && if Executed(faults, n, preflightPasses) then CloseRaises(faults, c, outcome, cancel)
       else c > 0 && (faults(c - 1) == Interrupt || faults(c) != Nothing)
  }

  lemma StaysRunningSplit(faults: Faults, n: nat, preflightPasses: bool, outcome: Status, cancel: Option<bool>)
    ensures var c := Closing(faults, n, preflightPasses);
      && c > n + 1 && (faults(n) != Nothing ==> !StaysRunning(faults, n, preflightPasses, outcome, cancel))
      && (faults(n) == Nothing ==>
            if Executed(faults, n, preflightPasses)
            then c == n + STEPS
                 && (StaysRunning(faults, n, preflightPasses, outcome, cancel) <==> CloseRaises(faults, n + STEPS, outcome, cancel))
            else StaysRunning(faults, n, preflightPasses, outcome, cancel) <==> faults(c - 1) == Interrupt || faults(c) != Nothing)
  {
  }

  /** The launch is aborted by operation `a`: the first that raises, or the preflight's refusal. */
  predicate AbortedBy(faults: Faults, n: nat, preflightPasses: bool, a: nat) {
    && n < a < n + STEPS && (faults(a) != Nothing || !preflightPasses)
    && (!preflightPasses ==> a == n + 1)
    && forall i | n < i < a :: faults(i) == Nothing
  }

  /** In terms of the faults alone: the record was created, and either nothing raised up to the logs
      and closing raises, or the abort is an interrupt, or the operation right after it raises as
      well. */
  lemma StaysRunningIff(faults: Faults, n: nat, preflightPasses: bool, outcome: Status, cancel: Option<bool>)
    ensures StaysRunning(faults, n, preflightPasses, outcome, cancel) <==>
      faults(n) == Nothing
      && ((Executed(faults, n, preflightPasses)
           && (faults(n + 6) != Nothing || (outcome == Failed && cancel != None && faults(n + 7) != Nothing)))
          || exists a: nat :: AbortedBy(faults, n, preflightPasses, a) && (faults(a) == Interrupt || faults(a + 1) != Nothing))
  {
    var c := Closing(faults, n, preflightPasses);
    if !Executed(faults, n, preflightPasses) {
      assert c > n + 1 && AbortedBy(faults, n, preflightPasses, c - 1);
    }
  }

  /** The last operation of a launch that closes its record from operation `c` on. */
  function Last(c: nat, outcome: Status, cancel: Option<bool>, validated: bool, verdictPasses: bool): nat {
    if outcome == Succeeded then c + (if validated && verdictPasses then 3 else 2)
    else if outcome == Failed && cancel.Some? then c + 2
    else c + 1
  }

  /** An interrupt while a success is validated or promoted. */
  predicate InterruptedAfter(faults: Faults, c: nat, outcome: Status, verdictPasses: bool) {
    outcome == Succeeded
    && (faults(c + 1) == Interrupt || (faults(c + 1) == Nothing && verdictPasses && faults(c + 2) == Interrupt))
  }

  /** A launch whose record was closed by operation `c` or the next returns: nothing interrupts the
      validation or the promotion of a success, and the operation after them works. */
  ghost predicate Returns(faults: Faults, c: nat, outcome: Status, cancel: Option<bool>, promotes: bool, verdictPasses: bool) {
    if outcome == Succeeded then
      && faults(c + 1) != Interrupt && (faults(c + 1) == Nothing && verdictPasses ==> faults(c + 2) != Interrupt)
      && faults(if promotes then c + 3 else c + 2) == Nothing
    else faults(if outcome == Failed && cancel != None then c + 2 else c + 1) == Nothing
  }

  /** In terms of the faults alone: a process that failed is recorded as cancelled exactly when the user
      asked for it, any other outcome as it is; and after that the launch returns exactly so. */
  lemma ReturnsIff(faults: Faults, c: nat, outcome: Status, cancel: Option<bool>, validated: bool, verdictPasses: bool)
    ensures Effective(outcome, cancel) == if outcome == Failed && cancel == Some(true) then Cancelled else outcome
    ensures Returns(faults, c, outcome, cancel, validated && verdictPasses, verdictPasses) <==>
      !InterruptedAfter(faults, c, outcome, verdictPasses) && faults(Last(c, outcome, cancel, validated, verdictPasses)) == Nothing
  {
    var last := Last(c, outcome, cancel, validated, verdictPasses);
    if outcome == Succeeded {
      assert last == if validated && verdictPasses then c + 3 else c + 2;
    } else {
      assert last == if outcome == Failed && cancel != None then c + 2 else c + 1;
    }
  }

  class SealedRunLauncher {
    var record: Option<Status>
    var closed: bool
    var ops: nat
    var validated: bool
    var promoted: bool
    /** How often the close statement was executed. */
    ghost var closeWrites: nat
    const faults: Faults

    constructor (faults: Faults)
      ensures record == None && !closed && ops == 0 && closeWrites == 0 && !validated && !promoted
      ensures this.faults == faults
    {
      record, closed, ops, validated, promoted, closeWrites := None, false, 0, false, false, 0;
      this.faults := faults;
    }

    method Next() returns (r: Raise)
      modifies this`ops
      ensures r == faults(old(ops)) && ops == old(ops) + 1
    {
      r := faults(ops);
      ops := ops + 1;
    }

    /** `_close`: the flag is set before anything that can raise, so there is one attempt only. */
    method Close(status: Status, outcome: Option<Status>, cancel: Option<bool>) returns (r: Result<Status, LaunchError>)
      requires status != Running && (outcome.Some? ==> outcome.value == status)
      modifies this`record, this`closed, this`ops, this`closeWrites
      ensures closed
      ensures old(closed) ==> r == Ok(status) && record == old(record) && closeWrites == old(closeWrites) && ops == old(ops)
      ensures !old(closed) && outcome.Some? ==> (r.Err? <==> CloseRaises(faults, old(ops), outcome.value, cancel))
      ensures !old(closed) && outcome.None? ==> (r.Err? <==> faults(old(ops)) != Nothing)
      ensures r.Err? ==> Raised(faults, r.error)
      ensures !old(closed) && r.Ok? ==>
        && record == Some(r.value) && closeWrites == old(closeWrites) + 1
        && r.value == (if outcome.Some? then Effective(status, cancel) else status)
        && ops == old(ops) + if outcome == Some(Failed) && cancel.Some? then 2 else 1
      ensures r.Err? ==> record == old(record) && closeWrites == old(closeWrites)
    {
      if closed { return Ok(status); }
      closed := true;
      var recorded := status;
      if outcome == Some(Failed) && cancel.Some? {
        var raised := Next();
        if raised != Nothing { return Err(ErrorOf(raised)); }
        if cancel.value { recorded := Cancelled; }
      }
      var raised := Next();
      if raised != Nothing { return Err(ErrorOf(raised)); }
      record, closeWrites := Some(recorded), closeWrites + 1;
      r := Ok(recorded);
    }

    /** Everything from the preflight to the captured logs; any of it may raise. */
    method Execute(preflightPasses: bool) returns (e: Option<LaunchError>)
      requires ops > 0
      modifies this`ops
      ensures e.None? <==> Executed(faults, old(ops) - 1, preflightPasses)
      ensures ops == Closing(faults, old(ops) - 1, preflightPasses)
      ensures e.Some? ==> ops > 0 && e.value == if faults(ops - 1) == Nothing then PreflightRefused else ErrorOf(faults(ops - 1))
      ensures e.Some? && e.value != PreflightRefused ==> Raised(faults, e.value)
      ensures e == Some(PreflightRefused) <==> !preflightPasses && faults(old(ops)) == Nothing
    {
      var raised := Next();
      if raised != Nothing { return Some(ErrorOf(raised)); }
      if !preflightPasses { return Some(PreflightRefused); }
      raised := Next(); // materialise the brief
      if raised != Nothing { return Some(ErrorOf(raised)); }
      raised := Next(); // record its digest
      if raised != Nothing { return Some(ErrorOf(raised)); }
      raised := Next(); // run the process
      if raised != Nothing { return Some(ErrorOf(raised)); }
      raised := Next(); // write the captured logs
      if raised != Nothing { return Some(ErrorOf(raised)); }
      e := None;
    }

    /** After a success; an exception raised here does not reach the launch, an interrupt does. */
    method ValidateAndPromote(verdictPasses: bool) returns (interrupted: bool)
      requires !validated && !promoted
      modifies this`validated, this`promoted, this`ops
      ensures validated <==> faults(old(ops)) == Nothing
      ensures promoted <==> validated && verdictPasses && faults(old(ops) + 1) == Nothing
      ensures ops == old(ops) + if validated && verdictPasses then 2 else 1
      ensures interrupted <==> faults(ops - 1) == Interrupt
    {
      var raised := Next();
      if raised != Nothing { return raised == Interrupt; }
      validated := true;
      if verdictPasses {
        raised := Next();
        promoted := raised == Nothing;
      }
      interrupted := raised == Interrupt;
    }

    /** After the logs: the record gets the outcome, a success is validated and promoted, and the
        result is put together. */
    method Conclude(outcome: Status, cancel: Option<bool>, verdictPasses: bool) returns (r: Result<Status, LaunchError>)
      requires record == Some(Running) && !closed && closeWrites == 0 && outcome != Running && !validated && !promoted
      modifies this
      ensures closed && (r.Err? ==> Raised(faults, r.error))
      ensures record == Some(if CloseRaises(faults, old(ops), outcome, cancel) then Running else Effective(outcome, cancel))
      ensures record == Some(Running) <==> CloseRaises(faults, old(ops), outcome, cancel)
      ensures closeWrites == if CloseRaises(faults, old(ops), outcome, cancel) then 0 else 1
      ensures validated <==> record == Some(Succeeded) && faults(old(ops) + 1) == Nothing
      ensures promoted <==> validated && verdictPasses && faults(old(ops) + 2) == Nothing
      ensures r.Ok? <==>
        record != Some(Running) && !InterruptedAfter(faults, old(ops), outcome, verdictPasses)
        && faults(Last(old(ops), outcome, cancel, validated, verdictPasses)) == Nothing
      ensures r.Ok? ==> record == Some(r.value)
    {
      r := Close(outcome, Some(outcome), cancel);
      if r.Err? { return; }
      if r.value == Succeeded {
        var interrupted := ValidateAndPromote(verdictPasses);
        if interrupted { return Err(Interrupted); }
      }
      var raised := Next();
      if raised != Nothing { r := Err(ErrorOf(raised)); }
    }

    /** `launch_sealed_run` inside the lock.  There is one attempt to close the record, so the
        launch stays recorded as running exactly when one of the operations of that attempt raises,
        or when an interrupt passes the handler.  Otherwise the record has the outcome of the
        process, and `Failed` when the launch was aborted before there was one: an abort after the
        outcome was recorded leaves it as it is. */
    method Launch(preflightPasses: bool, outcome: Status, cancel: Option<bool>, verdictPasses: bool)
      returns (r: Result<Status, LaunchError>)
      requires record == None && !closed && closeWrites == 0 && outcome != Running && !validated && !promoted
      modifies this
      ensures record.None? <==> faults(old(ops)) != Nothing
      ensures record == Some(Running) <==> StaysRunning(faults, old(ops), preflightPasses, outcome, cancel)
      ensures record.Some? && record != Some(Running) ==>
        record.value == if Executed(faults, old(ops), preflightPasses) then Effective(outcome, cancel) else Failed
      ensures closeWrites == if record.Some? && record != Some(Running) then 1 else 0
      ensures validated <==> record == Some(Succeeded) && faults(old(ops) + STEPS + 1) == Nothing
      ensures promoted <==> validated && verdictPasses && faults(old(ops) + STEPS + 2) == Nothing
      ensures r.Ok? <==>
        && record.Some? && record != Some(Running) && Executed(faults, old(ops), preflightPasses)
        && !InterruptedAfter(faults, old(ops) + STEPS, outcome, verdictPasses)
        && faults(Last(old(ops) + STEPS, outcome, cancel, validated, verdictPasses)) == Nothing
      ensures r.Ok? ==> record == Some(r.value)
      ensures r.Err? ==> (r.error == PreflightRefused <==>
                            !preflightPasses && faults(old(ops)) == Nothing && faults(old(ops) + 1) == Nothing)
      ensures r.Err? && r.error != PreflightRefused ==> Raised(faults, r.error)
    {
      StaysRunningSplit(faults, ops, preflightPasses, outcome, cancel);
      hide CloseRaises, Last, InterruptedAfter, Effective, Executed, Closing, StaysRunning;
      var raised := Next();
      if raised != Nothing { return Err(ErrorOf(raised)); }
      record := Some(Running);
      var abort := Execute(preflightPasses);
      if abort.None? {
        r := Conclude(outcome, cancel, verdictPasses);
        if r.Ok? { return; }
        abort := Some(r.error);
      }
      if abort.value != Interrupted {
        var ignored := Close(Failed, None, cancel);
      }
      r := Err(abort.value);
    }
  }

  /** A process that succeeded and whose record could not be closed: the second attempt, with
      `failed`, does nothing. */
  method SucceededButRunning() returns (l: SealedRunLauncher, r: Result<Status, LaunchError>)
    ensures l.record == Some(Running) && r == Err(Fault) && Executed(l.faults, 0, true)
    ensures forall i :: l.faults(i) == if i == STEPS then Exception else Nothing
  {
    l := new SealedRunLauncher(i => if i == STEPS then Exception else Nothing);
    r := l.Launch(true, Succeeded, None, true);
  }

  /** A launch that is aborted after its outcome was recorded keeps that outcome. */
  method AbortedButSucceeded() returns (l: SealedRunLauncher, r: Result<Status, LaunchError>)
    ensures l.record == Some(Succeeded) && r == Err(Fault)
    ensures forall i :: l.faults(i) == if i == STEPS + 3 then Exception else Nothing
  {
    l := new SealedRunLauncher(i => if i == STEPS + 3 then Exception else Nothing);
    assert Executed(l.faults, 0, true) && !CloseRaises(l.faults, STEPS, Succeeded, None);
    r := l.Launch(true, Succeeded, None, true);
  }

  /** An interrupt while the process runs leaves the record running. */
  method InterruptedAndRunning() returns (l: SealedRunLauncher, r: Result<Status, LaunchError>)
    ensures l.record == Some(Running) && r == Err(Interrupted)
    ensures forall i :: l.faults(i) == if i == 4 then Interrupt else Nothing
  {
    l := new SealedRunLauncher(i => if i == 4 then Interrupt else Nothing);
    assert !Executed(l.faults, 0, true) by { assert l.faults(4) == Interrupt; }
    r := l.Launch(true, Succeeded, None, true);
  }
}
