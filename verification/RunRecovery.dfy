/** Crashes, restarts and publications by other runs around one coordinator
    (src/model_forge/application/run_coordinator.py, `_prepare`, `_promote`, `_handle_error`). */
module RunRecovery {
  import opened Wrappers
  import opened RunStates
  import opened PublicationHead
  import opened RunCoordinator

  /** What the coordinator process remembers between two database operations. */
  datatype Memory =
    | Nothing
    | Captured(basis: Head)   // preparing: the head was read, the manifest is not yet frozen
    | Unpublished             // promoting: no receipt was found
    | Receipted               // promoting: a receipt was found or just committed
    | Lost                    // promoting: the head had moved

  datatype System = System(d: Durable, memory: Memory)

  datatype Step =
    | Capture | Freeze
    | LookUp | Commit(events: nat, root: int) | PlanFails(conflict: bool) | Conclude
    | MarkRaises(conflict: bool)
    | Move(target: Status)
    | Cancel | Elsewhere(events: nat, root: int) | Crash

  /** Every move of the run that is not part of a promotion: the coordinator's other states and
      the correction commands. */
  predicate MayMove(d: Durable, t: Status) {
    && t in RuntimeTransitions(d.status) && d.status != Promoting && t != CancellationRequested
    && (t in {Prepared, Promoting} ==> d.frozen.Some?)
  }

  function After(s: System, step: Step): System {
    var d, m := s.d, s.memory;
    match step
    case Capture => if m == Nothing && d.status == Preparing && d.frozen.None? then System(d, Captured(d.head)) else s
    case Freeze => if m.Captured? && d.frozen.None? then System(d.(frozen := Some(m.basis)), Nothing) else s
    case LookUp =>
      if m == Nothing && d.status == Promoting then System(d, if d.receipts != [] then Receipted else Unpublished) else s
    case Commit(k, root) =>
      if m == Unpublished then System(Publishes(d, k, root), if d.frozen == Some(d.head) then Receipted else Lost) else s
    case PlanFails(conflict) =>
      if m == Unpublished then System(d.(status := if conflict then Conflicted else Failed), Nothing) else s
    case Conclude =>
      if m == Receipted || (m == Lost && d.receipts != []) then System(d.(status := Published), Nothing)
      else if m == Lost then System(d.(status := Conflicted), Nothing)
      else s
    case MarkRaises(conflict) =>
      if m == Receipted then System(d.(status := if conflict then Conflicted else Failed), Nothing) else s
    case Move(t) =>
      if m == Nothing && MayMove(d, t) then System(d.(status := t, submitted := d.submitted || t == Submitted), m) else s
    case Cancel => System(AskedToCancel(d), m)
    case Elsewhere(k, root) => System(d.(head := Next(d.head, k, root)), m)
    case Crash => System(d, Nothing)
  }

  function Run(s: System, steps: seq<Step>): System
    decreases |steps|
  {
    if steps == [] then s else Run(After(s, steps[0]), steps[1..])
  }

  ghost predicate Inv(s: System) {
    && Consistent(s.d)
    && (s.memory.Captured? ==> s.memory.basis.sequence <= s.d.head.sequence)
    && (s.memory == Unpublished || s.memory == Lost ==> s.d.status == Promoting && s.d.receipts == [])
    && (s.memory == Receipted ==> s.d.status == Promoting && s.d.receipts != [])
  }

  /** Exactly one kind of step breaks the promise: an exception while a run with a receipt is
      being marked as published makes the error path call it failed, or conflicted. */
  lemma InvBrokenOnlyByMarkRaises(s: System, step: Step)
    requires Inv(s)
    ensures Inv(After(s, step)) <==> !(step.MarkRaises? && s.memory == Receipted)
    ensures s.d.receipts != [] ==> After(s, step).d.receipts == s.d.receipts
    ensures s.d.frozen.Some? ==> After(s, step).d.frozen == s.d.frozen
  {
    match step
    case MarkRaises(_) => if s.memory == Receipted { assert After(s, step).d.status in {Failed, Conflicted}; }
    case Move(t) => if MayMove(s.d, t) { MoveKeepsConsistent(s.d, t); }
    case _ =>
  }

  lemma MoveKeepsConsistent(d: Durable, t: Status)
    requires Consistent(d) && MayMove(d, t)
    ensures Consistent(d.(status := t, submitted := d.submitted || t == Submitted))
  {
    assert RuntimeTransitions(Published) == {};
  }

  predicate MarkingSucceeds(steps: seq<Step>) {
    forall e | e in steps :: !e.MarkRaises?
  }

  lemma {:induction false} RunKeepsInv(s: System, steps: seq<Step>)
    requires Inv(s) && MarkingSucceeds(steps)
    ensures Inv(Run(s, steps)) && (s.d.receipts != [] ==> Run(s, steps).d.receipts == s.d.receipts)
    decreases |steps|
  {
    if steps != [] {
      InvBrokenOnlyByMarkRaises(s, steps[0]);
      RunKeepsInv(After(s, steps[0]), steps[1..]);
    }
  }

  /** A run that was just created. */
  function New(head: Head): System {
    System(Durable(Created, false, false, None, head, []), Nothing)
  }

  /** Under any schedule of crashes, restarts, cancellations, corrections and publications by
      other runs, a run has at most one receipt and it continues the head the run froze; a
      published run has it, and a run that ended any other way has none. */
  lemma AtMostOneReceipt(head: Head, steps: seq<Step>)
    requires MarkingSucceeds(steps)
    ensures var d := Run(New(head), steps).d;
      && |d.receipts| <= 1
      && (d.receipts != [] ==> d.frozen == Some(d.receipts[0].prior))
      && (d.status == Published ==> |d.receipts| == 1)
      && (d.status in {Conflicted, Failed, Rejected, Cancelled, CorrectionExhausted} ==> d.receipts == [])
  {
    RunKeepsInv(New(head), steps);
  }

  /** Whatever the process was doing when it crashed, and whatever others published since: a run
      whose publication had committed is recovered to published, with the receipt it had. */
  lemma CrashAfterCommitIsRecovered(s: System, others: seq<Step>)
    requires Inv(s) && s.d.receipts != [] && forall e | e in others :: e.Elsewhere? || e.Cancel? || e.Crash?
    ensures var end := Run(After(After(Run(After(s, Crash), others), LookUp), Conclude), []);
      end.d.receipts == s.d.receipts && end.d.status == Published
  {
    OthersLeaveRunAlone(After(s, Crash), others);
  }

  lemma {:induction false} OthersLeaveRunAlone(s: System, others: seq<Step>)
    requires Inv(s) && s.d.receipts != [] && s.memory == Nothing
    requires forall e | e in others :: e.Elsewhere? || e.Cancel? || e.Crash?
    ensures var t := Run(s, others);
      Inv(t) && t.memory == Nothing && t.d.status == s.d.status && t.d.receipts == s.d.receipts
    decreases |others|
  {
    if others != [] {
      assert others[0] in others;
      assert forall e | e in others[1..] :: e in others;
      InvBrokenOnlyByMarkRaises(s, others[0]);
      OthersLeaveRunAlone(After(s, others[0]), others[1..]);
    }
  }

  /** A publication is refused exactly when somebody published since the head was captured. */
  lemma {:induction false} CommitSucceedsIffHeadStood(s: System, steps: seq<Step>)
    requires Inv(s) && s.d.frozen == Some(s.d.head) && s.d.receipts == [] && MarkingSucceeds(steps)
    ensures var t := Run(s, steps);
      t.d.frozen == Some(t.d.head) <==> !SomePublication(s, steps)
    decreases |steps|
  {
    if steps != [] {
      var n := After(s, steps[0]);
      InvBrokenOnlyByMarkRaises(s, steps[0]);
      if n.d.head == s.d.head {
        CommitSucceedsIffHeadStood(n, steps[1..]);
      } else {
        HeadOnlyGrows(n, steps[1..]);
      }
    }
  }

  /** Some step of the schedule published: another run's, or this run's own commit. */
  predicate SomePublication(s: System, steps: seq<Step>)
    decreases |steps|
  {
    steps != []
    && (steps[0].Elsewhere? || (steps[0].Commit? && s.memory == Unpublished && s.d.frozen == Some(s.d.head))
        || SomePublication(After(s, steps[0]), steps[1..]))
  }

  lemma {:induction false} HeadOnlyGrows(s: System, steps: seq<Step>)
    requires s.d.frozen.Some?
    ensures Run(s, steps).d.frozen == s.d.frozen && s.d.head.sequence <= Run(s, steps).d.head.sequence
    decreases |steps|
  {
    if steps != [] { HeadOnlyGrows(After(s, steps[0]), steps[1..]); }
  }

  /** The exception that breaks it: the publication commits, marking it raises, and the run that
      published is called failed, or conflicted when the exception was a conflict. */
  lemma MarkRaisesFailsAPublishedRun(head: Head, events: nat, root: int, conflict: bool)
    ensures var ready := System(Durable(Promoting, false, true, Some(head), head, []), Nothing);
      var end := After(After(After(ready, LookUp), Commit(events, root)), MarkRaises(conflict));
      Inv(ready) && end.d.status == (if conflict then Conflicted else Failed) && |end.d.receipts| == 1
  {
  }

  // ---------------------------------------------------------------- the coordinator runs this machine

  /** `_prepare`, and `_handle_error` when it raises, while nobody else acts. */
  method PrepareAlone(c: Coordinator, w: Work) returns (a: Advance)
    requires Consistent(c.d) && c.d.status == Preparing && c.Alone()
    modifies c
    ensures System(c.d, Nothing) == Run(System(old(c.d), Nothing), AttemptToPrepare(old(c.d), w))
    ensures a.Advanced? <==> old(c.d).frozen.Some? || w == Done
  {
    PreparationSteps(c.d, w);
    hide Run, Consistent;
    a := c.Prepare(w);
    if a.Raised? {
      var escaped := c.HandleError(a.conflict);
    }
  }

  /** The steps of one preparation: a head frozen before is kept; otherwise it is captured and frozen,
      unless the work in between fails and the run ends. */
  function AttemptToPrepare(d: Durable, w: Work): seq<Step> {
    if d.frozen.Some? then [Move(Prepared)]
    else if w == Done then [Capture, Freeze, Move(Prepared)]
    else [Move(if w == Conflict then Conflicted else Failed)]
  }

  lemma PreparationSteps(d: Durable, w: Work)
    requires d.status == Preparing
    ensures Run(System(d, Nothing), AttemptToPrepare(d, w)) == System(
      if d.frozen.Some? then d.(status := Prepared)
      else if w == Done then d.(status := Prepared, frozen := Some(d.head))
      else d.(status := if w == Conflict then Conflicted else Failed), Nothing)
  {
    var before := System(d, Nothing);
    if d.frozen.Some? {
      RunsOne(before, Move(Prepared));
    } else if w == Done {
      RunsThree(before, Capture, Freeze, Move(Prepared));
    } else {
      RunsOne(before, Move(if w == Conflict then Conflicted else Failed));
    }
  }

  /** `_promote`, and `_handle_error` when it raises, while nobody else acts. */
  method PromoteAlone(c: Coordinator, w: Work, events: nat, root: int) returns (a: Advance)
    requires Consistent(c.d) && c.d.status == Promoting && c.Alone()
    modifies c
    ensures System(c.d, Nothing) == Run(System(old(c.d), Nothing), AttemptToPromote(old(c.d), w, events, root))
    ensures a.Advanced? <==> old(c.d).receipts != [] || w == Done
  {
    var before := System(c.d, Nothing);
    RunsTwo(before, LookUp, Conclude);
    RunsTwo(before, LookUp, PlanFails(w == Conflict));
    RunsThree(before, LookUp, Commit(events, root), Conclude);
    hide Run, Consistent;
    a := c.Promote(w, events, root);
    if a.Raised? {
      var escaped := c.HandleError(a.conflict);
    }
  }

  /** The steps of one attempt: a receipt found first only needs to be marked; otherwise the plan
      is built, and committed unless that fails. */
  function AttemptToPromote(d: Durable, w: Work, events: nat, root: int): seq<Step> {
    if d.receipts != [] then [LookUp, Conclude]
    else if w == Done then [LookUp, Commit(events, root), Conclude]
    else [LookUp, PlanFails(w == Conflict)]
  }

  lemma RunsOne(s: System, a: Step)
    ensures Run(s, [a]) == After(s, a)
  {
    assert [a][1..] == [];
  }

  lemma RunsTwo(s: System, a: Step, b: Step)
    ensures Run(s, [a, b]) == After(After(s, a), b)
  {
    assert [a, b][1..] == [b];
    RunsOne(After(s, a), b);
  }

  lemma RunsThree(s: System, a: Step, b: Step, c: Step)
    ensures Run(s, [a, b, c]) == After(After(After(s, a), b), c)
  {
    assert [a, b, c][1..] == [b, c];
    RunsTwo(After(s, a), b, c);
  }
}
