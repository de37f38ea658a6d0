/** Durable run progress by read-then-compare-and-swap writers
    (src/model_forge/application/run_lifecycle.py, src/model_forge/storage/repository.py,
    src/model_forge/application/service.py, src/model_forge/harness/submissions.py). */
module RunLifecycle {
  import opened Wrappers
  import opened RunStates

  type Payload = map<string, string>

  /** What one writer does to the payload it read: keys taken out, then keys set. */
  datatype Edit = Edit(remove: set<string>, put: Payload)

  const NO_EDIT := Edit({}, map[])

  function Edited(p: Payload, e: Edit): Payload {
    (p - e.remove) + e.put
  }

  /** One row of the event table; `edit` is what its commit was meant to do to the payload. */
  datatype RunEvent = RunEvent(id: string, sequence: nat, status: Status, content: string, edit: Edit)

  /** The run's row and what else the writers look at. */
  datatype Row = Row(status: Status, head: nat, payload: Payload, fenced: bool, command: Option<string>)
  datatype Tables = Tables(row: Row, events: seq<RunEvent>, submission: Option<string>)

  datatype Outcome = Applied | AlreadyApplied | AlreadySubmitted | CancellationFenced | SwapFailed | IdReused

  /** The arguments of a compare-and-swap; `command` fences the run for a cancellation. */
  datatype Write = Write(expected: Status, head: nat, target: Status, payload: Payload, edit: Edit,
                         id: string, content: string, command: Option<string>)

  predicate Current(t: Tables, w: Write) {
    t.row.status == w.expected && t.row.head == w.head
  }

  // ---------------------------------------------------------------- the three writes of the repository

  /** `_cas_run`. */
  function SwapOutcome(t: Tables, w: Write): Outcome {
    if exists e :: e in t.events && e.id == w.id then
      if exists e :: e in t.events && e.id == w.id && e.status == w.target && e.content == w.content
      then AlreadyApplied else IdReused
    else if !Current(t, w) then SwapFailed
    else Applied
  }

  function Committed(t: Tables, w: Write): Tables {
    Tables(Row(w.target, w.head + 1, w.payload, t.row.fenced || w.command.Some?,
               if w.command.Some? then w.command else t.row.command),
           t.events + [RunEvent(w.id, w.head + 1, w.target, w.content, w.edit)],
           t.submission)
  }

  function Swapped(t: Tables, w: Write): Tables {
    if SwapOutcome(t, w) == Applied then Committed(t, w) else t
  }

  /** `request_cancellation`. */
  function CancelOutcome(t: Tables, w: Write): Outcome {
    if t.row.command.Some? && t.row.command == w.command then AlreadyApplied
    else if t.submission.Some? then AlreadySubmitted
    else if t.row.fenced then CancellationFenced
    else if !Current(t, w) then SwapFailed
    else SwapOutcome(t, w)
  }

  /** `seal_submission`. */
  function SubmitOutcome(t: Tables, w: Write, submission: string): Outcome {
    if t.submission.Some? then (if t.submission.value == submission then AlreadyApplied else AlreadySubmitted)
    else if t.row.fenced then CancellationFenced
    else if !Current(t, w) then SwapFailed
    else SwapOutcome(t, w)
  }

  function Sealed(t: Tables, w: Write, submission: string): Tables {
    if t.submission.Some? || t.row.fenced || !Current(t, w) || SwapOutcome(t, w) == IdReused then t
    else Swapped(t, w).(submission := Some(submission))
  }

  class HubRepository {
    var row: Row
    var events: seq<RunEvent>
    var submission: Option<string>

    function State(): Tables
      reads this
    {
      Tables(row, events, submission)
    }

    /** `create_run`. */
    constructor (payload: Payload, id: string, content: string)
      ensures State() == Start(payload, id, content)
    {
      row := Row(Created, 1, payload, false, None);
      events := [RunEvent(id, 1, Created, content, NO_EDIT)];
      submission := None;
    }

    method CompareAndSwapRun(w: Write) returns (o: Outcome)
      modifies this
      ensures o == SwapOutcome(old(State()), w) && State() == Swapped(old(State()), w)
    {
      if exists e :: e in events && e.id == w.id {
        if exists e :: e in events && e.id == w.id && e.status == w.target && e.content == w.content {
          return AlreadyApplied;
        }
        return IdReused;
      }
      if row.status != w.expected || row.head != w.head { return SwapFailed; }
      row := row.(status := w.target, head := w.head + 1, payload := w.payload);
      if w.command.Some? { row := row.(fenced := true, command := w.command); }
      events := events + [RunEvent(w.id, w.head + 1, w.target, w.content, w.edit)];
      o := Applied;
    }

    method RequestCancellation(w: Write) returns (o: Outcome)
      requires w.target == CancellationRequested && w.command.Some?
      modifies this
      ensures o == CancelOutcome(old(State()), w)
      ensures State() == if o == Applied then Committed(old(State()), w) else old(State())
    {
      if row.command == w.command { return AlreadyApplied; }
      if submission.Some? { return AlreadySubmitted; }
      if row.fenced { return CancellationFenced; }
      if row.status != w.expected || row.head != w.head { return SwapFailed; }
      o := CompareAndSwapRun(w);
    }

    method SealSubmission(w: Write, s: string) returns (o: Outcome)
      requires w.target == Submitted && w.command.None?
      modifies this
      ensures o == SubmitOutcome(old(State()), w, s) && State() == Sealed(old(State()), w, s)
    {
      if submission.Some? { return if submission.value == s then AlreadyApplied else AlreadySubmitted; }
      if row.fenced { return CancellationFenced; }
      if row.status != w.expected || row.head != w.head { return SwapFailed; }
      o := CompareAndSwapRun(w);
      if o != IdReused { submission := Some(s); }
    }
  }

  datatype LifecycleError = InvalidTransition

  /** The application's writer: it reads the row once and swaps against exactly that row. */
  class Lifecycle {
    const repository: HubRepository
    const eventId: (nat, Status, string) -> string

    constructor (repository: HubRepository, eventId: (nat, Status, string) -> string)
      ensures this.repository == repository && this.eventId == eventId
    {
      this.repository, this.eventId := repository, eventId;
    }

    /** `transition`: with nobody else writing, an illegal target raises and a legal one is
        applied, unless its event is already there. */
    method Transition(target: Status, edit: Edit, content: string) returns (r: Result<Outcome, LifecycleError>)
      modifies repository
      ensures r.Err? <==> target !in RuntimeTransitions(old(repository.row.status))
      ensures r.Err? ==> repository.State() == old(repository.State())
      ensures r.Ok? ==> (r.value == Applied <==>
        forall e | e in old(repository.events) :: e.id != eventId(old(repository.row.head) + 1, target, content))
      ensures r.Ok? && r.value == Applied ==>
        repository.row == old(repository.row).(status := target, head := old(repository.row.head) + 1,
                                               payload := Edited(old(repository.row.payload), edit))
      ensures r.Ok? && r.value != Applied ==> repository.State() == old(repository.State())
    {
      var row := repository.row;
      if target !in RuntimeTransitions(row.status) { return Err(InvalidTransition); }
      var o := Mutate(row, target, edit, content);
      r := Ok(o);
    }

    /** `progress`: like a transition, but to the state the run is in. */
    method Progress(edit: Edit, content: string) returns (o: Outcome)
      modifies repository
      ensures o == Applied ==>
        repository.row == old(repository.row).(head := old(repository.row.head) + 1,
                                               payload := Edited(old(repository.row.payload), edit))
      ensures o != Applied ==> repository.State() == old(repository.State())
    {
      var row := repository.row;
      o := Mutate(row, row.status, edit, content);
    }

    /** `_mutate`. */
    method Mutate(row: Row, target: Status, edit: Edit, content: string) returns (o: Outcome)
      modifies repository
      ensures var w := Write(row.status, row.head, target, Edited(row.payload, edit), edit,
                             eventId(row.head + 1, target, content), content, None);
        o == SwapOutcome(old(repository.State()), w) && repository.State() == Swapped(old(repository.State()), w)
    {
      var payload := Edited(row.payload, edit);
      var id := eventId(row.head + 1, target, content);
      o := repository.CompareAndSwapRun(Write(row.status, row.head, target, payload, edit, id, content, None));
    }
  }

  // ---------------------------------------------------------------- any number of writers

  /** What a writer is doing: a legal move or a note of progress (each on one read), a
      cancellation (a check on one read, the swap against a second one), or the submission. */
  datatype Intent = Move(target: Status) | Note | Cancel(command: string) | Submit(submission: string)

  /** A writer between its reads and its write. */
  datatype Pending = Pending(intent: Intent, edit: Edit, id: string, content: string, row: Option<Row>)

  datatype System = System(tables: Tables, pending: map<nat, Pending>)

  datatype Step =
    | Begin(writer: nat, intent: Intent, edit: Edit, id: string, content: string)
    | Reread(writer: nat)
    | Commit(writer: nat)

  /** `CANCELLABLE`. */
  const CANCELLABLE: set<Status> := {Created, Preparing, Prepared, Running}

  /** A cancellation is only ever requested through `request_cancellation`, and a running role
      plan is only ever submitted through `seal_submission`. */
  predicate MayMove(s: Status, t: Status) {
    t in RuntimeTransitions(s) && t != CancellationRequested && (t == Submitted ==> s == Correcting)
  }

  predicate MayBegin(s: Status, intent: Intent) {
    match intent
    case Move(t) => MayMove(s, t)
    case Note => true
    case Cancel(_) => s in CANCELLABLE
    case Submit(_) => s == Running || s == Correcting
  }

  function Target(p: Pending, row: Row): Status {
    match p.intent
    case Move(t) => t
    case Note => row.status
    case Cancel(_) => CancellationRequested
    case Submit(_) => Submitted
  }

  function EditOf(p: Pending): Edit {
    if p.intent.Cancel? then NO_EDIT else p.edit
  }

  function WriteOf(p: Pending, row: Row): Write {
    Write(row.status, row.head, Target(p, row), Edited(row.payload, EditOf(p)), EditOf(p), p.id, p.content,
          if p.intent.Cancel? then Some(p.intent.command) else None)
  }

  function OutcomeOf(t: Tables, p: Pending, row: Row): Outcome {
    match p.intent
    case Cancel(_) => CancelOutcome(t, WriteOf(p, row))
    case Submit(s) => SubmitOutcome(t, WriteOf(p, row), s)
    case _ => SwapOutcome(t, WriteOf(p, row))
  }

  function Written(t: Tables, p: Pending, row: Row): Tables {
    match p.intent
    case Cancel(_) => if CancelOutcome(t, WriteOf(p, row)) == Applied then Committed(t, WriteOf(p, row)) else t
    case Submit(s) => Sealed(t, WriteOf(p, row), s)
    case _ => Swapped(t, WriteOf(p, row))
  }

  function After(s: System, step: Step): System {
    match step
    case Begin(w, intent, edit, id, content) =>
      if !MayBegin(s.tables.row.status, intent) then s
      else s.(pending := s.pending[w := Pending(intent, edit, id, content,
                                                if intent.Cancel? then None else Some(s.tables.row))])
    case Reread(w) =>
      if w in s.pending && s.pending[w].intent.Cancel?
      then s.(pending := s.pending[w := s.pending[w].(row := Some(s.tables.row))]) else s
    case Commit(w) =>
      if w in s.pending && s.pending[w].row.Some?
      then System(Written(s.tables, s.pending[w], s.pending[w].row.value), s.pending - {w}) else s
  }

  function Run(s: System, steps: seq<Step>): System
    decreases |steps|
  {
    if steps == [] then s else Run(After(s, steps[0]), steps[1..])
  }

  function Start(payload: Payload, id: string, content: string): Tables {
    Tables(Row(Created, 1, payload, false, None), [RunEvent(id, 1, Created, content, NO_EDIT)], None)
  }

  // ---------------------------------------------------------------- what every schedule keeps

  /** The payload after every committed edit, in the order of the journal. */
  function Folded(start: Payload, events: seq<RunEvent>): Payload {
    if events == [] then start
    else Edited(Folded(start, events[..|events| - 1]), events[|events| - 1].edit)
  }

  ghost predicate Contiguous(events: seq<RunEvent>) {
    forall k | 0 <= k < |events| :: events[k].sequence == k + 1
  }

  /** A row that was current when the journal had `row.head` events. */
  ghost predicate WasCurrent(start: Payload, events: seq<RunEvent>, row: Row) {
    && 1 <= row.head <= |events| && row.status == events[row.head - 1].status
    && row.payload == Folded(start, events[..row.head])
  }

  predicate CancelSide(s: Status) {
    s == CancellationRequested || s == Cancelled
  }

  ghost predicate CancelledForGood(events: seq<RunEvent>) {
    forall i, j | 0 <= i < j < |events| && events[i].status == CancellationRequested :: CancelSide(events[j].status)
  }

  ghost predicate Sound(start: Payload, t: Tables) {
    && t.events != [] && t.events[0].status == Created && Contiguous(t.events)
    && t.row.head == |t.events| && WasCurrent(start, t.events, t.row)
    && CancelledForGood(t.events)
    && (t.row.fenced <==> exists e :: e in t.events && e.status == CancellationRequested)
    && (t.row.fenced ==> CancelSide(t.row.status))
    && !(t.submission.Some? && t.row.fenced)
  }

  ghost predicate PendingSound(start: Payload, t: Tables, p: Pending) {
    p.row.Some? ==> WasCurrent(start, t.events, p.row.value)
                    && (!p.intent.Cancel? ==> MayBegin(p.row.value.status, p.intent))
  }

  ghost predicate Inv(start: Payload, s: System) {
    Sound(start, s.tables) && forall w | w in s.pending :: PendingSound(start, s.tables, s.pending[w])
  }

  lemma FoldedOneMore(start: Payload, events: seq<RunEvent>, e: RunEvent)
    ensures Folded(start, events + [e]) == Edited(Folded(start, events), e.edit)
    ensures (events + [e])[..|events| + 1] == events + [e]
  {
    assert (events + [e])[..|events|] == events;
  }

  lemma CancelledForGoodOneMore(events: seq<RunEvent>, e: RunEvent)
    requires CancelledForGood(events)
    requires (exists c :: c in events && c.status == CancellationRequested) ==> CancelSide(e.status)
    ensures CancelledForGood(events + [e])
  {
  }

  lemma FencedOneMore(events: seq<RunEvent>, e: RunEvent)
    ensures (exists c :: c in events + [e] && c.status == CancellationRequested) <==>
      (exists c :: c in events && c.status == CancellationRequested) || e.status == CancellationRequested
  {
    assert e in events + [e];
    assert forall c :: c in events + [e] <==> c in events || c == e;
  }

  /** What an applied write can be, given what its writer read. */
  lemma AppliedTarget(start: Payload, t: Tables, p: Pending)
    requires Sound(start, t) && PendingSound(start, t, p) && p.row.Some?
    requires OutcomeOf(t, p, p.row.value) == Applied
    ensures var row := p.row.value;
      && row.head == |t.events| && row.status == t.row.status && row.payload == t.row.payload
      && (t.row.fenced ==> CancelSide(Target(p, row)) && !p.intent.Cancel?)
      && (Target(p, row) == CancellationRequested ==> p.intent.Cancel? || t.row.fenced)
      && (p.intent.Cancel? ==> t.submission.None?)
  {
    assert t.events[..p.row.value.head] == t.events;
    assert t.events[|t.events| - 1] in t.events;
  }

  lemma CommitKeepsSound(start: Payload, t: Tables, p: Pending)
    requires Sound(start, t) && PendingSound(start, t, p) && p.row.Some?
    requires OutcomeOf(t, p, p.row.value) == Applied
    ensures Sound(start, Committed(t, WriteOf(p, p.row.value)))
  {
    AppliedTarget(start, t, p);
    var w := WriteOf(p, p.row.value);
    var e := RunEvent(w.id, w.head + 1, w.target, w.content, w.edit);
    assert t.events[..t.row.head] == t.events;
    FoldedOneMore(start, t.events, e);
    CancelledForGoodOneMore(t.events, e);
    FencedOneMore(t.events, e);
  }

  lemma WrittenKeepsSound(start: Payload, t: Tables, p: Pending)
    requires Sound(start, t) && PendingSound(start, t, p) && p.row.Some?
    ensures Sound(start, Written(t, p, p.row.value)) && t.events <= Written(t, p, p.row.value).events
  {
    if OutcomeOf(t, p, p.row.value) == Applied { CommitKeepsSound(start, t, p); }
  }

  lemma OlderStaysWasCurrent(start: Payload, before: seq<RunEvent>, after: seq<RunEvent>, row: Row)
    requires WasCurrent(start, before, row) && before <= after
    ensures WasCurrent(start, after, row)
  {
    assert before[..row.head] == after[..row.head];
  }

  lemma AfterKeepsInv(start: Payload, s: System, step: Step)
    requires Inv(start, s)
    ensures Inv(start, After(s, step)) && s.tables.events <= After(s, step).tables.events
  {
    match step
    case Begin(w, intent, edit, id, content) =>
    case Reread(w) =>
    case Commit(w) =>
      if w in s.pending && s.pending[w].row.Some? {
        var t := After(s, step).tables;
        WrittenKeepsSound(start, s.tables, s.pending[w]);
        forall v | v in s.pending && s.pending[v].row.Some? ensures WasCurrent(start, t.events, s.pending[v].row.value) {
          assert PendingSound(start, s.tables, s.pending[v]);
          OlderStaysWasCurrent(start, s.tables.events, t.events, s.pending[v].row.value);
        }
      }
  }

  lemma {:induction false} RunKeepsInv(start: Payload, s: System, steps: seq<Step>)
    requires Inv(start, s)
    ensures Inv(start, Run(s, steps))
    decreases |steps|
  {
    if steps != [] {
      AfterKeepsInv(start, s, steps[0]);
      RunKeepsInv(start, After(s, steps[0]), steps[1..]);
    }
  }

  lemma StartSound(payload: Payload, id: string, content: string)
    ensures Inv(payload, System(Start(payload, id, content), map[]))
  {
  }

  /** Whatever the writers and their schedule: the journal is contiguous, the row is the last
      event's, and the payload is every committed edit applied in order - no update is lost. */
  lemma NoUpdateIsLost(payload: Payload, id: string, content: string, steps: seq<Step>)
    ensures var t := Run(System(Start(payload, id, content), map[]), steps).tables;
      && t.events != [] && t.row.head == |t.events| && (forall k | 0 <= k < |t.events| :: t.events[k].sequence == k + 1)
      && t.row.status == t.events[|t.events| - 1].status && t.row.payload == Folded(payload, t.events)
  {
    StartSound(payload, id, content);
    RunKeepsInv(payload, System(Start(payload, id, content), map[]), steps);
    var t := Run(System(Start(payload, id, content), map[]), steps).tables;
    assert t.events[..t.row.head] == t.events;
  }

  /** A run that asked to be cancelled can only be cancelled: it is never submitted or published
      afterwards, and a submitted run is never fenced. */
  lemma CancellationFencesSubmission(payload: Payload, id: string, content: string, steps: seq<Step>, i: nat, j: nat)
    ensures var t := Run(System(Start(payload, id, content), map[]), steps).tables;
      && (i < j < |t.events| && t.events[i].status == CancellationRequested ==> CancelSide(t.events[j].status))
      && !(t.submission.Some? && t.row.fenced)
      && (i < |t.events| && t.events[i].status == CancellationRequested ==> t.submission.None?)
  {
    StartSound(payload, id, content);
    RunKeepsInv(payload, System(Start(payload, id, content), map[]), steps);
    var t := Run(System(Start(payload, id, content), map[]), steps).tables;
    if i < |t.events| { assert t.events[i] in t.events; }
  }

  /** A swap under a new event id fails exactly when somebody committed since the row was read. */
  lemma SwapFailsIffStale(start: Payload, s: System, w: nat)
    requires Inv(start, s) && w in s.pending && s.pending[w].row.Some?
    requires s.pending[w].intent.Move? || s.pending[w].intent.Note?
    requires forall e | e in s.tables.events :: e.id != s.pending[w].id
    ensures OutcomeOf(s.tables, s.pending[w], s.pending[w].row.value) == SwapFailed
       <==> s.pending[w].row.value.head < |s.tables.events|
  {
    assert PendingSound(start, s.tables, s.pending[w]);
  }

  // ---------------------------------------------------------------- what a commit does

  /** A write that is applied moves the row as its writer intended: the edit it was begun with on top
      of the current payload - none for a cancellation - one event further, under the writer's id; and
      a running run is only ever submitted with a stored submission. */
  lemma CommitMeaning(start: Payload, s: System, w: nat)
    requires Inv(start, s) && w in s.pending && s.pending[w].row.Some?
    requires OutcomeOf(s.tables, s.pending[w], s.pending[w].row.value) == Applied
    ensures var p, before, after := s.pending[w], s.tables.row, After(s, Commit(w)).tables.row;
      && after.payload == (if p.intent.Cancel? then before.payload else (before.payload - p.edit.remove) + p.edit.put)
      && after.head == before.head + 1
      && after.status == (match p.intent case Move(t) => t case Note => before.status case Cancel(_) => CancellationRequested
                                         case Submit(_) => Submitted)
      && (before.status == Running && after.status == Submitted ==> After(s, Commit(w)).tables.submission.Some?)
    ensures var p, events := s.pending[w], After(s, Commit(w)).tables.events;
      && |events| == |s.tables.events| + 1 && events[..|s.tables.events|] == s.tables.events
      && events[|s.tables.events|].id == p.id && events[|s.tables.events|].content == p.content
  {
    AppliedTarget(start, s.tables, s.pending[w]);
    assert PendingSound(start, s.tables, s.pending[w]);
    hide Sound, Folded, RuntimeTransitions;
  }

  /** A writer works with what it was begun with. */
  lemma BegunAs(s: System, w: nat, intent: Intent, edit: Edit, id: string, content: string)
    requires MayBegin(s.tables.row.status, intent)
    ensures var t := After(s, Begin(w, intent, edit, id, content));
      && t.tables == s.tables && w in t.pending
      && t.pending[w] == Pending(intent, edit, id, content, if intent.Cancel? then None else Some(s.tables.row))
  {
  }

  // ---------------------------------------------------------------- submitted once, cancelled once

  /** A submission is stored by the commit of its writer only, and it is the writer's. */
  lemma StoredIsSubmitted(s: System, step: Step)
    requires After(s, step).tables.submission != s.tables.submission
    ensures step.Commit? && step.writer in s.pending && s.pending[step.writer].row.Some? && s.tables.submission.None?
    ensures var p := s.pending[step.writer];
      p.intent.Submit? && After(s, step).tables.submission == Some(p.intent.submission)
  {
  }

  /** A submission that is applied stores what it submits and moves the run to submitted. */
  lemma AppliedSubmissionIsStored(s: System, w: nat)
    requires w in s.pending && s.pending[w].row.Some? && s.pending[w].intent.Submit?
    requires OutcomeOf(s.tables, s.pending[w], s.pending[w].row.value) == Applied
    ensures var t := After(s, Commit(w)).tables;
      t.submission == Some(s.pending[w].intent.submission) && t.row.status == Submitted
  {
  }

  /** The writer gets this answer and changes nothing. */
  predicate Answers(t: Tables, p: Pending, row: Row, o: Outcome) {
    OutcomeOf(t, p, row) == o && Written(t, p, row) == t
  }

  lemma {:induction false} SubmissionStays(s: System, steps: seq<Step>)
    requires s.tables.submission.Some?
    ensures Run(s, steps).tables.submission == s.tables.submission
    decreases |steps|
  {
    if steps != [] {
      if After(s, steps[0]).tables.submission != s.tables.submission { StoredIsSubmitted(s, steps[0]); }
      SubmissionStays(After(s, steps[0]), steps[1..]);
    }
  }

  /** Whatever happens after a submission: the same one, made again, is answered as already applied,
      any other one and any new cancellation as already submitted, and none of them changes anything. */
  lemma SubmittedOnce(s: System, steps: seq<Step>, p: Pending, row: Row)
    requires s.tables.submission.Some?
    ensures var t := Run(s, steps).tables;
      && t.submission == s.tables.submission
      && (p.intent.Submit? ==>
            Answers(t, p, row, if p.intent.submission == t.submission.value then AlreadyApplied else AlreadySubmitted))
      && (p.intent.Cancel? && t.row.command != Some(p.intent.command) ==> Answers(t, p, row, AlreadySubmitted))
  {
    SubmissionStays(s, steps);
  }

  /** A run is fenced by the command that cancelled it. */
  predicate FencedByCommand(t: Tables) {
    t.row.fenced <==> t.row.command.Some?
  }

  lemma CommandStaysStep(s: System, step: Step)
    requires FencedByCommand(s.tables)
    ensures FencedByCommand(After(s, step).tables) && (s.tables.row.fenced ==> After(s, step).tables.row.fenced)
    ensures s.tables.row.fenced ==> After(s, step).tables.row.command == s.tables.row.command
  {
  }

  lemma {:induction false} CommandStays(s: System, steps: seq<Step>)
    requires FencedByCommand(s.tables)
    ensures FencedByCommand(Run(s, steps).tables) && (s.tables.row.fenced ==> Run(s, steps).tables.row.fenced)
    ensures s.tables.row.fenced ==> Run(s, steps).tables.row.command == s.tables.row.command
    decreases |steps|
  {
    if steps != [] {
      CommandStaysStep(s, steps[0]);
      CommandStays(After(s, steps[0]), steps[1..]);
    }
  }

  /** Over every schedule: after a cancellation is applied the same command, given again, is answered
      as already applied, and any other command or submission as fenced by it; none of them changes
      anything. */
  lemma CancelledOnce(payload: Payload, id: string, content: string, before: seq<Step>, w: nat, steps: seq<Step>, p: Pending, row: Row)
    requires var s := Run(System(Start(payload, id, content), map[]), before);
      w in s.pending && s.pending[w].row.Some? && s.pending[w].intent.Cancel?
      && OutcomeOf(s.tables, s.pending[w], s.pending[w].row.value) == Applied
    ensures var s := Run(System(Start(payload, id, content), map[]), before);
      var t := Run(After(s, Commit(w)), steps).tables;
      && t.row.command == Some(s.pending[w].intent.command)
      && (p.intent.Cancel? ==>
            Answers(t, p, row, if p.intent.command == s.pending[w].intent.command then AlreadyApplied else CancellationFenced))
      && (p.intent.Submit? ==> Answers(t, p, row, CancellationFenced))
  {
    var first := System(Start(payload, id, content), map[]);
    var s := Run(first, before);
    StartSound(payload, id, content);
    RunKeepsInv(payload, first, before);
    CommandStays(first, before);
    CommandStaysStep(s, Commit(w));
    CommandStays(After(s, Commit(w)), steps);
    AfterKeepsInv(payload, s, Commit(w));
    RunKeepsInv(payload, After(s, Commit(w)), steps);
    var u := Run(After(s, Commit(w)), steps);
    FencedMeansUnsubmitted(payload, u);
    CancelIsStored(s, w);
    hide *;
    FencedAnswers(u.tables, p, row);
  }

  lemma CancelIsStored(s: System, w: nat)
    requires w in s.pending && s.pending[w].row.Some? && s.pending[w].intent.Cancel?
    requires OutcomeOf(s.tables, s.pending[w], s.pending[w].row.value) == Applied
    ensures var t := After(s, Commit(w)).tables; t.row.fenced && t.row.command == Some(s.pending[w].intent.command)
  {
  }

  lemma FencedAnswers(t: Tables, p: Pending, row: Row)
    requires t.row.command.Some? && t.row.fenced && t.submission.None?
    ensures p.intent.Cancel? ==>
      Answers(t, p, row, if Some(p.intent.command) == t.row.command then AlreadyApplied else CancellationFenced)
    ensures p.intent.Submit? ==> Answers(t, p, row, CancellationFenced)
  {
  }

  lemma FencedMeansUnsubmitted(start: Payload, s: System)
    requires Inv(start, s)
    ensures !(s.tables.submission.Some? && s.tables.row.fenced)
  {
  }

  // ---------------------------------------------------------------- legal histories

  predicate LegalStep(a: Status, b: Status) {
    a == b || b in RuntimeTransitions(a)
  }

  ghost predicate LegalHistory(events: seq<RunEvent>) {
    forall k | 0 < k < |events| :: LegalStep(events[k - 1].status, events[k].status)
  }

  /** What a committed write does to the history.  Only a cancellation can be illegal, and it is
      legal exactly when the second read still found a cancellable state. */
  lemma CommitIsLegalIff(start: Payload, s: System, w: nat)
    requires Inv(start, s) && w in s.pending && s.pending[w].row.Some?
    requires OutcomeOf(s.tables, s.pending[w], s.pending[w].row.value) == Applied
    ensures var p := s.pending[w];
      LegalStep(s.tables.row.status, After(s, Commit(w)).tables.row.status) <==>
        (p.intent.Cancel? ==> p.row.value.status in CANCELLABLE)
  {
    assert PendingSound(start, s.tables, s.pending[w]);
    var row := s.pending[w].row.value;
    assert row.status == s.tables.row.status;
    if s.pending[w].intent.Cancel? { assert !s.tables.row.fenced; NotFencedNotCancelled(start, s.tables); }
  }

  lemma NotFencedNotCancelled(start: Payload, t: Tables)
    requires Sound(start, t) && !t.row.fenced
    ensures t.row.status != CancellationRequested
  {
    assert t.events[|t.events| - 1] in t.events;
  }

  /** In every schedule in which each cancellation's second read still finds a cancellable state,
      the history follows the table. */
  ghost predicate CancelsReadFresh(s: System, steps: seq<Step>)
    decreases |steps|
  {
    steps == []
    || ((steps[0].Reread? ==> s.tables.row.status in CANCELLABLE) && CancelsReadFresh(After(s, steps[0]), steps[1..]))
  }

  ghost predicate CancelsFresh(s: System) {
    forall w | w in s.pending && s.pending[w].intent.Cancel? && s.pending[w].row.Some? ::
      s.pending[w].row.value.status in CANCELLABLE
  }

  lemma LegalOneMore(events: seq<RunEvent>, e: RunEvent)
    requires events != [] && LegalHistory(events) && LegalStep(events[|events| - 1].status, e.status)
    ensures LegalHistory(events + [e])
  {
  }

  lemma CommitKeepsLegal(start: Payload, s: System, w: nat)
    requires Inv(start, s) && LegalHistory(s.tables.events) && CancelsFresh(s)
    requires w in s.pending && s.pending[w].row.Some?
    requires OutcomeOf(s.tables, s.pending[w], s.pending[w].row.value) == Applied
    ensures LegalHistory(After(s, Commit(w)).tables.events)
  {
    var p := s.pending[w];
    CommitIsLegalIff(start, s, w);
    AppliedTarget(start, s.tables, p);
    var u := WriteOf(p, p.row.value);
    LegalOneMore(s.tables.events, RunEvent(u.id, u.head + 1, u.target, u.content, u.edit));
  }

  lemma AfterKeepsLegal(start: Payload, s: System, step: Step)
    requires Inv(start, s) && LegalHistory(s.tables.events) && CancelsFresh(s)
    requires step.Reread? ==> s.tables.row.status in CANCELLABLE
    ensures LegalHistory(After(s, step).tables.events) && CancelsFresh(After(s, step))
  {
    if step.Commit? && step.writer in s.pending && s.pending[step.writer].row.Some? {
      var p := s.pending[step.writer];
      if OutcomeOf(s.tables, p, p.row.value) == Applied {
        CommitKeepsLegal(start, s, step.writer);
      } else {
        assert Written(s.tables, p, p.row.value).events == s.tables.events;
      }
    }
  }

  lemma {:induction false} FreshCancelsKeepHistoryLegal(start: Payload, s: System, steps: seq<Step>)
    requires Inv(start, s) && LegalHistory(s.tables.events) && CancelsFresh(s) && CancelsReadFresh(s, steps)
    ensures LegalHistory(Run(s, steps).tables.events)
    decreases |steps|
  {
    if steps != [] {
      AfterKeepsInv(start, s, steps[0]);
      AfterKeepsLegal(start, s, steps[0]);
      FreshCancelsKeepHistoryLegal(start, After(s, steps[0]), steps[1..]);
    }
  }

  /** Every cancellation that a schedule applies found a cancellable state on its second read. */
  ghost predicate AppliedCancelsFresh(s: System, steps: seq<Step>)
    decreases |steps|
  {
    steps == [] || (AppliesFresh(s, steps[0]) && AppliedCancelsFresh(After(s, steps[0]), steps[1..]))
  }

  ghost predicate AppliesFresh(s: System, step: Step) {
    step.Commit? && step.writer in s.pending && s.pending[step.writer].intent.Cancel? && s.pending[step.writer].row.Some?
    && OutcomeOf(s.tables, s.pending[step.writer], s.pending[step.writer].row.value) == Applied ==>
      s.pending[step.writer].row.value.status in CANCELLABLE
  }

  lemma LegalOneMoreIff(events: seq<RunEvent>, e: RunEvent)
    requires events != []
    ensures LegalHistory(events + [e]) <==> LegalHistory(events) && LegalStep(events[|events| - 1].status, e.status)
  {
    var all := events + [e];
    assert all[|events|] == e && all[|events| - 1] == events[|events| - 1];
    if LegalHistory(all) {
      forall k | 0 < k < |events| ensures LegalStep(events[k - 1].status, events[k].status) {
        assert all[k - 1] == events[k - 1] && all[k] == events[k];
      }
    }
  }

  lemma StepIsLegalIff(start: Payload, s: System, step: Step)
    requires Inv(start, s)
    ensures LegalHistory(After(s, step).tables.events) <==> LegalHistory(s.tables.events) && AppliesFresh(s, step)
  {
    hide LegalHistory, LegalStep, Folded;
    if step.Commit? && step.writer in s.pending && s.pending[step.writer].row.Some? {
      var p := s.pending[step.writer];
      if OutcomeOf(s.tables, p, p.row.value) == Applied {
        CommitIsLegalIff(start, s, step.writer);
        AppliedTarget(start, s.tables, p);
        var u := WriteOf(p, p.row.value);
        var e := RunEvent(u.id, u.head + 1, u.target, u.content, u.edit);
        assert After(s, step).tables.events == s.tables.events + [e] && After(s, step).tables.row.status == e.status;
        assert s.tables.row.status == s.tables.events[|s.tables.events| - 1].status;
        LegalOneMoreIff(s.tables.events, e);
      } else {
        assert Written(s.tables, p, p.row.value).events == s.tables.events;
      }
    }
  }

  /** Over every schedule: the history is a legal path exactly when every cancellation that was
      applied found a cancellable state on its second read. */
  lemma {:induction false} HistoryIsLegalIff(start: Payload, s: System, steps: seq<Step>)
    requires Inv(start, s) && LegalHistory(s.tables.events)
    ensures LegalHistory(Run(s, steps).tables.events) <==> AppliedCancelsFresh(s, steps)
    decreases |steps|
  {
    if steps != [] {
      var t := After(s, steps[0]);
      AfterKeepsInv(start, s, steps[0]);
      StepIsLegalIff(start, s, steps[0]);
      if AppliesFresh(s, steps[0]) {
        HistoryIsLegalIff(start, t, steps[1..]);
      } else {
        IllegalStaysIllegal(start, t, steps[1..]);
      }
    }
  }

  lemma {:induction false} IllegalStaysIllegal(start: Payload, s: System, steps: seq<Step>)
    requires Inv(start, s) && !LegalHistory(s.tables.events)
    ensures !LegalHistory(Run(s, steps).tables.events)
    decreases |steps|
  {
    if steps != [] {
      AfterKeepsInv(start, s, steps[0]);
      StepIsLegalIff(start, s, steps[0]);
      IllegalStaysIllegal(start, After(s, steps[0]), steps[1..]);
    }
  }

  /** The schedule that breaks the table: the run fails between the two reads of a cancellation,
      and the failed run is then marked as waiting for cancellation. */
  lemma CancelCanFollowFailure(payload: Payload)
    ensures var steps := [Begin(0, Cancel("stop"), NO_EDIT, "e3", ""), Begin(1, Move(Failed), NO_EDIT, "e2", ""),
                          Commit(1), Reread(0), Commit(0)];
      var t := Run(System(Start(payload, "e1", ""), map[]), steps).tables;
      |t.events| == 3 && t.events[1].status == Failed && t.events[2].status == CancellationRequested
      && !LegalHistory(t.events)
  {
    var s0 := System(Start(payload, "e1", ""), map[]);
    var a, b := Begin(0, Cancel("stop"), NO_EDIT, "e3", ""), Begin(1, Move(Failed), NO_EDIT, "e2", "");
    RunOne(s0, a, [b, Commit(1), Reread(0), Commit(0)]);
    RunOne(After(s0, a), b, [Commit(1), Reread(0), Commit(0)]);
    RunOne(After(After(s0, a), b), Commit(1), [Reread(0), Commit(0)]);
    FailsMeanwhile(payload);
    RunOne(FailedMeanwhile(payload), Reread(0), [Commit(0)]);
    RunOne(After(FailedMeanwhile(payload), Reread(0)), Commit(0), []);
    ThenCancels(payload);
    assert [a, b, Commit(1), Reread(0), Commit(0)] == [a] + [b, Commit(1), Reread(0), Commit(0)];
    assert [b, Commit(1), Reread(0), Commit(0)] == [b] + [Commit(1), Reread(0), Commit(0)];
    assert [Commit(1), Reread(0), Commit(0)] == [Commit(1)] + [Reread(0), Commit(0)];
    assert [Reread(0), Commit(0)] == [Reread(0)] + [Commit(0)];
    assert [Commit(0)] == [Commit(0)] + [];
  }

  /** The state after the failure: the cancellation has passed its check and not read again. */
  function FailedMeanwhile(payload: Payload): System {
    System(Tables(Row(Failed, 2, payload, false, None),
                  [RunEvent("e1", 1, Created, "", NO_EDIT), RunEvent("e2", 2, Failed, "", NO_EDIT)], None),
           map[0 := Pending(Cancel("stop"), NO_EDIT, "e3", "", None)])
  }

  lemma FailsMeanwhile(payload: Payload)
    ensures var a, b := Begin(0, Cancel("stop"), NO_EDIT, "e3", ""), Begin(1, Move(Failed), NO_EDIT, "e2", "");
      After(After(After(System(Start(payload, "e1", ""), map[]), a), b), Commit(1)) == FailedMeanwhile(payload)
  {
    var a, b := Begin(0, Cancel("stop"), NO_EDIT, "e3", ""), Begin(1, Move(Failed), NO_EDIT, "e2", "");
    var t := Start(payload, "e1", "");
    var s2 := After(After(System(t, map[]), a), b);
    var p := Pending(Move(Failed), NO_EDIT, "e2", "", Some(t.row));
    assert s2.pending[1] == p;
    assert Edited(payload, NO_EDIT) == payload;
    assert SwapOutcome(t, WriteOf(p, t.row)) == Applied;
    assert (s2.pending - {1}) == map[0 := Pending(Cancel("stop"), NO_EDIT, "e3", "", None)];
  }

  lemma ThenCancels(payload: Payload)
    ensures var t := After(After(FailedMeanwhile(payload), Reread(0)), Commit(0)).tables;
      |t.events| == 3 && t.events[1].status == Failed && t.events[2].status == CancellationRequested
      && !LegalHistory(t.events)
  {
    var s := FailedMeanwhile(payload);
    var p := Pending(Cancel("stop"), NO_EDIT, "e3", "", Some(s.tables.row));
    assert After(s, Reread(0)).pending[0] == p;
    assert CancelOutcome(s.tables, WriteOf(p, s.tables.row)) == Applied;
    var t := After(After(s, Reread(0)), Commit(0)).tables;
    assert !LegalStep(t.events[1].status, t.events[2].status);
  }

  // ---------------------------------------------------------------- what can happen

  /** One writer after the other, each between nobody else's read and write; the event ids grow. */
  function OneByOne(intents: seq<Intent>, ids: nat): seq<Step>
    decreases |intents|
  {
    if intents == [] then []
    else [Begin(0, intents[0], NO_EDIT, seq(ids, _ => 'x'), ""), Commit(0)] + OneByOne(intents[1..], ids + 1)
  }

  predicate MayWrite(status: Status, submitted: bool, intent: Intent) {
    match intent
    case Move(t) => MayMove(status, t)
    case Note => true
    case Submit(_) => (status == Running || status == Correcting) && !submitted
    case _ => false
  }

  function Reaches(status: Status, intent: Intent): Status {
    match intent
    case Move(t) => t
    case Submit(_) => Submitted
    case _ => status
  }

  /** A path that the checks of the writers allow, without a cancellation. */
  predicate Allowed(status: Status, submitted: bool, intents: seq<Intent>)
    decreases |intents|
  {
    intents == [] || (MayWrite(status, submitted, intents[0])
                      && Allowed(Reaches(status, intents[0]), submitted || intents[0].Submit?, intents[1..]))
  }

  function Reached(status: Status, intents: seq<Intent>): Status
    decreases |intents|
  {
    if intents == [] then status else Reached(Reaches(status, intents[0]), intents[1..])
  }

  predicate Submits(intents: seq<Intent>) {
    exists i :: i in intents && i.Submit?
  }

  /** No cancellation was asked for, and the ids from `ids` letters on are free. */
  ghost predicate Open(s: System, ids: nat) {
    !s.tables.row.fenced && s.tables.row.command.None? && forall e | e in s.tables.events :: |e.id| < ids
  }

  lemma WriteHappens(s: System, intent: Intent, ids: nat, rest: seq<Step>) returns (t: System)
    requires Open(s, ids) && MayWrite(s.tables.row.status, s.tables.submission.Some?, intent)
    ensures Run(s, [Begin(0, intent, NO_EDIT, seq(ids, _ => 'x'), ""), Commit(0)] + rest) == Run(t, rest)
    ensures Open(t, ids + 1) && t.tables.row.status == Reaches(s.tables.row.status, intent)
    ensures t.tables.submission.Some? <==> s.tables.submission.Some? || intent.Submit?
  {
    var id := seq(ids, _ => 'x');
    var begin := Begin(0, intent, NO_EDIT, id, "");
    var mid := After(s, begin);
    var p := Pending(intent, NO_EDIT, id, "", Some(s.tables.row));
    assert mid.pending[0] == p;
    assert SwapOutcome(s.tables, WriteOf(p, s.tables.row)) == Applied;
    t := After(mid, Commit(0));
    assert [begin, Commit(0)] + rest == [begin] + ([Commit(0)] + rest);
    RunOne(s, begin, [Commit(0)] + rest);
    RunOne(mid, Commit(0), rest);
  }

  lemma SubmitsFirstOrLater(intents: seq<Intent>)
    requires intents != []
    ensures Submits(intents) <==> intents[0].Submit? || Submits(intents[1..])
  {
    assert intents == [intents[0]] + intents[1..];
  }

  /** Every path that the checks allow happens under some schedule. */
  lemma {:induction false} AllowedPathHappens(s: System, intents: seq<Intent>, ids: nat)
    requires Open(s, ids) && Allowed(s.tables.row.status, s.tables.submission.Some?, intents)
    ensures var t := Run(s, OneByOne(intents, ids)).tables;
      && t.row.status == Reached(s.tables.row.status, intents)
      && (t.submission.Some? <==> s.tables.submission.Some? || Submits(intents))
    decreases |intents|
  {
    if intents != [] {
      var t := WriteHappens(s, intents[0], ids, OneByOne(intents[1..], ids + 1));
      AllowedPathHappens(t, intents[1..], ids + 1);
      SubmitsFirstOrLater(intents);
    }
  }

  lemma OneEarlier(status: Status, submitted: bool, intent: Intent, path: seq<Intent>) returns (longer: seq<Intent>)
    requires MayWrite(status, submitted, intent)
    requires Allowed(Reaches(status, intent), submitted || intent.Submit?, path) && Reached(Reaches(status, intent), path) == Running
    ensures Allowed(status, submitted, longer) && Reached(status, longer) == Running
    ensures Submits(longer) <==> intent.Submit? || Submits(path)
  {
    longer := [intent] + path;
    assert longer[1..] == path;
    SubmitsFirstOrLater(longer);
  }

  lemma CorrectedPath() returns (path: seq<Intent>)
    ensures Allowed(Submitted, true, path) && Reached(Submitted, path) == Running
  {
    path := OneEarlier(Correcting, true, Move(Running), []);
    path := OneEarlier(CorrectionAuthorized, true, Move(Correcting), path);
    path := OneEarlier(Rejected, true, Move(CorrectionAuthorized), path);
    path := OneEarlier(Validating, true, Move(Rejected), path);
    path := OneEarlier(Submitted, true, Move(Validating), path);
  }

  /** A run that was submitted, rejected and corrected can be running again, with its submission. */
  lemma SubmittedRunCanBeRunning(payload: Payload, id: string, content: string)
    ensures exists steps :: SubmittedAndRunning(Run(System(Start(payload, id, content), map[]), steps).tables)
  {
    var path := CorrectedPath();
    path := OneEarlier(Running, false, Submit("s"), path);
    path := OneEarlier(Prepared, false, Move(Running), path);
    path := OneEarlier(Preparing, false, Move(Prepared), path);
    path := OneEarlier(Created, false, Move(Preparing), path);
    var start := System(Start(payload, id, content), map[]);
    AllowedPathHappens(start, path, |id| + 1);
    assert SubmittedAndRunning(Run(start, OneByOne(path, |id| + 1)).tables);
  }

  predicate SubmittedAndRunning(t: Tables) {
    t.row.status == Running && t.submission.Some?
  }

  lemma RunOne(s: System, step: Step, rest: seq<Step>)
    ensures Run(s, [step] + rest) == Run(After(s, step), rest)
  {
    assert ([step] + rest)[1..] == rest;
  }
}
