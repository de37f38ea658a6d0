/** The journal part of the package validator
    (architecture/tools/validate_package.py, `validate_run_state_journal`). */
module RunJournal {
  import opened Wrappers
  import opened RunStates

  type Digest = int

  /** Everything in an event that its digest covers: all fields but the digest itself. */
  datatype Body = Body(sequence: int, id: string, prior: Digest, at: string, from: Option<JournalStatus>,
                       to: JournalStatus, rest: string)

  datatype Event = Event(body: Body, sha256: Digest)

  datatype RunState = RunState(events: seq<Event>, root: Digest, current: JournalStatus, updatedAt: string)

  /** The digest of a canonical document, the digest of all zeros, and the reading of a time. */
  datatype Primitives = Primitives(sha: Body -> Digest, zero: Digest, time: string -> int)

  datatype Issue =
    | SequenceGap | DuplicateId | BrokenChain(id: string) | InvalidDigest(id: string) | TimeGoesBack
    | FirstNotCreate | WrongFrom(id: string) | IllegalTransition(id: string)
    | RootMismatch | StateMismatch | TimeMismatch

  function PriorDigest(p: Primitives, events: seq<Event>, i: nat): Digest
    requires i <= |events|
  {
    if i == 0 then p.zero else events[i - 1].sha256
  }

  /** What the messages about the place of event `i` in the chain claim. */
  ghost predicate ChainIssue(p: Primitives, events: seq<Event>, i: nat, x: Issue)
    requires i < |events|
  {
    var b := events[i].body;
    match x
    case SequenceGap => b.sequence != i + 1
    case DuplicateId => exists k :: 0 <= k < i && events[k].body.id == b.id
    case BrokenChain(id) => id == b.id && b.prior != PriorDigest(p, events, i)
    case InvalidDigest(id) => id == b.id && events[i].sha256 != p.sha(b)
    case _ => false
  }

  /** What the messages about the step event `i` takes claim. */
  ghost predicate StepIssue(p: Primitives, events: seq<Event>, i: nat, x: Issue)
    requires i < |events|
  {
    var b := events[i].body;
    match x
    case TimeGoesBack => i > 0 && p.time(b.at) < p.time(events[i - 1].body.at)
    case FirstNotCreate => i == 0 && (b.from.Some? || b.to != Created)
    case WrongFrom(id) => i > 0 && id == b.id && b.from != Some(events[i - 1].body.to)
    case IllegalTransition(id) => i > 0 && id == b.id && b.to !in JournalTransitions(events[i - 1].body.to)
    case _ => false
  }

  ghost predicate EventIssue(p: Primitives, events: seq<Event>, i: nat, x: Issue)
    requires i < |events|
  {
    ChainIssue(p, events, i, x) || StepIssue(p, events, i, x)
  }

  ghost predicate SomeEventIssue(p: Primitives, events: seq<Event>, n: nat, x: Issue)
    requires n <= |events|
  {
    exists i :: 0 <= i < n && EventIssue(p, events, i, x)
  }

  /** What the messages about the end of the journal claim. */
  ghost predicate EndIssue(p: Primitives, r: RunState, x: Issue) {
    var n := |r.events|;
    match x
    case RootMismatch => r.root != PriorDigest(p, r.events, n)
    case StateMismatch => n == 0 || r.current != r.events[n - 1].body.to
    case TimeMismatch => n == 0 || p.time(r.updatedAt) != p.time(r.events[n - 1].body.at)
    case _ => false
  }

  /** What a message of the validator claims. */
  ghost predicate JournalIssue(p: Primitives, r: RunState, x: Issue) {
    SomeEventIssue(p, r.events, |r.events|, x) || EndIssue(p, r, x)
  }

  method CheckChain(p: Primitives, events: seq<Event>, i: nat, ids: set<string>) returns (errors: seq<Issue>)
    requires i < |events| && ids == set k | 0 <= k < i :: events[k].body.id
    ensures forall x :: x in errors <==> ChainIssue(p, events, i, x)
  {
    errors := [];
    var b := events[i].body;
    if b.sequence != i + 1 { errors := errors + [SequenceGap]; }
    if b.id in ids { errors := errors + [DuplicateId]; }
    if b.prior != PriorDigest(p, events, i) { errors := errors + [BrokenChain(b.id)]; }
    if events[i].sha256 != p.sha(b) { errors := errors + [InvalidDigest(b.id)]; }
  }

  method CheckStep(p: Primitives, events: seq<Event>, i: nat) returns (errors: seq<Issue>)
    requires i < |events|
    ensures forall x :: x in errors <==> StepIssue(p, events, i, x)
  {
    errors := [];
    var b := events[i].body;
    if i == 0 {
      if b.from.Some? || b.to != Created { errors := errors + [FirstNotCreate]; }
    } else {
      var before := events[i - 1].body;
      if p.time(b.at) < p.time(before.at) { errors := errors + [TimeGoesBack]; }
      if b.from != Some(before.to) { errors := errors + [WrongFrom(b.id)]; }
      if b.to !in JournalTransitions(before.to) { errors := errors + [IllegalTransition(b.id)]; }
    }
  }

  method CheckEnd(p: Primitives, r: RunState) returns (errors: seq<Issue>)
    ensures forall x :: x in errors <==> EndIssue(p, r, x)
  {
    errors := [];
    var n := |r.events|;
    if r.root != PriorDigest(p, r.events, n) { errors := errors + [RootMismatch]; }
    if n == 0 || r.current != r.events[n - 1].body.to { errors := errors + [StateMismatch]; }
    if n == 0 || p.time(r.updatedAt) != p.time(r.events[n - 1].body.at) { errors := errors + [TimeMismatch]; }
  }

  /** `validate_run_state_journal`: a message is reported exactly when what it claims is so. */
  method ValidateRunStateJournal(p: Primitives, r: RunState) returns (errors: seq<Issue>)
    ensures forall x :: x in errors <==> JournalIssue(p, r, x)
    ensures errors == [] <==> Accepted(p, r)
  {
    errors := [];
    var ids: set<string> := {};
    var i := 0;
    while i < |r.events|
      invariant 0 <= i <= |r.events|
      invariant ids == set k | 0 <= k < i :: r.events[k].body.id
      invariant forall x :: x in errors <==> SomeEventIssue(p, r.events, i, x)
    {
      var chain := CheckChain(p, r.events, i, ids);
      var step := CheckStep(p, r.events, i);
      ids := ids + {r.events[i].body.id};
      ghost var before := errors;
      errors := errors + (chain + step);
      forall x ensures x in errors <==> SomeEventIssue(p, r.events, i + 1, x) {
        assert x in errors <==> x in before || x in chain || x in step;
        assert EventIssue(p, r.events, i, x) <==> x in chain || x in step;
      }
      i := i + 1;
    }
    var end := CheckEnd(p, r);
    errors := errors + end;
    NoIssueMeansAccepted(p, r);
    EmptyIff(errors);
  }

  lemma EmptyIff(errors: seq<Issue>)
    ensures errors == [] <==> forall x :: x !in errors
  {
    if errors != [] { assert errors[0] in errors; }
  }

  // ---------------------------------------------------------------- what acceptance means

  /** A chained journal that starts with the creation of the run and follows the table. */
  ghost predicate Accepted(p: Primitives, r: RunState) {
    && r.events != []
    && (forall i | 0 <= i < |r.events| :: EventFits(p, r.events, i) && NewId(r.events, i))
    && EndFits(p, r)
  }

  ghost predicate EndFits(p: Primitives, r: RunState)
    requires r.events != []
  {
    var last := r.events[|r.events| - 1];
    r.root == last.sha256 && r.current == last.body.to && p.time(r.updatedAt) == p.time(last.body.at)
  }

  ghost predicate EventFits(p: Primitives, events: seq<Event>, i: nat)
    requires i < |events|
  {
    var b := events[i].body;
    && b.sequence == i + 1 && events[i].sha256 == p.sha(b)
    && if i == 0 then b.prior == p.zero && b.from == None && b.to == Created
       else
         var before := events[i - 1];
         && b.prior == before.sha256 && p.time(before.body.at) <= p.time(b.at)
         && b.from == Some(before.body.to) && b.to in JournalTransitions(before.body.to)
  }

  ghost predicate NewId(events: seq<Event>, i: nat)
    requires i < |events|
  {
    forall k | 0 <= k < i :: events[k].body.id != events[i].body.id
  }

  lemma EventFitsIff(p: Primitives, events: seq<Event>, i: nat)
    requires i < |events|
    ensures (forall x :: !EventIssue(p, events, i, x)) <==> EventFits(p, events, i) && NewId(events, i)
  {
    var id := events[i].body.id;
    if forall x :: !EventIssue(p, events, i, x) {
      assert !EventIssue(p, events, i, SequenceGap) && !EventIssue(p, events, i, DuplicateId);
      assert !EventIssue(p, events, i, BrokenChain(id)) && !EventIssue(p, events, i, InvalidDigest(id));
      assert !EventIssue(p, events, i, TimeGoesBack) && !EventIssue(p, events, i, FirstNotCreate);
      assert !EventIssue(p, events, i, WrongFrom(id)) && !EventIssue(p, events, i, IllegalTransition(id));
    }
  }

  lemma EndFitsIff(p: Primitives, r: RunState)
    ensures (forall x :: !EndIssue(p, r, x)) <==> r.events != [] && EndFits(p, r)
  {
    if forall x :: !EndIssue(p, r, x) {
      assert !EndIssue(p, r, RootMismatch) && !EndIssue(p, r, StateMismatch) && !EndIssue(p, r, TimeMismatch);
    }
  }

  lemma NoIssueMeansAccepted(p: Primitives, r: RunState)
    ensures (forall x :: !JournalIssue(p, r, x)) <==> Accepted(p, r)
  {
    EndFitsIff(p, r);
    forall i | 0 <= i < |r.events|
      ensures (forall x :: !EventIssue(p, r.events, i, x)) <==> EventFits(p, r.events, i) && NewId(r.events, i)
    {
      EventFitsIff(p, r.events, i);
    }
    if forall x :: !JournalIssue(p, r, x) {
      forall i, x | 0 <= i < |r.events| ensures !EventIssue(p, r.events, i, x) {
        assert !SomeEventIssue(p, r.events, |r.events|, x) by { assert !JournalIssue(p, r, x); }
      }
      forall x ensures !EndIssue(p, r, x) { assert !JournalIssue(p, r, x); }
    }
    if Accepted(p, r) {
      forall i, x | 0 <= i < |r.events| ensures !EventIssue(p, r.events, i, x) {
        assert EventFits(p, r.events, i) && NewId(r.events, i);
      }
    }
  }

  ghost predicate Injective(sha: Body -> Digest) {
    forall a, b :: sha(a) == sha(b) ==> a == b
  }

  lemma {:induction false} SameTailSamePrefix(p: Primitives, a: seq<Event>, b: seq<Event>)
    requires Injective(p.sha) && a != [] && b != []
    requires forall i | 0 <= i < |a| :: EventFits(p, a, i)
    requires forall i | 0 <= i < |b| :: EventFits(p, b, i)
    requires a[|a| - 1].sha256 == b[|b| - 1].sha256
    ensures a == b
  {
    var m, n := |a| - 1, |b| - 1;
    assert EventFits(p, a, m) && EventFits(p, b, n);
    assert a[m].body == b[n].body;
    if m > 0 {
      forall i | 0 <= i < m ensures EventFits(p, a[..m], i) { assert EventFits(p, a, i); }
      forall i | 0 <= i < n ensures EventFits(p, b[..n], i) { assert EventFits(p, b, i); }
      SameTailSamePrefix(p, a[..m], b[..n]);
      assert a == a[..m] + [a[m]] && b == b[..n] + [b[n]];
    }
  }

  /** Two accepted journals with one root are the same journal: nothing in the history can be
      changed without changing the root. */
  lemma RootFixesJournal(p: Primitives, a: RunState, b: RunState)
    requires Injective(p.sha) && Accepted(p, a) && Accepted(p, b) && a.root == b.root
    ensures a.events == b.events && a.current == b.current && p.time(a.updatedAt) == p.time(b.updatedAt)
  {
    SameTailSamePrefix(p, a.events, b.events);
  }

  /** Every step of the table goes up, and no rank is above 7. */
  function Rank(s: JournalStatus): nat {
    match s
    case Created => 0
    case Preparing => 1
    case Prepared => 2
    case Running => 3
    case CancellationRequested => 4
    case Submitted => 4
    case Validating => 5
    case Promoting => 6
    case _ => 7
  }

  lemma StepsGoUp(s: JournalStatus, t: JournalStatus)
    requires t in JournalTransitions(s)
    ensures Rank(t) > Rank(s)
  {
    match s
    case _ =>
  }

  lemma {:induction false} RanksRise(p: Primitives, r: RunState, i: nat, j: nat)
    requires Accepted(p, r) && i < j < |r.events|
    ensures Rank(r.events[i].body.to) + (j - i) <= Rank(r.events[j].body.to)
    decreases j
  {
    assert EventFits(p, r.events, j);
    StepsGoUp(r.events[j - 1].body.to, r.events[j].body.to);
    if i < j - 1 { RanksRise(p, r, i, j - 1); }
  }

  ghost predicate Names(r: RunState, s: JournalStatus) {
    exists i :: 0 <= i < |r.events| && r.events[i].body.to == s
  }

  /** An accepted journal is a legal path from the creation of the run, of at most 8 events; it
      never names a state twice, and a run that asked to be cancelled was never submitted. */
  lemma AcceptedJournalsAreShortPaths(p: Primitives, r: RunState)
    requires Accepted(p, r)
    ensures |r.events| <= 8 && r.events[0].body.to == Created
    ensures forall i, j | 0 <= i < j < |r.events| :: r.events[i].body.to != r.events[j].body.to
    ensures !(Names(r, CancellationRequested) && Names(r, Submitted))
  {
    assert EventFits(p, r.events, 0);
    if |r.events| > 1 { RanksRise(p, r, 0, |r.events| - 1); }
    forall i, j | 0 <= i < j < |r.events| ensures Rank(r.events[i].body.to) < Rank(r.events[j].body.to) {
      RanksRise(p, r, i, j);
    }
  }

  /** Nothing follows a terminal state. */
  lemma TerminalEndsJournal(p: Primitives, r: RunState, i: nat)
    requires Accepted(p, r) && i < |r.events|
    ensures JournalTransitions(r.events[i].body.to) == {} ==> i == |r.events| - 1
  {
    if i + 1 < |r.events| { assert EventFits(p, r.events, i + 1); }
  }
}
