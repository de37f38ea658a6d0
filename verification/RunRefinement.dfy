/** The coordinator's view of a run against the tables it is a view of: its atomic writes are those of
    the repository (src/model_forge/storage/repository.py). */
module RunRefinement {
  import opened Wrappers
  import opened RunStates
  import opened PublicationHead
  import RunCoordinator
  import RunRecovery
  import RunLifecycle
  import Authority

  predicate Views(d: RunCoordinator.Durable, t: RunLifecycle.Tables) {
    d.status == t.row.status && d.fenced == t.row.fenced && (d.submitted <==> t.submission.Some?)
  }

  /** A run starts as `create_run` leaves it. */
  lemma NewIsRepositorys(head: Head, payload: RunLifecycle.Payload, id: string, content: string)
    ensures Views(RunRecovery.New(head).d, RunLifecycle.Start(payload, id, content))
    ensures RunRecovery.New(head).d.head == head && RunRecovery.New(head).d.frozen.None? && RunRecovery.New(head).d.receipts == []
  {
  }

  /** Asking to cancel is what the service and the repository make of a new command: the service asks
      for a cancellable run only, and the repository applies it unless the run is submitted or fenced. */
  lemma CancelIsRepositorys(d: RunCoordinator.Durable, t: RunLifecycle.Tables, w: RunLifecycle.Write)
    requires Views(d, t) && RunLifecycle.Current(t, w) && w.target == CancellationRequested
    requires w.command.Some? && t.row.command != w.command && forall e | e in t.events :: e.id != w.id
    ensures var applied := d.status in {Created, Preparing, Prepared, Running} && RunLifecycle.CancelOutcome(t, w) == RunLifecycle.Applied;
      Views(RunCoordinator.AskedToCancel(d), if applied then RunLifecycle.Committed(t, w) else t)
  {
  }

  /** A transition writes exactly when the swap of the repository still finds the status it read. */
  lemma MoveIsRepositorys(d: RunCoordinator.Durable, t: RunLifecycle.Tables, w: RunLifecycle.Write)
    requires Views(d, t) && w.command.None? && forall e | e in t.events :: e.id != w.id
    requires t.row.status == w.expected ==> t.row.head == w.head
    ensures Views(RunCoordinator.Moved(d, w.expected, w.target), RunLifecycle.Swapped(t, w))
  {
  }

  /** The run publishes exactly when the repository accepts a publication that expects the frozen head,
      and both make the same head and the same receipt of it. */
  lemma PublishIsRepositorys(h: Authority.Hashes, p: Authority.Project, plan: Authority.Plan, d: RunCoordinator.Durable)
    requires d.head == p.head && d.frozen == Some(plan.expected)
    requires p.head == plan.expected ==> Authority.Accepts(h, p, plan)
    requires plan.entries != []
    ensures var root := Authority.Fold(h, p.head.root, Authority.Payloads(plan.entries));
      var e := RunCoordinator.Publishes(d, |plan.entries| - 1, root);
      var q := if Authority.Accepts(h, p, plan) then Authority.Committed(h, p, plan) else p;
      && e.head == q.head && (|e.receipts| > |d.receipts| <==> |q.receipts| > |p.receipts|)
      && (|q.receipts| > |p.receipts| ==>
            e.receipts == d.receipts + [RunCoordinator.Receipt(q.receipts[|p.receipts|].prior, q.receipts[|p.receipts|].next)])
  {
  }
}
