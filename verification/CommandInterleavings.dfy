/** Any number of project commands, Phase 2 runs and publications of other runs at once: the outcome
    is that of the committed ones executed one after the other. */
module CommandInterleavings {
  import opened Wrappers
  import opened PublicationHead
  import opened MethodCatalog
  import opened Authority
  import opened ProjectCommands
  import opened MethodIndex
  import opened MethodPublications

  /** A command between its start and its commit. */
  datatype Client = Client(command: Command, ids: Ids, seen: map<string, Read>, head: Option<Head>)

  /** What was committed: a command, the method records of a Phase 2 run, or a publication of any
      other records. */
  datatype Done =
    | Ran(command: Command, ids: Ids)
    | Methods(changes: seq<Item>, decision: string)
    | Elsewhere(news: seq<(string, Document)>)

  datatype System = System(p: Project, clients: map<nat, Client>, runs: map<nat, MethodRun>, done: seq<Done>)

  datatype Step =
    | Start(client: nat, command: Command, ids: Ids)
    | ReadSlot(client: nat, slot: string)
    | ReadHead(client: nat)
    | Commit(client: nat)
    | ResolveInput(run: nat)
    | CaptureBasis(run: nat)
    | VerifyHead(run: nat)
    | VerifyInput(run: nat)
    | PublishMethods(run: nat, changes: seq<Item>, decision: string, receipt: string, generations: seq<string>, entries: seq<Entry>)
    | Foreign(plan: Plan)

  ghost function After(h: Hashes, s: System, step: Step): System {
    match step
    case Start(c, command, ids) => s.(clients := s.clients[c := Client(command, ids, map[], None)])
    case ReadSlot(c, slot) =>
      if c in s.clients then
        var k := s.clients[c];
        s.(clients := s.clients[c := k.(seen := k.seen[slot := ReadOf(s.p, slot)])])
      else s
    case ReadHead(c) =>
      if c in s.clients then s.(clients := s.clients[c := s.clients[c].(head := Some(s.p.head))]) else s
    case Commit(c) =>
      if c in s.clients && Ready(s.clients[c]) then
        var k := s.clients[c];
        var plan := PlanFor(h, k.command, k.seen, k.head.value, k.ids);
        var rest := s.(clients := s.clients - {c});
        if plan.Ok? then Attempt(h, rest, plan.value, Ran(k.command, k.ids)) else rest
      else s
    case Foreign(plan) => Attempt(h, s, plan, Elsewhere(DocumentsOf(plan.writes)))
    case PublishMethods(r, changes, decision, receipt, generations, entries) =>
      if r in s.runs then
        var plan := PlanFrom(s.runs[r], changes, decision, receipt, generations, entries);
        var rest := s.(runs := s.runs - {r});
        if plan.Some? then Attempt(h, rest, plan.value, Methods(changes, decision)) else rest
      else s
    case _ => s.(runs := Prepared(s.p, s.runs, step))
  }

  /** One publication transaction. */
  ghost function Attempt(h: Hashes, s: System, plan: Plan, change: Done): System {
    if Accepts(h, s.p, plan) then s.(p := Committed(h, s.p, plan), done := s.done + [change]) else s
  }

  /** The steps of a run's preparation; a check that fails ends the run. */
  function Prepared(p: Project, runs: map<nat, MethodRun>, step: Step): map<nat, MethodRun> {
    match step
    case ResolveInput(r) => runs[r := MethodRun(CatalogRead(p), None, false, false)]
    case CaptureBasis(r) =>
      if r in runs && runs[r].basis.None? then runs[r := runs[r].(basis := Some(Basis(p.head, p.slots)))] else runs
    case VerifyHead(r) =>
      if r in runs && runs[r].basis.Some?
      then if runs[r].basis.value.head == p.head then runs[r := runs[r].(headSeen := true)] else runs - {r}
      else runs
    case VerifyInput(r) =>
      if r in runs && runs[r].basis.Some? && runs[r].headSeen
      then if runs[r].input.None? || Lookup(p.slots, CATALOG) == Some(runs[r].input.value.0)
           then runs[r := runs[r].(inputSeen := true)] else runs - {r}
      else runs
    case _ => runs
  }

  /** Every record the command needs and the head have been read, in whatever order. */
  predicate Ready(k: Client) {
    k.head.Some? && forall s | s in SlotsRead(k.command) :: s in k.seen
  }

  ghost function Run(h: Hashes, s: System, steps: seq<Step>): System
    decreases |steps|
  {
    if steps == [] then s else Run(h, After(h, s, steps[0]), steps[1..])
  }

  /** One committed change executed on the current documents. */
  function Next(docs: map<string, Document>, d: Done): Option<map<string, Document>> {
    match d
    case Ran(c, ids) =>
      var r := Effect(docs, c, ids);
      if r.Ok? then Some(Replaced(docs, r.value)) else None
    case Methods(changes, decision) =>
      var r := MethodNews(CatalogIn(docs), changes, decision);
      if r.Ok? then Some(Replaced(docs, r.value)) else None
    case Elsewhere(news) => Some(Replaced(docs, news))
  }

  /** All of them, one after the other; none may be refused. */
  function Replay(docs: map<string, Document>, done: seq<Done>): Option<map<string, Document>> {
    if done == [] then Some(docs)
    else
      var before := Replay(docs, done[..|done| - 1]);
      if before.Some? then Next(before.value, done[|done| - 1]) else None
  }

  ghost predicate Inv(h: Hashes, s: System) {
    && Sound(h, s.p) && (forall c | c in s.clients :: SeenFits(s.p, s.clients[c].seen))
    && forall r | r in s.runs :: RunFits(s.p, s.runs[r])
  }

  lemma GenerationsStay(h: Hashes, p: Project, plan: Plan)
    requires Accepts(h, p, plan)
    ensures forall g | g in p.generations ::
      g in Committed(h, p, plan).generations && Committed(h, p, plan).generations[g] == p.generations[g]
  {
    GenerationsStayAt(p, plan.writes, |plan.writes|);
    assert plan.writes[..|plan.writes|] == plan.writes;
  }

  lemma {:induction false} GenerationsStayAt(p: Project, ws: seq<Write>, i: nat)
    requires i <= |ws| && forall k | 0 <= k < i :: WriteFits(p, ws, k)
    ensures forall g | g in p.generations ::
      g in AfterWrites(p, ws[..i]).generations && AfterWrites(p, ws[..i]).generations[g] == p.generations[g]
  {
    if i > 0 {
      GenerationsStayAt(p, ws, i - 1);
      WriteNext(p, ws, i - 1);
      assert WriteFits(p, ws, i - 1);
    } else {
      assert ws[..0] == [];
    }
  }

  /** A publication leaves what commands and runs have read as it was. */
  lemma AttemptKeepsInv(h: Hashes, s: System, plan: Plan, change: Done)
    requires Inv(h, s)
    ensures Inv(h, Attempt(h, s, plan, change))
  {
    if Accepts(h, s.p, plan) {
      CommittedIsSound(h, s.p, plan);
      GenerationsStay(h, s.p, plan);
      forall r | r in s.runs ensures RunFits(Committed(h, s.p, plan), s.runs[r]) {
        CommitKeepsRun(s.p, Committed(h, s.p, plan), s.runs[r]);
      }
    }
  }

  lemma PreparationKeepsRuns(p: Project, runs: map<nat, MethodRun>, step: Step)
    requires forall r | r in runs :: RunFits(p, runs[r])
    ensures forall r | r in Prepared(p, runs, step) :: RunFits(p, Prepared(p, runs, step)[r])
  {
  }

  lemma AfterKeepsInv(h: Hashes, s: System, step: Step)
    requires Inv(h, s)
    ensures Inv(h, After(h, s, step))
  {
    hide Attempt, Sound;
    match step
    case Start(_, _, _) =>
    case ReadSlot(_, _) =>
    case ReadHead(_) =>
    case Commit(c) =>
      if c in s.clients && Ready(s.clients[c]) {
        var k := s.clients[c];
        var plan := PlanFor(h, k.command, k.seen, k.head.value, k.ids);
        if plan.Ok? { AttemptKeepsInv(h, s.(clients := s.clients - {c}), plan.value, Ran(k.command, k.ids)); }
      }
    case Foreign(plan) => AttemptKeepsInv(h, s, plan, Elsewhere(DocumentsOf(plan.writes)));
    case PublishMethods(r, changes, decision, receipt, generations, entries) =>
      if r in s.runs {
        var plan := PlanFrom(s.runs[r], changes, decision, receipt, generations, entries);
        if plan.Some? { AttemptKeepsInv(h, s.(runs := s.runs - {r}), plan.value, Methods(changes, decision)); }
      }
    case _ => PreparationKeepsRuns(s.p, s.runs, step);
  }

  ghost predicate Serial(s: System, t: System) {
    || (t.done == s.done && t.p == s.p)
    || (|t.done| == |s.done| + 1 && t.done[..|s.done|] == s.done && Next(Docs(s.p), t.done[|s.done|]) == Some(Docs(t.p)))
  }

  /** A publication is serial when the change it is recorded as writes the same documents. */
  lemma AttemptIsSerial(h: Hashes, s: System, plan: Plan, change: Done)
    requires Inv(h, s)
    requires Accepts(h, s.p, plan) ==> Next(Docs(s.p), change) == Some(Replaced(Docs(s.p), DocumentsOf(plan.writes)))
    ensures Serial(s, Attempt(h, s, plan, change))
  {
    if Accepts(h, s.p, plan) { DocsAfterCommit(h, s.p, plan); }
  }

  lemma CommandIsSerial(h: Hashes, s: System, k: Client, plan: Plan)
    requires Inv(h, s) && k.head.Some? && SeenFits(s.p, k.seen)
    requires PlanFor(h, k.command, k.seen, k.head.value, k.ids) == Ok(plan)
    ensures Serial(s, Attempt(h, s, plan, Ran(k.command, k.ids)))
  {
    if Accepts(h, s.p, plan) { AcceptedReadsAreCurrent(h, s.p, k.command, k.seen, k.head.value, k.ids); }
    AttemptIsSerial(h, s, plan, Ran(k.command, k.ids));
  }

  lemma MethodRunIsSerial(h: Hashes, s: System, k: MethodRun, changes: seq<Item>, decision: string, receipt: string,
                          generations: seq<string>, entries: seq<Entry>, plan: Plan)
    requires Inv(h, s) && RunFits(s.p, k) && PlanFrom(k, changes, decision, receipt, generations, entries) == Some(plan)
    ensures Serial(s, Attempt(h, s, plan, Methods(changes, decision)))
  {
    if Accepts(h, s.p, plan) { AcceptedInputIsCurrent(h, s.p, k, changes, decision, receipt, generations, entries); }
    AttemptIsSerial(h, s, plan, Methods(changes, decision));
  }

  /** A step either commits nothing, or commits one change that would have been executed on the
      current documents at that moment with the same result. */
  lemma StepIsSerial(h: Hashes, s: System, step: Step)
    requires Inv(h, s)
    ensures Serial(s, After(h, s, step))
  {
    hide Attempt, Next, Sound, PlanFor, PlanFrom;
    match step
    case Commit(c) =>
      if c in s.clients && Ready(s.clients[c]) {
        var k := s.clients[c];
        var plan := PlanFor(h, k.command, k.seen, k.head.value, k.ids);
        if plan.Ok? { CommandIsSerial(h, s.(clients := s.clients - {c}), k, plan.value); }
      }
    case Foreign(plan) =>
      ElsewhereIsNext(Docs(s.p), DocumentsOf(plan.writes));
      AttemptIsSerial(h, s, plan, Elsewhere(DocumentsOf(plan.writes)));
    case PublishMethods(r, changes, decision, receipt, generations, entries) =>
      if r in s.runs {
        var plan := PlanFrom(s.runs[r], changes, decision, receipt, generations, entries);
        if plan.Some? {
          MethodRunIsSerial(h, s.(runs := s.runs - {r}), s.runs[r], changes, decision, receipt, generations, entries, plan.value);
        }
      }
    case _ =>
  }

  lemma ElsewhereIsNext(docs: map<string, Document>, news: seq<(string, Document)>)
    ensures Next(docs, Elsewhere(news)) == Some(Replaced(docs, news))
  {
  }

  lemma {:induction false} RunIsSerial(h: Hashes, s: System, steps: seq<Step>, docs: map<string, Document>)
    requires Inv(h, s) && Replay(docs, s.done) == Some(Docs(s.p))
    ensures var t := Run(h, s, steps);
      Inv(h, t) && Replay(docs, t.done) == Some(Docs(t.p)) && s.done <= t.done
    decreases |steps|
  {
    if steps != [] {
      AfterKeepsInv(h, s, steps[0]);
      StepIsSerial(h, s, steps[0]);
      RunIsSerial(h, After(h, s, steps[0]), steps[1..], docs);
    }
  }

  function Beginning(p: Project): System {
    System(p, map[], map[], [])
  }

  /** No update is lost: over every interleaving the current records are what the committed
      commands, Phase 2 runs and other publications make of the first ones, executed alone in the
      order of their commits; and the project stays authentic. */
  lemma EveryInterleavingIsSerial(h: Hashes, p: Project, steps: seq<Step>)
    requires Sound(h, p)
    ensures var end := Run(h, Beginning(p), steps);
      Sound(h, end.p) && Replay(Docs(p), end.done) == Some(Docs(end.p))
  {
    RunIsSerial(h, Beginning(p), steps, Docs(p));
  }

  // ---------------------------------------------------------------- what happens alone

  function Reads(client: nat, slots: seq<string>): seq<Step> {
    if slots == [] then [] else [ReadSlot(client, slots[0])] + Reads(client, slots[1..])
  }

  lemma RunOne(h: Hashes, s: System, step: Step, rest: seq<Step>)
    ensures Run(h, s, [step] + rest) == Run(h, After(h, s, step), rest)
  {
    assert ([step] + rest)[1..] == rest;
  }

  function Knowing(s: System, client: nat, seen: map<string, Read>): System
    requires client in s.clients
  {
    s.(clients := s.clients[client := s.clients[client].(seen := seen)])
  }

  lemma OneMoreRead(h: Hashes, s: System, client: nat, slots: seq<string>)
    requires client in s.clients && slots != []
    ensures var seen := s.clients[client].seen;
      && After(h, s, ReadSlot(client, slots[0])) == Knowing(s, client, seen[slots[0] := ReadOf(s.p, slots[0])])
      && seen[slots[0] := ReadOf(s.p, slots[0])] + ReadsOf(s.p, slots[1..]) == seen + ReadsOf(s.p, slots)
  {
    hide Attempt, PlanFor, PlanFrom, ReadOf;
  }

  lemma KnowingTwice(s: System, client: nat, seen: map<string, Read>, more: map<string, Read>)
    requires client in s.clients
    ensures Knowing(Knowing(s, client, seen), client, more) == Knowing(s, client, more)
    ensures Knowing(s, client, s.clients[client].seen) == s
  {
    assert s.clients[client := s.clients[client]] == s.clients;
    assert s.clients[client := s.clients[client].(seen := seen)][client := s.clients[client].(seen := more)]
        == s.clients[client := s.clients[client].(seen := more)];
  }

  lemma {:induction false} ReadsRun(h: Hashes, s: System, client: nat, slots: seq<string>, rest: seq<Step>)
    requires client in s.clients
    ensures Run(h, s, Reads(client, slots) + rest)
         == Run(h, Knowing(s, client, s.clients[client].seen + ReadsOf(s.p, slots)), rest)
    decreases |slots|
  {
    hide After, Run;
    var seen := s.clients[client].seen;
    if slots == [] {
      assert [] + rest == rest && seen + ReadsOf(s.p, slots) == seen;
      KnowingTwice(s, client, seen, seen);
    } else {
      var next, tail := ReadSlot(client, slots[0]), Reads(client, slots[1..]) + rest;
      var known := seen[slots[0] := ReadOf(s.p, slots[0])];
      assert Reads(client, slots) + rest == [next] + tail;
      RunOne(h, s, next, tail);
      OneMoreRead(h, s, client, slots);
      ReadsRun(h, Knowing(s, client, known), client, slots[1..], rest);
      KnowingTwice(s, client, known, seen + ReadsOf(s.p, slots));
    }
  }

  /** A command that nobody disturbs - it reads what it needs, then the head, then commits - does what
      its execution on the current records does. */
  lemma CommandAlone(h: Hashes, p: Project, client: nat, c: Command, ids: Ids)
    ensures var steps := [Start(client, c, ids)] + (Reads(client, SlotsRead(c)) + ([ReadHead(client)] + ([Commit(client)] + [])));
      var plan := PlanNow(h, p, c, ids);
      Run(h, Beginning(p), steps).p == if plan.Ok? && Accepts(h, p, plan.value) then Committed(h, p, plan.value) else p
  {
    var s := Beginning(p);
    var started := After(h, s, Start(client, c, ids));
    var tail := [ReadHead(client)] + ([Commit(client)] + []);
    RunOne(h, s, Start(client, c, ids), Reads(client, SlotsRead(c)) + tail);
    ReadsRun(h, started, client, SlotsRead(c), tail);
    assert map[] + ReadsOf(p, SlotsRead(c)) == ReadsOf(p, SlotsRead(c));
    var read := Knowing(started, client, ReadsOf(p, SlotsRead(c)));
    RunOne(h, read, ReadHead(client), [Commit(client)] + []);
    var ready := After(h, read, ReadHead(client));
    RunOne(h, ready, Commit(client), []);
    CommitAlone(h, ready, client);
  }

  lemma CommitAlone(h: Hashes, s: System, client: nat)
    requires client in s.clients && s.clients[client].head == Some(s.p.head)
    requires s.clients[client].seen == ReadsOf(s.p, SlotsRead(s.clients[client].command))
    ensures var plan := PlanNow(h, s.p, s.clients[client].command, s.clients[client].ids);
      After(h, s, Commit(client)).p == if plan.Ok? && Accepts(h, s.p, plan.value) then Committed(h, s.p, plan.value) else s.p
  {
    hide PlanFor, Committed, Accepts;
  }

  /** What a run publishes that prepares itself on the current records: what it makes of the current
      catalog.  A catalog slot that holds no catalog is refused. */
  function PlanOfNow(p: Project, changes: seq<Item>, decision: string, receipt: string, generations: seq<string>,
                     entries: seq<Entry>): Option<Plan>
  {
    var news := MethodNews(CatalogIn(Docs(p)), changes, decision);
    if news.Err? || (CATALOG in p.slots && CatalogIn(Docs(p)).None?) then None
    else Some(Plan(receipt, p.head, WritesFrom(Basis(p.head, p.slots), news.value, generations), entries))
  }

  ghost function Outcome(h: Hashes, p: Project, plan: Option<Plan>): Project {
    if plan.Some? && Accepts(h, p, plan.value) then Committed(h, p, plan.value) else p
  }

  lemma FreshRunPlan(p: Project, changes: seq<Item>, decision: string, receipt: string, generations: seq<string>, entries: seq<Entry>)
    ensures PlanFrom(MethodRun(CatalogRead(p), Some(Basis(p.head, p.slots)), true, true), changes, decision, receipt, generations, entries)
         == PlanOfNow(p, changes, decision, receipt, generations, entries)
  {
    DocsAt(p, CATALOG);
    hide MethodNews;
  }

  function MethodRunSteps(r: nat, changes: seq<Item>, decision: string, receipt: string, generations: seq<string>,
                          entries: seq<Entry>): seq<Step>
  {
    [ResolveInput(r), CaptureBasis(r), VerifyHead(r), VerifyInput(r), PublishMethods(r, changes, decision, receipt, generations, entries)]
  }

  /** A run of the project that has come this far. */
  function Preparing(p: Project, r: nat, basis: Option<Basis>, headSeen: bool, inputSeen: bool): System {
    Beginning(p).(runs := map[r := MethodRun(CatalogRead(p), basis, headSeen, inputSeen)])
  }

  lemma PreparationSteps(h: Hashes, p: Project, r: nat)
    ensures var basis := Some(Basis(p.head, p.slots));
      && After(h, Beginning(p), ResolveInput(r)) == Preparing(p, r, None, false, false)
      && After(h, Preparing(p, r, None, false, false), CaptureBasis(r)) == Preparing(p, r, basis, false, false)
      && After(h, Preparing(p, r, basis, false, false), VerifyHead(r)) == Preparing(p, r, basis, true, false)
      && After(h, Preparing(p, r, basis, true, false), VerifyInput(r)) == Preparing(p, r, basis, true, true)
  {
    hide Attempt, PlanFor, PlanFrom;
    var input := CatalogRead(p);
    assert input.Some? ==> Lookup(p.slots, CATALOG) == Some(input.value.0);
  }

  /** The four steps of the preparation, when nobody is in between. */
  lemma PreparedAlone(h: Hashes, p: Project, r: nat, rest: seq<Step>)
    ensures Run(h, Beginning(p), [ResolveInput(r), CaptureBasis(r), VerifyHead(r), VerifyInput(r)] + rest)
         == Run(h, Preparing(p, r, Some(Basis(p.head, p.slots)), true, true), rest)
  {
    hide After, Run, Preparing;
    var basis := Some(Basis(p.head, p.slots));
    PreparationSteps(h, p, r);
    var two, three := [VerifyHead(r), VerifyInput(r)] + rest, [CaptureBasis(r), VerifyHead(r), VerifyInput(r)] + rest;
    RunOne(h, Beginning(p), ResolveInput(r), three);
    RunOne(h, Preparing(p, r, None, false, false), CaptureBasis(r), two);
    RunOne(h, Preparing(p, r, basis, false, false), VerifyHead(r), [VerifyInput(r)] + rest);
    RunOne(h, Preparing(p, r, basis, true, false), VerifyInput(r), rest);
    assert [ResolveInput(r), CaptureBasis(r), VerifyHead(r), VerifyInput(r)] + rest == [ResolveInput(r)] + three;
    assert three == [CaptureBasis(r)] + two && two == [VerifyHead(r)] + ([VerifyInput(r)] + rest);
  }

  /** A Phase 2 run that nobody disturbs publishes what it makes of the current catalog. */
  lemma MethodRunAlone(h: Hashes, p: Project, r: nat, changes: seq<Item>, decision: string, receipt: string,
                       generations: seq<string>, entries: seq<Entry>)
    ensures Run(h, Beginning(p), MethodRunSteps(r, changes, decision, receipt, generations, entries)).p
         == Outcome(h, p, PlanOfNow(p, changes, decision, receipt, generations, entries))
  {
    hide Committed, Accepts, MethodNews, CatalogIn, WritesFrom, CatalogRead, PlanFrom, PlanOfNow;
    var publish := PublishMethods(r, changes, decision, receipt, generations, entries);
    var ready := Preparing(p, r, Some(Basis(p.head, p.slots)), true, true);
    FreshRunPlan(p, changes, decision, receipt, generations, entries);
    PreparedAlone(h, p, r, [publish]);
    RunOne(h, ready, publish, []);
    assert [publish] == [publish] + [];
    assert MethodRunSteps(r, changes, decision, receipt, generations, entries)
        == [ResolveInput(r), CaptureBasis(r), VerifyHead(r), VerifyInput(r)] + [publish];
  }

  // ---------------------------------------------------------------- the log

  /** Whatever runs beside it, a command that commits leaves in the log exactly the news of the slots
      it changed. */
  lemma CommitsAreAnnounced(h: Hashes, p: Project, steps: seq<Step>, client: nat)
    requires Sound(h, p)
    ensures var s := Run(h, Beginning(p), steps);
      var t := After(h, s, Commit(client));
      t.p == s.p || (LogTells(s.p, t.p) && |t.done| == |s.done| + 1)
  {
    RunIsSerial(h, Beginning(p), steps, Docs(p));
    CommitTells(h, Run(h, Beginning(p), steps), client);
    hide *;
  }

  lemma CommitTells(h: Hashes, s: System, client: nat)
    requires Inv(h, s)
    ensures var t := After(h, s, Commit(client));
      t.p == s.p || (LogTells(s.p, t.p) && |t.done| == |s.done| + 1)
  {
    hide PlanFor, LogTells, Committed, Accepts;
    if client in s.clients && Ready(s.clients[client]) {
      var k := s.clients[client];
      var plan := PlanFor(h, k.command, k.seen, k.head.value, k.ids);
      if plan.Ok? && Accepts(h, s.p, plan.value) { EveryWriteIsAnnounced(h, s.p, k.command, k.seen, k.head.value, k.ids); }
    }
  }

  lemma {:induction false} RunInTwoParts(h: Hashes, s: System, steps: seq<Step>, i: nat)
    requires i <= |steps|
    ensures Run(h, s, steps) == Run(h, Run(h, s, steps[..i]), steps[i..])
    decreases i
  {
    if i > 0 {
      RunInTwoParts(h, After(h, s, steps[0]), steps[1..], i - 1);
      assert steps[1..][..i - 1] == steps[..i][1..] && steps[1..][i - 1..] == steps[i..];
    }
  }
}
