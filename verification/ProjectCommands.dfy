/** The commands that publish without a run: create a project brief, update it, and change the
    lifecycle of a method (src/model_forge/application/project_commands.py,
    src/model_forge/application/method_lifecycle.py).  Each command reads current records, then
    the head, and then commits one publication against what it read. */
module ProjectCommands {
  import opened Wrappers
  import opened PublicationHead
  import opened MethodCatalog
  import opened Authority
  import ProjectBriefs

  const BRIEF := "project.brief.current"
  const CATALOG := "p2.method_catalog.current"

  function MethodSlot(id: string): string {
    "methods/" + id + "/current"
  }

  datatype Command =
    | CreateBrief(creation: ProjectBriefs.Creation)
    | UpdateBrief(update: ProjectBriefs.Update)
    | ChangeMethod(id: string, target: string)

  /** The new identities and publication fields of one attempt; identities are random. */
  datatype Ids = Ids(receipt: string, generation: string, second: string, events: seq<string>, stamp: Fields, catalogStamp: Fields)

  /** A record as a command read it: its generation and its document. */
  type Read = Option<(string, Document)>

  datatype CommandError = NoBrief | BriefRefused(reason: ProjectBriefs.BriefError) | Refused(error: ChangeError)

  // ---------------------------------------------------------------- what each command publishes

  function EventId(ids: Ids, k: nat): string {
    if k < |ids.events| then ids.events[k] else ""
  }

  function Published(ids: Ids, k: nat, slot: string, generation: string): Payload {
    Payload(EventId(ids, k), "formal_generation_published", slot, generation, "")
  }

  function Superseded(ids: Ids, k: nat, slot: string, generation: string, replacement: string): Payload {
    Payload(EventId(ids, k), "formal_generation_superseded", slot, generation, replacement)
  }

  /** The entries that chain documents to a root, as the loops of the commands compute them. */
  function EntriesFor(h: Hashes, root: Digest, payloads: seq<Payload>): (r: seq<Entry>)
    ensures |r| == |payloads|
    ensures forall k | 0 <= k < |r| :: r[k] == Entry(payloads[k], Fold(h, root, payloads[..k + 1]))
  {
    seq(|payloads|, k requires 0 <= k < |payloads| => Entry(payloads[k], Fold(h, root, payloads[..k + 1])))
  }

  method ChainEntries(h: Hashes, root: Digest, payloads: seq<Payload>) returns (entries: seq<Entry>)
    ensures entries == EntriesFor(h, root, payloads)
  {
    entries := [];
    var authorityRoot := root;
    var i := 0;
    while i < |payloads|
      invariant 0 <= i <= |payloads| && authorityRoot == Fold(h, root, payloads[..i])
      invariant entries == EntriesFor(h, root, payloads)[..i]
    {
      LastFold(h, root, payloads, i);
      authorityRoot := h.extend(authorityRoot, h.content(payloads[i]));
      entries := entries + [Entry(payloads[i], authorityRoot)];
      i := i + 1;
    }
  }

  /** The documents a command writes, given the current ones, slot by slot. */
  function Effect(docs: map<string, Document>, c: Command, ids: Ids): Result<seq<(string, Document)>, CommandError> {
    match c
    case CreateBrief(creation) =>
      var r := ProjectBriefs.Created(creation);
      if r.Err? then Err(BriefRefused(r.error)) else Ok([(BRIEF, Brief(r.value))])
    case UpdateBrief(update) =>
      if BRIEF !in docs || !docs[BRIEF].Brief? then Err(NoBrief)
      else
        var r := ProjectBriefs.Revised(docs[BRIEF].fields, update, ids.stamp);
        if r.Err? then Err(BriefRefused(r.error)) else Ok([(BRIEF, Brief(r.value))])
    case ChangeMethod(id, target) =>
      var m := if MethodSlot(id) in docs && docs[MethodSlot(id)].MethodRecord? then Some(docs[MethodSlot(id)].doc) else None;
      var k := if CATALOG in docs && docs[CATALOG].MethodCatalogRecord? then Some(docs[CATALOG].catalog) else None;
      var r := Change(m, k, id, target, ids.stamp, ids.catalogStamp);
      if r.Err? then Err(Refused(r.error))
      else Ok([(MethodSlot(id), MethodRecord(r.value.0)), (CATALOG, MethodCatalogRecord(r.value.1))])
  }

  /** The slots a command reads first. */
  function SlotsRead(c: Command): seq<string> {
    match c
    case CreateBrief(_) => []
    case UpdateBrief(_) => [BRIEF]
    case ChangeMethod(id, _) => [MethodSlot(id), CATALOG]
  }

  function DocsRead(seen: map<string, Read>): map<string, Document> {
    map s | s in seen && seen[s].Some? :: seen[s].value.1
  }

  function Expected(seen: map<string, Read>, slot: string): Option<string> {
    if slot in seen && seen[slot].Some? then Some(seen[slot].value.0) else None
  }

  function GenerationId(ids: Ids, k: nat): string {
    if k == 0 then ids.generation else ids.second
  }

  function WritesFor(seen: map<string, Read>, docs: seq<(string, Document)>, ids: Ids): (r: seq<Write>)
    ensures |r| == |docs|
  {
    seq(|docs|, k requires 0 <= k < |docs| => Write(docs[k].0, GenerationId(ids, k), Expected(seen, docs[k].0), docs[k].1))
  }

  /** Each replacement is announced as published and, when it supersedes, as superseding. */
  function PayloadsFor(ws: seq<Write>, ids: Ids): seq<Payload> {
    if ws == [] then []
    else
      var last := |ws| - 1;
      var w := ws[last];
      PayloadsFor(ws[..last], ids) + [Published(ids, 2 * last, w.slot, w.generation)]
      + (if w.expected.Some? then [Superseded(ids, 2 * last + 1, w.slot, w.expected.value, w.generation)] else [])
  }

  /** The publication a command attempts.  Creation always expects the empty head. */
  function PlanFor(h: Hashes, c: Command, seen: map<string, Read>, head: Head, ids: Ids): Result<Plan, CommandError> {
    var docs := Effect(DocsRead(seen), c, ids);
    if docs.Err? then Err(docs.error)
    else
      var basis := if c.CreateBrief? then Head(0, h.zero, 0) else head;
      var writes := WritesFor(seen, docs.value, ids);
      Ok(Plan(ids.receipt, basis, writes, EntriesFor(h, basis.root, PayloadsFor(writes, ids))))
  }

  // ---------------------------------------------------------------- current documents

  function ReadOf(p: Project, slot: string): Read {
    if slot in p.slots && p.slots[slot] in p.generations
    then Some((p.slots[slot], p.generations[p.slots[slot]].document)) else None
  }

  /** The document of every current record. */
  function Docs(p: Project): map<string, Document> {
    map s | s in p.slots && p.slots[s] in p.generations :: p.generations[p.slots[s]].document
  }

  function Replaced(docs: map<string, Document>, news: seq<(string, Document)>): map<string, Document> {
    if news == [] then docs
    else Replaced(docs, news[..|news| - 1])[news[|news| - 1].0 := news[|news| - 1].1]
  }

  function DocumentsOf(ws: seq<Write>): (r: seq<(string, Document)>)
    ensures |r| == |ws| && forall k | 0 <= k < |r| :: r[k] == (ws[k].slot, ws[k].document)
  {
    seq(|ws|, k requires 0 <= k < |ws| => (ws[k].slot, ws[k].document))
  }

  lemma ReadAfterWrite(p: Project, w: Write, s: string)
    requires s in p.slots ==> p.slots[s] in p.generations
    requires w.generation !in p.generations
    ensures ReadOf(AfterWrite(p, w), s) == if s == w.slot then Some((w.generation, w.document)) else ReadOf(p, s)
  {
  }

  lemma DocsAt(p: Project, s: string)
    ensures s in Docs(p) <==> ReadOf(p, s).Some?
    ensures s in Docs(p) ==> Docs(p)[s] == ReadOf(p, s).value.1
  {
  }

  lemma DocsAfterWrite(p: Project, w: Write)
    requires Linear(p) && w.generation !in p.generations
    ensures Docs(AfterWrite(p, w)) == Docs(p)[w.slot := w.document]
  {
    var after, expected := Docs(AfterWrite(p, w)), Docs(p)[w.slot := w.document];
    forall s ensures (s in after <==> s in expected) && (s in after ==> after[s] == expected[s]) {
      if s in p.slots { CurrentExists(p, s); }
      ReadAfterWrite(p, w, s);
      DocsAt(p, s);
      DocsAt(AfterWrite(p, w), s);
    }
  }

  lemma {:induction false} ReplacedNext(docs: map<string, Document>, news: seq<(string, Document)>, i: nat)
    requires i < |news|
    ensures Replaced(docs, news[..i + 1]) == Replaced(docs, news[..i])[news[i].0 := news[i].1]
  {
    assert news[..i + 1][..i] == news[..i];
  }

  lemma NextWriteIsNew(p: Project, ws: seq<Write>, i: nat)
    requires Linear(p) && i < |ws| && forall k | 0 <= k <= i :: WriteFits(p, ws, k)
    ensures Linear(AfterWrites(p, ws[..i])) && ws[i].generation !in AfterWrites(p, ws[..i]).generations
  {
    WritesKeepChains(p, ws, i);
    AfterWritesAt(p, ws, i);
    assert WriteFits(p, ws, i);
  }

  lemma {:induction false} DocsAfterWrites(p: Project, ws: seq<Write>, i: nat)
    requires Linear(p) && i <= |ws| && forall k | 0 <= k < i :: WriteFits(p, ws, k)
    ensures Docs(AfterWrites(p, ws[..i])) == Replaced(Docs(p), DocumentsOf(ws)[..i])
  {
    if i > 0 {
      var n := i - 1;
      DocsAfterWrites(p, ws, n);
      NextWriteIsNew(p, ws, n);
      DocsAfterWrite(AfterWrites(p, ws[..n]), ws[n]);
      WriteNext(p, ws, n);
      ReplacedNext(Docs(p), DocumentsOf(ws), n);
    } else {
      assert ws[..0] == [] && DocumentsOf(ws)[..0] == [];
    }
  }

  /** A committed publication replaces exactly the documents it writes. */
  lemma DocsAfterCommit(h: Hashes, p: Project, plan: Plan)
    requires Sound(h, p) && Accepts(h, p, plan)
    ensures Docs(Committed(h, p, plan)) == Replaced(Docs(p), DocumentsOf(plan.writes))
  {
    DocsAfterWrites(p, plan.writes, |plan.writes|);
    assert plan.writes[..|plan.writes|] == plan.writes;
    assert DocumentsOf(plan.writes)[..|plan.writes|] == DocumentsOf(plan.writes);
  }

  // ---------------------------------------------------------------- one command at a time

  lemma EffectLocal(a: map<string, Document>, b: map<string, Document>, c: Command, ids: Ids)
    requires forall s | s in SlotsRead(c) :: (s in a <==> s in b) && (s in a ==> a[s] == b[s])
    ensures Effect(a, c, ids) == Effect(b, c, ids)
  {
  }

  lemma WritesAreEffect(seen: map<string, Read>, docs: seq<(string, Document)>, ids: Ids)
    ensures DocumentsOf(WritesFor(seen, docs, ids)) == docs
  {
  }

  /** A command's effect writes exactly the slots it read, in order, and every one of them was
      there; creation writes the brief. */
  lemma EffectWritesWhatItRead(docs: map<string, Document>, c: Command, ids: Ids)
    requires Effect(docs, c, ids).Ok?
    ensures var news := Effect(docs, c, ids).value;
      if c.CreateBrief? then |news| == 1 && news[0].0 == BRIEF
      else |news| == |SlotsRead(c)| && forall k | 0 <= k < |news| :: news[k].0 == SlotsRead(c)[k] && SlotsRead(c)[k] in docs
  {
  }

  /** A plan that is accepted was computed from the records that are still current. */
  lemma AcceptedReadsAreCurrent(h: Hashes, p: Project, c: Command, seen: map<string, Read>, head: Head, ids: Ids)
    requires PlanFor(h, c, seen, head, ids).Ok? && Accepts(h, p, PlanFor(h, c, seen, head, ids).value)
    requires SeenFits(p, seen)
    ensures Effect(Docs(p), c, ids) == Ok(DocumentsOf(PlanFor(h, c, seen, head, ids).value.writes))
  {
    var plan := PlanFor(h, c, seen, head, ids).value;
    var read := DocsRead(seen);
    var news := Effect(read, c, ids).value;
    WritesAreEffect(seen, news, ids);
    EffectWritesWhatItRead(read, c, ids);
    if !c.CreateBrief? {
      forall s | s in SlotsRead(c) ensures s in read && s in Docs(p) && read[s] == Docs(p)[s] {
        var k :| 0 <= k < |SlotsRead(c)| && SlotsRead(c)[k] == s;
        assert news[k].0 == s && WriteFits(p, plan.writes, k);
        assert Lookup(p.slots, s) == Some(seen[s].value.0);
      }
      EffectLocal(read, Docs(p), c, ids);
    }
  }

  /** What was read of a record is still in the generation it was read from. */
  ghost predicate SeenFits(p: Project, seen: map<string, Read>) {
    forall s | s in seen && seen[s].Some? ::
      seen[s].value.0 in p.generations && p.generations[seen[s].value.0].document == seen[s].value.1
  }

  /** The roots a command computes are the ones the repository expects, so it is never refused
      for them when its head is current. */
  lemma RootsFit(h: Hashes, p: Project, payloads: seq<Payload>, i: nat)
    requires i < |payloads|
    ensures EntriesFor(h, p.head.root, payloads)[i].root
         == Fold(h, p.head.root, Payloads(EntriesFor(h, p.head.root, payloads))[..i + 1])
  {
    assert Payloads(EntriesFor(h, p.head.root, payloads)) == payloads;
  }

  // ---------------------------------------------------------------- what the log says

  /** The document at `i` says that the generation became the current one of the slot. */
  predicate SaysPublished(ps: seq<Payload>, i: nat, slot: string, generation: string) {
    i < |ps| && ps[i].kind == "formal_generation_published" && ps[i].slot == slot && ps[i].generation == generation && ps[i].rest == ""
  }

  /** The document at `i` says that the first generation of the slot gave way to the second. */
  predicate SaysSuperseded(ps: seq<Payload>, i: nat, slot: string, generation: string, replacement: string) {
    i < |ps| && ps[i].kind == "formal_generation_superseded" && ps[i].slot == slot && ps[i].generation == generation
    && ps[i].rest == replacement
  }

  /** The change of a slot is told once: the new generation as published and, if there was one before,
      right after it that one as superseded by the new one; and nothing else is said of the slot. */
  ghost predicate ToldAt(ps: seq<Payload>, slot: string, before: Option<string>, after: string, i: nat) {
    && SaysPublished(ps, i, slot, after) && (before.Some? ==> SaysSuperseded(ps, i + 1, slot, before.value, after))
    && forall k | 0 <= k < |ps| && ps[k].slot == slot :: k == i || (before.Some? && k == i + 1)
  }

  /** A slot that changed is told of once, a slot that did not is not mentioned. */
  ghost predicate SlotTold(ps: seq<Payload>, slot: string, before: Option<string>, after: Option<string>) {
    if before == after then forall k | 0 <= k < |ps| :: ps[k].slot != slot
    else after.Some? && exists i: nat :: ToldAt(ps, slot, before, after.value, i)
  }

  function PayloadsSince(before: Project, after: Project): seq<Payload>
    requires before.log <= after.log
  {
    seq(|after.log| - |before.log|, k requires 0 <= k < |after.log| - |before.log| => after.log[|before.log| + k].payload)
  }

  /** The log grew by exactly the news of the slots that changed. */
  ghost predicate LogTells(before: Project, after: Project) {
    before.log <= after.log
    && forall slot :: SlotTold(PayloadsSince(before, after), slot, Lookup(before.slots, slot), Lookup(after.slots, slot))
  }

  predicate SlotsDiffer(ws: seq<Write>) {
    forall i, j | 0 <= i < j < |ws| :: ws[i].slot != ws[j].slot
  }

  lemma {:induction false} OthersAreNotTold(ws: seq<Write>, ids: Ids, slot: string)
    requires forall k | 0 <= k < |ws| :: ws[k].slot != slot
    ensures forall k | 0 <= k < |PayloadsFor(ws, ids)| :: PayloadsFor(ws, ids)[k].slot != slot
  {
    if ws != [] { OthersAreNotTold(ws[..|ws| - 1], ids, slot); }
  }

  lemma {:induction false} WriteIsTold(ws: seq<Write>, ids: Ids, k: nat) returns (i: nat)
    requires SlotsDiffer(ws) && k < |ws|
    ensures ToldAt(PayloadsFor(ws, ids), ws[k].slot, ws[k].expected, ws[k].generation, i)
    decreases |ws|
  {
    var last := |ws| - 1;
    var front := PayloadsFor(ws[..last], ids);
    if k == last {
      OthersAreNotTold(ws[..last], ids, ws[k].slot);
      i := |front|;
    } else {
      i := WriteIsTold(ws[..last], ids, k);
      assert ws[k].slot != ws[last].slot;
    }
  }

  lemma {:induction false} SlotAfterWrites(p: Project, ws: seq<Write>, k: nat)
    requires SlotsDiffer(ws) && k < |ws|
    ensures Lookup(AfterWrites(p, ws).slots, ws[k].slot) == Some(ws[k].generation)
    decreases |ws|
  {
    var last := |ws| - 1;
    if k < last {
      SlotAfterWrites(p, ws[..last], k);
      assert ws[k].slot != ws[last].slot;
    }
  }

  lemma SlotIsTold(p: Project, ws: seq<Write>, ids: Ids, slot: string)
    requires Linear(p) && forall k | 0 <= k < |ws| :: WriteFits(p, ws, k)
    ensures SlotTold(PayloadsFor(ws, ids), slot, Lookup(p.slots, slot), Lookup(AfterWrites(p, ws).slots, slot))
  {
    assert SlotsDiffer(ws) by {
      forall i, j | 0 <= i < j < |ws| ensures ws[i].slot != ws[j].slot { assert WriteFits(p, ws, j); }
    }
    if k :| 0 <= k < |ws| && ws[k].slot == slot {
      var i := WriteIsTold(ws, ids, k);
      SlotAfterWrites(p, ws, k);
      assert WriteFits(p, ws, k);
      if slot in p.slots { CurrentExists(p, slot); }
    } else {
      OthersAreNotTold(ws, ids, slot);
      AfterWritesAt(p, ws, |ws|);
      assert ws[..|ws|] == ws;
    }
  }

  /** Every change a command commits is announced, and nothing else is: for each slot whose current
      generation changed the log gains one document that the new generation is published and, if it
      replaces one, one that the old generation is superseded by the new. */
  lemma EveryWriteIsAnnounced(h: Hashes, p: Project, c: Command, seen: map<string, Read>, head: Head, ids: Ids)
    requires Sound(h, p) && PlanFor(h, c, seen, head, ids).Ok? && Accepts(h, p, PlanFor(h, c, seen, head, ids).value)
    ensures LogTells(p, Committed(h, p, PlanFor(h, c, seen, head, ids).value))
  {
    PlanTells(h, c, seen, head, ids);
    CommittedTells(h, p, PlanFor(h, c, seen, head, ids).value, ids);
    hide *;
  }

  lemma PlanTells(h: Hashes, c: Command, seen: map<string, Read>, head: Head, ids: Ids)
    requires PlanFor(h, c, seen, head, ids).Ok?
    ensures var plan := PlanFor(h, c, seen, head, ids).value; Payloads(plan.entries) == PayloadsFor(plan.writes, ids)
  {
    hide PayloadsFor, Effect, WritesFor;
  }

  lemma CommittedTells(h: Hashes, p: Project, plan: Plan, ids: Ids)
    requires Sound(h, p) && Accepts(h, p, plan) && Payloads(plan.entries) == PayloadsFor(plan.writes, ids)
    ensures LogTells(p, Committed(h, p, plan))
  {
    var q, payloads := Committed(h, p, plan), PayloadsFor(plan.writes, ids);
    assert q.log == p.log + EventsFor(h, p.head, plan.receipt, payloads);
    assert PayloadsSince(p, q) == payloads;
    assert q.slots == AfterWrites(p, plan.writes).slots;
    hide PayloadsFor, SlotTold, Fold, AfterWrites;
    forall slot ensures SlotTold(payloads, slot, Lookup(p.slots, slot), Lookup(q.slots, slot)) {
      SlotIsTold(p, plan.writes, ids, slot);
    }
  }

  class CommandService {
    const repository: HubRepository

    constructor (repository: HubRepository)
      ensures this.repository == repository
    {
      this.repository := repository;
    }

    method ReadCurrent(slots: seq<string>) returns (seen: map<string, Read>)
      ensures seen == ReadsOf(repository.p, slots)
    {
      seen := map[];
      var i := 0;
      while i < |slots|
        invariant 0 <= i <= |slots|
        invariant seen == ReadsOf(repository.p, slots[..i])
      {
        seen := seen[slots[i] := ReadOf(repository.p, slots[i])];
        assert forall s :: s in slots[..i + 1] <==> s in slots[..i] || s == slots[i];
        i := i + 1;
      }
      assert slots[..i] == slots;
    }

    /** `create`, `update` and `change`: with nobody else writing, a command that is not refused
        replaces exactly the records of its effect on the current ones, all at once, and announces
        them in the log; anything else changes nothing.  It fails to commit only for identities already in use or, for a
        creation, a project that is not empty. */
    method Execute(c: Command, ids: Ids) returns (r: Result<bool, CommandError>)
      requires Sound(repository.h, repository.p)
      modifies repository`p
      ensures Sound(repository.h, repository.p)
      ensures r.Err? <==> Effect(Docs(old(repository.p)), c, ids).Err?
      ensures r.Ok? ==> PlanNow(repository.h, old(repository.p), c, ids).Ok?
      ensures r.Ok? ==>
        (r.value <==> Accepts(repository.h, old(repository.p), PlanNow(repository.h, old(repository.p), c, ids).value))
      ensures r.Ok? && r.value ==>
        Docs(repository.p) == Replaced(Docs(old(repository.p)), Effect(Docs(old(repository.p)), c, ids).value)
      ensures r.Ok? && FreshIds(old(repository.p), ids) ==>
        (r.value <==> (c.CreateBrief? ==> old(repository.p.head) == Head(0, repository.h.zero, 0) && BRIEF !in old(repository.p.slots)))
      ensures r.Ok? && r.value ==> LogTells(old(repository.p), repository.p)
      ensures r.Err? || !r.value ==> repository.p == old(repository.p)
    {
      ghost var p := repository.p;
      var seen := ReadCurrent(SlotsRead(c));
      ReadsMatchDocs(p, SlotsRead(c), seen);
      EffectLocal(DocsRead(seen), Docs(p), c, ids);
      var docs := Effect(DocsRead(seen), c, ids);
      if docs.Err? { return Err(docs.error); }
      var head := if c.CreateBrief? then Head(0, repository.h.zero, 0) else repository.p.head;
      var writes := WritesFor(seen, docs.value, ids);
      var entries := ChainEntries(repository.h, head.root, PayloadsFor(writes, ids));
      var plan := Plan(ids.receipt, head, writes, entries);
      assert PlanNow(repository.h, p, c, ids) == Ok(plan);
      var refused := repository.Publish(plan);
      if refused.None? { AttemptMeaning(repository.h, p, c, ids, plan); }
      if FreshIds(p, ids) { FreshCommandCommitsIff(repository.h, p, c, ids); }
      r := Ok(refused.None?);
    }
  }

  function ReadsOf(p: Project, slots: seq<string>): map<string, Read> {
    map s | s in slots :: ReadOf(p, s)
  }

  /** The plan of a command that reads everything now. */
  function PlanNow(h: Hashes, p: Project, c: Command, ids: Ids): Result<Plan, CommandError> {
    PlanFor(h, c, ReadsOf(p, SlotsRead(c)), p.head, ids)
  }

  lemma AttemptMeaning(h: Hashes, p: Project, c: Command, ids: Ids, plan: Plan)
    requires Sound(h, p) && PlanNow(h, p, c, ids) == Ok(plan) && Accepts(h, p, plan)
    ensures Effect(Docs(p), c, ids).Ok?
    ensures Docs(Committed(h, p, plan)) == Replaced(Docs(p), Effect(Docs(p), c, ids).value)
    ensures LogTells(p, Committed(h, p, plan))
  {
    EveryWriteIsAnnounced(h, p, c, ReadsOf(p, SlotsRead(c)), p.head, ids);
    AcceptedReadsAreCurrent(h, p, c, ReadsOf(p, SlotsRead(c)), p.head, ids);
    DocsAfterCommit(h, p, plan);
  }

  // ---------------------------------------------------------------- when a command commits

  predicate NewEventId(p: Project, id: string) {
    forall e | e in p.log :: e.payload.eventId != id
  }

  /** The identities drawn for the attempt are new and differ. */
  predicate FreshIds(p: Project, ids: Ids) {
    && (forall r | r in p.receipts :: r.id != ids.receipt)
    && ids.generation !in p.generations && ids.second !in p.generations && ids.generation != ids.second
    && |ids.events| >= 4 && (forall i | 0 <= i < |ids.events| :: NewEventId(p, ids.events[i]))
    && forall i, j | 0 <= i < j < |ids.events| :: ids.events[i] != ids.events[j]
  }

  /** The documents have the ids drawn for them, in order. */
  ghost predicate IdsAscend(ps: seq<Payload>, ids: Ids, at: seq<nat>, n: nat) {
    && |at| == |ps| && n <= |ids.events| && (forall i | 0 <= i < |ps| :: at[i] < n && ps[i].eventId == ids.events[at[i]])
    && forall i, j | 0 <= i < j < |ps| :: at[i] < at[j]
  }

  lemma {:induction false} PayloadIds(ws: seq<Write>, ids: Ids) returns (at: seq<nat>)
    requires 2 * |ws| <= |ids.events|
    ensures IdsAscend(PayloadsFor(ws, ids), ids, at, 2 * |ws|)
    ensures ws != [] ==> PayloadsFor(ws, ids) != []
    decreases |ws|
  {
    hide IdsAscend;
    at := [];
    if ws == [] {
      NoIds(ids);
    } else {
      var last := |ws| - 1;
      var front := PayloadsFor(ws[..last], ids);
      at := PayloadIds(ws[..last], ids);
      var published := Published(ids, 2 * last, ws[last].slot, ws[last].generation);
      IdAppended(front, ids, at, 2 * last, published, 2 * last);
      at := at + [2 * last];
      if ws[last].expected.Some? {
        IdAppended(front + [published], ids, at, 2 * last + 1,
                   Superseded(ids, 2 * last + 1, ws[last].slot, ws[last].expected.value, ws[last].generation), 2 * last + 1);
        at := at + [2 * last + 1];
      }
      IdsBelow(PayloadsFor(ws, ids), ids, at, 2 * last + if ws[last].expected.Some? then 2 else 1, 2 * |ws|);
    }
  }

  lemma NoIds(ids: Ids)
    ensures IdsAscend([], ids, [], 0)
  {
  }

  lemma IdAppended(ps: seq<Payload>, ids: Ids, at: seq<nat>, n: nat, e: Payload, j: nat)
    requires IdsAscend(ps, ids, at, n) && n <= j < |ids.events| && e.eventId == ids.events[j]
    ensures IdsAscend(ps + [e], ids, at + [j], j + 1)
  {
  }

  lemma IdsBelow(ps: seq<Payload>, ids: Ids, at: seq<nat>, n: nat, m: nat)
    requires IdsAscend(ps, ids, at, n) && n <= m <= |ids.events|
    ensures IdsAscend(ps, ids, at, m)
  {
  }

  lemma EntriesFit(h: Hashes, p: Project, ws: seq<Write>, ids: Ids)
    requires FreshIds(p, ids) && 2 * |ws| <= |ids.events|
    ensures var entries := EntriesFor(h, p.head.root, PayloadsFor(ws, ids));
      forall i | 0 <= i < |entries| :: EntryFits(h, p, entries, i)
  {
    var ps := PayloadsFor(ws, ids);
    var entries := EntriesFor(h, p.head.root, ps);
    var at := PayloadIds(ws, ids);
    hide PayloadsFor, Fold;
    forall i | 0 <= i < |entries| ensures EntryFits(h, p, entries, i) {
      RootsFit(h, p, ps, i);
      assert NewEventId(p, ids.events[at[i]]);
    }
  }

  lemma SlotsOfMethodsDiffer(id: string)
    ensures MethodSlot(id) != CATALOG
  {
    assert MethodSlot(id)[0] == 'm' && CATALOG[0] == 'p';
  }

  lemma WritesFit(p: Project, c: Command, ids: Ids, k: nat)
    requires Linear(p) && FreshIds(p, ids) && Effect(Docs(p), c, ids).Ok?
    requires c.CreateBrief? ==> BRIEF !in p.slots
    ensures var ws := WritesFor(ReadsOf(p, SlotsRead(c)), Effect(Docs(p), c, ids).value, ids);
      1 <= |ws| <= 2 && (k < |ws| ==> WriteFits(p, ws, k))
  {
    hide Effect, SlotsRead, ReadsOf, MethodSlot, Docs;
    var docs, slots := Effect(Docs(p), c, ids).value, SlotsRead(c);
    EffectSlots(Docs(p), c, ids);
    if k < |docs| {
      if c.CreateBrief? { NothingRead(p, docs[k].0); } else { ReadIsCurrent(p, slots, docs[k].0); }
      var ws := WritesFor(ReadsOf(p, slots), docs, ids);
      assert ws[k].slot == docs[k].0 && forall j | 0 <= j < k :: ws[j].slot == docs[j].0;
    }
  }

  lemma EffectSlots(docs: map<string, Document>, c: Command, ids: Ids)
    requires Effect(docs, c, ids).Ok?
    ensures var news := Effect(docs, c, ids).value;
      && 1 <= |news| <= 2 && (|news| == 2 ==> news[0].0 != news[1].0)
      && (c.CreateBrief? ==> SlotsRead(c) == [] && news[0].0 == BRIEF && |news| == 1)
      && forall k | 0 <= k < |news| && !c.CreateBrief? :: news[k].0 in SlotsRead(c) && news[k].0 in docs
  {
    EffectWritesWhatItRead(docs, c, ids);
    if c.ChangeMethod? { SlotsOfMethodsDiffer(c.id); }
    hide Effect;
  }

  lemma NothingRead(p: Project, slot: string)
    ensures Expected(ReadsOf(p, []), slot) == None
  {
  }

  lemma ReadIsCurrent(p: Project, slots: seq<string>, slot: string)
    requires Linear(p) && slot in slots && slot in Docs(p)
    ensures Expected(ReadsOf(p, slots), slot) == Lookup(p.slots, slot)
  {
    CurrentExists(p, slot);
  }

  lemma PlanNowIs(h: Hashes, p: Project, c: Command, ids: Ids)
    requires PlanNow(h, p, c, ids).Ok?
    ensures Effect(Docs(p), c, ids).Ok?
    ensures var ws := WritesFor(ReadsOf(p, SlotsRead(c)), Effect(Docs(p), c, ids).value, ids);
      var basis := if c.CreateBrief? then Head(0, h.zero, 0) else p.head;
      PlanNow(h, p, c, ids).value == Plan(ids.receipt, basis, ws, EntriesFor(h, basis.root, PayloadsFor(ws, ids)))
  {
    ReadsMatchDocs(p, SlotsRead(c), ReadsOf(p, SlotsRead(c)));
    EffectLocal(DocsRead(ReadsOf(p, SlotsRead(c))), Docs(p), c, ids);
  }

  /** With nobody else writing and new identities a command that is not refused always commits, but
      for a creation in a project that is not empty. */
  lemma FreshCommandCommitsIff(h: Hashes, p: Project, c: Command, ids: Ids)
    requires Sound(h, p) && PlanNow(h, p, c, ids).Ok? && FreshIds(p, ids)
    ensures Accepts(h, p, PlanNow(h, p, c, ids).value) <==> (c.CreateBrief? ==> p.head == Head(0, h.zero, 0) && BRIEF !in p.slots)
  {
    hide PlanNow, Effect, PayloadsFor, EntriesFor, IdsAscend, WriteFits, EntryFits;
    PlanNowIs(h, p, c, ids);
    var plan := PlanNow(h, p, c, ids).value;
    WritesAreEffect(ReadsOf(p, SlotsRead(c)), Effect(Docs(p), c, ids).value, ids);
    EffectWritesWhatItRead(Docs(p), c, ids);
    if c.CreateBrief? ==> p.head == Head(0, h.zero, 0) && BRIEF !in p.slots {
      WritesFit(p, c, ids, 0);
      forall k | 0 <= k < |plan.writes| ensures WriteFits(p, plan.writes, k) { WritesFit(p, c, ids, k); }
      EntriesFit(h, p, plan.writes, ids);
      var at := PayloadIds(plan.writes, ids);
    }
    if Accepts(h, p, plan) && c.CreateBrief? { AcceptedCreation(p, plan); }
  }

  lemma AcceptedCreation(p: Project, plan: Plan)
    requires |plan.writes| > 0 && WriteFits(p, plan.writes, 0) && plan.writes[0].slot == BRIEF && plan.writes[0].expected.None?
    ensures BRIEF !in p.slots
  {
  }

  lemma ReadsMatchDocs(p: Project, slots: seq<string>, seen: map<string, Read>)
    requires seen == ReadsOf(p, slots)
    ensures forall s | s in slots :: (s in DocsRead(seen) <==> s in Docs(p)) && (s in Docs(p) ==> DocsRead(seen)[s] == Docs(p)[s])
  {
  }
}
