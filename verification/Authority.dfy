/** The formal authority of one project: publication transactions, the hash-chained log, receipts
    and current slots (src/model_forge/storage/repository.py, `publication_transaction` and
    `PublicationUnitOfWork`). */
module Authority {
  import opened Wrappers
  import opened PublicationHead
  import opened MethodCatalog
  import ProjectBriefs
  import opened Sequences

  /** The digest of all zeros, the extension of a root by an event digest, and the digest of an
      event document. */
  datatype Hashes = Hashes(zero: Digest, extend: (Digest, Digest) -> Digest, content: Payload -> Digest)

  /** An event document. */
  datatype Payload = Payload(eventId: string, kind: string, slot: string, generation: string, rest: string)

  datatype Event = Event(sequence: nat, prior: Digest, content: Digest, root: Digest, receipt: string, payload: Payload)

  datatype Document = Brief(fields: ProjectBriefs.Fields) | MethodRecord(doc: Doc) | MethodCatalogRecord(catalog: Catalog) | OtherRecord(text: string)

  datatype Generation = Generation(slot: Option<string>, supersedes: Option<string>, document: Document)

  datatype Receipt = Receipt(id: string, prior: Head, next: Head)

  datatype Project = Project(head: Head, log: seq<Event>, receipts: seq<Receipt>,
                             generations: map<string, Generation>, slots: map<string, string>)

  /** One replacement of a current slot by a new generation that supersedes `expected`. */
  datatype Write = Write(slot: string, generation: string, expected: Option<string>, document: Document)

  datatype Entry = Entry(payload: Payload, root: Digest)

  datatype Plan = Plan(receipt: string, expected: Head, writes: seq<Write>, entries: seq<Entry>)

  datatype PublicationError =
    | BasisChanged | ReceiptExists | NotFound | ImmutableConflict | SlotReused | SlotConflict
    | InvalidRoot | EventIdTaken | ReceiptReused | ReceiptRequired | EventRequired

  function Empty(h: Hashes): Project {
    Project(Head(0, h.zero, 0), [], [], map[], map[])
  }

  function Lookup(slots: map<string, string>, slot: string): Option<string> {
    if slot in slots then Some(slots[slot]) else None
  }

  function GenerationOf(w: Write): Generation {
    Generation(Some(w.slot), w.expected, w.document)
  }

  // ---------------------------------------------------------------- a publication, on values

  function AfterWrite(p: Project, w: Write): Project {
    p.(generations := p.generations[w.generation := GenerationOf(w)], slots := p.slots[w.slot := w.generation])
  }

  function AfterWrites(p: Project, ws: seq<Write>): Project {
    if ws == [] then p else AfterWrite(AfterWrites(p, ws[..|ws| - 1]), ws[|ws| - 1])
  }

  function PayloadOfEntry(e: Entry): Payload {
    e.payload
  }

  function Payloads(entries: seq<Entry>): (r: seq<Payload>)
    ensures |r| == |entries| && forall k | 0 <= k < |r| :: r[k] == entries[k].payload
  {
    Mapped(entries, PayloadOfEntry)
  }

  /** The root after chaining documents to `root`. */
  function Fold(h: Hashes, root: Digest, payloads: seq<Payload>): Digest {
    if payloads == [] then root
    else h.extend(Fold(h, root, payloads[..|payloads| - 1]), h.content(payloads[|payloads| - 1]))
  }

  function EventFor(h: Hashes, head: Head, receipt: string, payloads: seq<Payload>, k: nat): Event
    requires k < |payloads|
  {
    Event(head.sequence + k + 1, Fold(h, head.root, payloads[..k]), h.content(payloads[k]),
          Fold(h, head.root, payloads[..k + 1]), receipt, payloads[k])
  }

  function EventsFor(h: Hashes, head: Head, receipt: string, payloads: seq<Payload>): (r: seq<Event>)
    ensures |r| == |payloads| && forall k | 0 <= k < |r| :: r[k] == EventFor(h, head, receipt, payloads, k)
  {
    seq(|payloads|, k requires 0 <= k < |payloads| => EventFor(h, head, receipt, payloads, k))
  }

  function NextHead(h: Hashes, head: Head, payloads: seq<Payload>): Head {
    Head(head.sequence + |payloads|, Fold(h, head.root, payloads), head.revision + 1)
  }

  function Committed(h: Hashes, p: Project, plan: Plan): Project {
    var q, payloads := AfterWrites(p, plan.writes), Payloads(plan.entries);
    var next := NextHead(h, p.head, payloads);
    Project(next, p.log + EventsFor(h, p.head, plan.receipt, payloads),
            p.receipts + [Receipt(plan.receipt, p.head, next)], q.generations, q.slots)
  }

  ghost predicate WriteFits(p: Project, ws: seq<Write>, i: nat)
    requires i < |ws|
  {
    && Lookup(p.slots, ws[i].slot) == ws[i].expected && ws[i].generation !in p.generations
    && forall j | 0 <= j < i :: ws[j].slot != ws[i].slot && ws[j].generation != ws[i].generation
  }

  ghost predicate EntryFits(h: Hashes, p: Project, entries: seq<Entry>, i: nat)
    requires i < |entries|
  {
    && entries[i].root == Fold(h, p.head.root, Payloads(entries)[..i + 1])
    && (forall e | e in p.log :: e.payload.eventId != entries[i].payload.eventId)
    && forall j | 0 <= j < i :: entries[j].payload.eventId != entries[i].payload.eventId
  }

  /** The head and every replaced slot are as expected, all identities are new, and every root
      extends the one before it. */
  ghost predicate Accepts(h: Hashes, p: Project, plan: Plan) {
    && p.head == plan.expected && (forall r | r in p.receipts :: r.id != plan.receipt)
    && (forall i | 0 <= i < |plan.writes| :: WriteFits(p, plan.writes, i))
    && plan.entries != [] && (forall i | 0 <= i < |plan.entries| :: EntryFits(h, p, plan.entries, i))
  }

  // ---------------------------------------------------------------- what every project keeps

  ghost predicate LogFits(h: Hashes, head: Head, log: seq<Event>) {
    && head.sequence == |log| && head.root == (if log == [] then h.zero else log[|log| - 1].root)
    && forall k | 0 <= k < |log| :: EventFits(h, log, k)
  }

  ghost predicate EventFits(h: Hashes, log: seq<Event>, k: nat)
    requires k < |log|
  {
    && log[k].sequence == k + 1 && log[k].prior == (if k == 0 then h.zero else log[k - 1].root)
    && log[k].content == h.content(log[k].payload) && log[k].root == h.extend(log[k].prior, log[k].content)
  }

  /** The receipts lead from the empty head to the current one without a gap, each over at least
      one event. */
  ghost predicate ReceiptsFit(h: Hashes, head: Head, receipts: seq<Receipt>) {
    && head == (if receipts == [] then Head(0, h.zero, 0) else receipts[|receipts| - 1].next)
    && forall k | 0 <= k < |receipts| :: ReceiptFits(h, receipts, k)
  }

  ghost predicate ReceiptFits(h: Hashes, receipts: seq<Receipt>, k: nat)
    requires k < |receipts|
  {
    && receipts[k].prior == (if k == 0 then Head(0, h.zero, 0) else receipts[k - 1].next)
    && receipts[k].prior.sequence < receipts[k].next.sequence && receipts[k].next.revision == k + 1
  }

  /** The events between the two heads of a receipt name it. */
  ghost predicate Covers(r: Receipt, log: seq<Event>) {
    r.next.sequence <= |log| && forall k | r.prior.sequence <= k < r.next.sequence :: log[k].receipt == r.id
  }

  ghost predicate Covered(receipts: seq<Receipt>, log: seq<Event>) {
    forall j | 0 <= j < |receipts| :: Covers(receipts[j], log)
  }

  /** `c` lists the generations of a slot, each superseding the one before, up to the current. */
  ghost predicate Chain(p: Project, slot: string, c: seq<string>) {
    && c != [] && slot in p.slots && p.slots[slot] == c[|c| - 1]
    && forall k | 0 <= k < |c| :: Link(p, slot, c, k)
  }

  ghost predicate Link(p: Project, slot: string, c: seq<string>, k: nat)
    requires k < |c|
  {
    && c[k] in p.generations && p.generations[c[k]].slot == Some(slot)
    && p.generations[c[k]].supersedes == (if k == 0 then None else Some(c[k - 1]))
  }

  ghost predicate OnItsChain(p: Project, chains: map<string, seq<string>>, g: string)
    requires g in p.generations
  {
    p.generations[g].slot.Some? && p.generations[g].slot.value in chains && g in chains[p.generations[g].slot.value]
  }

  ghost predicate ChainsFit(p: Project, chains: map<string, seq<string>>) {
    && chains.Keys == p.slots.Keys && (forall s | s in chains :: Chain(p, s, chains[s]))
    && forall g | g in p.generations :: OnItsChain(p, chains, g)
  }

  /** The generations of every slot form one chain, and there are no others. */
  ghost predicate Linear(p: Project) {
    exists chains :: ChainsFit(p, chains)
  }

  ghost predicate Sound(h: Hashes, p: Project) {
    && LogFits(h, p.head, p.log) && ReceiptsFit(h, p.head, p.receipts) && Covered(p.receipts, p.log)
    && Linear(p)
  }

  // ---------------------------------------------------------------- writes

  lemma {:induction false} ChainDistinct(p: Project, slot: string, c: seq<string>, a: nat, b: nat)
    requires Chain(p, slot, c) && a < b < |c|
    ensures c[a] != c[b]
    decreases b
  {
    assert Link(p, slot, c, a) && Link(p, slot, c, b);
    if a > 0 { ChainDistinct(p, slot, c, a - 1, b - 1); }
  }

  /** With intact chains the identical-generation shortcut is never taken: a generation that
      supersedes the current one is not in the table yet. */
  lemma NoReplay(p: Project, w: Write)
    requires Linear(p) && Lookup(p.slots, w.slot) == w.expected && w.generation in p.generations
    ensures p.generations[w.generation] != GenerationOf(w)
  {
    var chains :| ChainsFit(p, chains);
    assert OnItsChain(p, chains, w.generation);
    if p.generations[w.generation].slot == Some(w.slot) {
      var c := chains[w.slot];
      assert Chain(p, w.slot, c);
      var k :| 0 <= k < |c| && c[k] == w.generation;
      assert Link(p, w.slot, c, k);
      if k > 0 { ChainDistinct(p, w.slot, c, k - 1, |c| - 1); }
    }
  }

  lemma CurrentExists(p: Project, slot: string)
    requires Linear(p) && slot in p.slots
    ensures p.slots[slot] in p.generations && p.generations[p.slots[slot]].slot == Some(slot)
  {
    var chains :| ChainsFit(p, chains);
    var c := chains[slot];
    assert Chain(p, slot, c) && Link(p, slot, c, |c| - 1);
  }

  lemma ChainFrame(p: Project, q: Project, slot: string, c: seq<string>)
    requires Chain(p, slot, c) && slot in q.slots && q.slots[slot] == p.slots[slot]
    requires forall g | g in p.generations :: g in q.generations && q.generations[g] == p.generations[g]
    ensures Chain(q, slot, c)
  {
    forall k | 0 <= k < |c| ensures Link(q, slot, c, k) { assert Link(p, slot, c, k); }
  }

  lemma ChainExtends(p: Project, w: Write, c: seq<string>)
    requires w.generation !in p.generations && Lookup(p.slots, w.slot) == w.expected
    requires if w.expected.Some? then Chain(p, w.slot, c) else c == []
    ensures Chain(AfterWrite(p, w), w.slot, c + [w.generation])
  {
    var q, d := AfterWrite(p, w), c + [w.generation];
    forall k | 0 <= k < |d| ensures Link(q, w.slot, d, k) {
      if k < |c| { assert Link(p, w.slot, c, k); }
    }
  }

  lemma WriteKeepsChains(p: Project, w: Write)
    requires Linear(p) && Lookup(p.slots, w.slot) == w.expected && w.generation !in p.generations
    ensures Linear(AfterWrite(p, w))
  {
    var chains :| ChainsFit(p, chains);
    var grown := Grown(chains, w);
    GrownChains(p, chains, w);
    GrownCovers(p, chains, w);
    assert ChainsFit(AfterWrite(p, w), grown);
  }

  ghost function Grown(chains: map<string, seq<string>>, w: Write): map<string, seq<string>> {
    chains[w.slot := (if w.slot in chains then chains[w.slot] else []) + [w.generation]]
  }

  lemma GrownChains(p: Project, chains: map<string, seq<string>>, w: Write)
    requires ChainsFit(p, chains) && Lookup(p.slots, w.slot) == w.expected && w.generation !in p.generations
    ensures forall s | s in Grown(chains, w) :: Chain(AfterWrite(p, w), s, Grown(chains, w)[s])
  {
    forall s | s in Grown(chains, w) ensures Chain(AfterWrite(p, w), s, Grown(chains, w)[s]) {
      if s == w.slot {
        ChainExtends(p, w, if s in chains then chains[s] else []);
      } else {
        ChainFrame(p, AfterWrite(p, w), s, chains[s]);
      }
    }
  }

  lemma GrownCovers(p: Project, chains: map<string, seq<string>>, w: Write)
    requires forall g | g in p.generations :: OnItsChain(p, chains, g)
    requires w.generation !in p.generations
    ensures forall g | g in AfterWrite(p, w).generations :: OnItsChain(AfterWrite(p, w), Grown(chains, w), g)
  {
  }

  /** Slots and generations after the first writes of a plan. */
  lemma {:induction false} AfterWritesAt(p: Project, ws: seq<Write>, i: nat)
    requires i <= |ws|
    ensures var q := AfterWrites(p, ws[..i]);
      && (forall s | forall j | 0 <= j < i :: ws[j].slot != s :: Lookup(q.slots, s) == Lookup(p.slots, s))
      && (forall g :: g in q.generations <==> g in p.generations || exists j :: 0 <= j < i && ws[j].generation == g)
      && q.head == p.head && q.log == p.log && q.receipts == p.receipts
  {
    if i > 0 {
      AfterWritesAt(p, ws, i - 1);
      assert ws[..i][..i - 1] == ws[..i - 1];
    }
  }

  lemma {:induction false} WritesKeepChains(p: Project, ws: seq<Write>, i: nat)
    requires Linear(p) && i <= |ws| && forall k | 0 <= k < i :: WriteFits(p, ws, k)
    ensures Linear(AfterWrites(p, ws[..i]))
  {
    if i == 0 {
      assert ws[..0] == [];
    } else {
      WritesKeepChains(p, ws, i - 1);
      AfterWritesAt(p, ws, i - 1);
      assert WriteFits(p, ws, i - 1);
      WriteKeepsChains(AfterWrites(p, ws[..i - 1]), ws[i - 1]);
      assert ws[..i][..i - 1] == ws[..i - 1];
    }
  }

  // ---------------------------------------------------------------- the log and the receipts

  lemma LogGrows(h: Hashes, head: Head, log: seq<Event>, receipt: string, payloads: seq<Payload>)
    requires LogFits(h, head, log)
    ensures LogFits(h, NextHead(h, head, payloads), log + EventsFor(h, head, receipt, payloads))
  {
    var more := EventsFor(h, head, receipt, payloads);
    var all := log + more;
    forall k | 0 <= k < |all| ensures EventFits(h, all, k) {
      if k < |log| {
        assert EventFits(h, log, k);
      } else {
        var j := k - |log|;
        assert all[k] == EventFor(h, head, receipt, payloads, j);
        assert payloads[..j + 1][..j] == payloads[..j];
        if j == 0 { assert payloads[..0] == []; } else { assert all[k - 1] == EventFor(h, head, receipt, payloads, j - 1); }
      }
    }
    assert payloads[..|payloads|] == payloads;
    if payloads != [] { assert all[|log| + (|payloads| - 1)] == more[|payloads| - 1]; }
  }

  lemma ReceiptsGrow(h: Hashes, head: Head, receipts: seq<Receipt>, receipt: string, payloads: seq<Payload>)
    requires ReceiptsFit(h, head, receipts) && payloads != []
    ensures var next := NextHead(h, head, payloads);
      ReceiptsFit(h, next, receipts + [Receipt(receipt, head, next)])
  {
    var next := NextHead(h, head, payloads);
    var all := receipts + [Receipt(receipt, head, next)];
    forall k | 0 <= k < |all| ensures ReceiptFits(h, all, k) {
      if k < |receipts| { assert ReceiptFits(h, receipts, k); }
      else if k > 0 { assert ReceiptFits(h, receipts, k - 1); }
    }
  }

  lemma CoverGrows(h: Hashes, p: Project, receipt: string, payloads: seq<Payload>)
    requires Covered(p.receipts, p.log) && p.head.sequence == |p.log|
    ensures var next := NextHead(h, p.head, payloads);
      Covered(p.receipts + [Receipt(receipt, p.head, next)], p.log + EventsFor(h, p.head, receipt, payloads))
  {
  }

  /** Every accepted publication keeps the project sound. */
  lemma CommittedIsSound(h: Hashes, p: Project, plan: Plan)
    requires Sound(h, p) && Accepts(h, p, plan)
    ensures Sound(h, Committed(h, p, plan))
  {
    var payloads := Payloads(plan.entries);
    LogGrows(h, p.head, p.log, plan.receipt, payloads);
    ReceiptsGrow(h, p.head, p.receipts, plan.receipt, payloads);
    CoverGrows(h, p, plan.receipt, payloads);
    WritesKeepChains(p, plan.writes, |plan.writes|);
    assert plan.writes[..|plan.writes|] == plan.writes;
    LinearFrame(AfterWrites(p, plan.writes), Committed(h, p, plan));
  }

  lemma LinearFrame(p: Project, q: Project)
    requires Linear(p) && q.generations == p.generations && q.slots == p.slots
    ensures Linear(q)
  {
    var chains :| ChainsFit(p, chains);
    forall s | s in chains ensures Chain(q, s, chains[s]) { ChainFrame(p, q, s, chains[s]); }
    forall g | g in q.generations ensures OnItsChain(q, chains, g) { assert OnItsChain(p, chains, g); }
    assert ChainsFit(q, chains);
  }

  // ---------------------------------------------------------------- the repository

  /** The formal writes of one transaction; the receipt is sealed with the heads at the end. */
  class PublicationUnitOfWork {
    const h: Hashes
    const receipt: string
    var work: Project
    var touched: set<string>
    var sequence: nat
    var root: Digest
    var eventsAdded: nat
    var receiptRecorded: bool

    constructor (h: Hashes, p: Project, receipt: string)
      ensures this.h == h && this.receipt == receipt && work == p && touched == {} && !receiptRecorded
      ensures sequence == p.head.sequence && root == p.head.root && eventsAdded == 0
    {
      this.h, this.receipt, work, touched := h, receipt, p, {};
      sequence, root, eventsAdded, receiptRecorded := p.head.sequence, p.head.root, 0, false;
    }

    /** `add_formal_generation`: the same generation again changes nothing. */
    method AddFormalGeneration(id: string, g: Generation) returns (r: Option<PublicationError>)
      modifies this`work
      ensures r.None? <==> (g.supersedes.Some? ==> g.supersedes.value in old(work).generations)
                           && (id in old(work).generations ==> old(work).generations[id] == g)
      ensures r.None? ==> work == old(work).(generations := old(work).generations[id := g])
      ensures r.Some? ==> work == old(work)
    {
      if g.supersedes.Some? && g.supersedes.value !in work.generations { return Some(NotFound); }
      if id in work.generations {
        if work.generations[id] != g { return Some(ImmutableConflict); }
        assert work.generations[id := g] == work.generations;
        return None;
      }
      work := work.(generations := work.generations[id := g]);
      r := None;
    }

    /** `replace_current_slot`: each slot once, to a generation that exists, against the expected
        one. */
    method ReplaceCurrentSlot(slot: string, generation: string, expected: Option<string>) returns (r: Option<PublicationError>)
      modifies this`work, this`touched
      ensures r.None? <==>
        slot !in old(touched) && generation in old(work).generations && Lookup(old(work).slots, slot) == expected
      ensures r.None? ==> work == old(work).(slots := old(work).slots[slot := generation])
      ensures r.None? ==> touched == if expected == Some(generation) then old(touched) else old(touched) + {slot}
      ensures r.Some? ==> work == old(work) && touched == old(touched)
    {
      if slot in touched { return Some(SlotReused); }
      if generation !in work.generations { return Some(NotFound); }
      if Lookup(work.slots, slot) != expected { return Some(SlotConflict); }
      if expected == Some(generation) {
        assert work.slots[slot := generation] == work.slots;
        return None;
      }
      work := work.(slots := work.slots[slot := generation]);
      touched := touched + {slot};
      r := None;
    }

    /** `append_authority_event`: the content digest is the caller's, and the root must extend the
        current one by it. */
    method AppendAuthorityEvent(payload: Payload, content: Digest, newRoot: Digest) returns (r: Option<PublicationError>)
      modifies this`work, this`sequence, this`root, this`eventsAdded
      ensures r.None? <==> newRoot == h.extend(old(root), content)
                           && forall x | x in old(work).log :: x.payload.eventId != payload.eventId
      ensures r.None? ==> sequence == old(sequence) + 1 && root == newRoot && eventsAdded == old(eventsAdded) + 1
      ensures r.None? ==> work == old(work).(log := old(work).log +
        [Event(old(sequence) + 1, old(root), content, newRoot, receipt, payload)])
      ensures r.Some? ==>
        work == old(work) && sequence == old(sequence) && root == old(root) && eventsAdded == old(eventsAdded)
    {
      if newRoot != h.extend(root, content) { return Some(InvalidRoot); }
      if exists x :: x in work.log && x.payload.eventId == payload.eventId { return Some(EventIdTaken); }
      work := work.(log := work.log + [Event(sequence + 1, root, content, newRoot, receipt, payload)]);
      sequence, root, eventsAdded := sequence + 1, newRoot, eventsAdded + 1;
      r := None;
    }

    /** `record_receipt`: once. */
    method RecordReceipt() returns (r: Option<PublicationError>)
      modifies this`receiptRecorded
      ensures receiptRecorded && (r.None? <==> !old(receiptRecorded))
    {
      if receiptRecorded { return Some(ReceiptReused); }
      receiptRecorded := true;
      r := None;
    }

    /** `_finish`: only a transaction with a receipt and at least one event commits. */
    method Finish() returns (r: Option<PublicationError>)
      modifies this`work
      ensures r == if !receiptRecorded then Some(ReceiptRequired) else if eventsAdded == 0 then Some(EventRequired) else None
      ensures r.None? ==> var next := Head(sequence, root, old(work).head.revision + 1);
        work == old(work).(head := next, receipts := old(work).receipts + [Receipt(receipt, old(work).head, next)])
      ensures r.Some? ==> work == old(work)
    {
      if !receiptRecorded { return Some(ReceiptRequired); }
      if eventsAdded == 0 { return Some(EventRequired); }
      var next := Head(sequence, root, work.head.revision + 1);
      work := work.(head := next, receipts := work.receipts + [Receipt(receipt, work.head, next)]);
      r := None;
    }
  }

  lemma BothStepsIffWriteFits(p: Project, ws: seq<Write>, i: nat)
    requires i < |ws| && Linear(p) && forall k | 0 <= k < i :: WriteFits(p, ws, k)
    ensures var q, w := AfterWrites(p, ws[..i]), ws[i];
      WriteFits(p, ws, i) <==>
        && (w.expected.Some? ==> w.expected.value in q.generations)
        && (w.generation in q.generations ==> q.generations[w.generation] == GenerationOf(w))
        && (forall j | 0 <= j < i :: ws[j].slot != w.slot) && Lookup(q.slots, w.slot) == w.expected
  {
    var q, w := AfterWrites(p, ws[..i]), ws[i];
    AfterWritesAt(p, ws, i);
    WritesKeepChains(p, ws, i);
    if Lookup(q.slots, w.slot) == w.expected {
      if w.generation in q.generations { NoReplay(q, w); }
      if w.expected.Some? { CurrentExists(q, w.slot); }
    }
  }

  class HubRepository {
    const h: Hashes
    var p: Project

    constructor (h: Hashes)
      ensures this.h == h && p == Empty(h)
    {
      this.h, p := h, Empty(h);
    }

    /** `publication_transaction` around the writes of a plan: it commits everything exactly when
        the plan is acceptable, and otherwise changes nothing. */
    method Publish(plan: Plan) returns (r: Option<PublicationError>)
      requires Sound(h, p)
      modifies this`p
      ensures r.None? <==> Accepts(h, old(p), plan)
      ensures p == if r.None? then Committed(h, old(p), plan) else old(p)
      ensures Sound(h, p)
    {
      if p.head != plan.expected { return Some(BasisChanged); }
      if exists x :: x in p.receipts && x.id == plan.receipt { return Some(ReceiptExists); }
      var unit := new PublicationUnitOfWork(h, p, plan.receipt);
      r := WriteAll(unit, plan);
      if r.Some? { return; }
      r := AppendAll(unit, plan);
      if r.Some? { return; }
      r := unit.RecordReceipt();
      if r.Some? { return; }
      r := unit.Finish();
      if r.Some? { return; }
      CommittedIsSound(h, p, plan);
      p := unit.work;
    }

    method WriteAll(unit: PublicationUnitOfWork, plan: Plan) returns (r: Option<PublicationError>)
      requires Linear(p) && unit.work == p && unit.touched == {}
      modifies unit`work, unit`touched
      ensures r.None? <==> forall i | 0 <= i < |plan.writes| :: WriteFits(p, plan.writes, i)
      ensures r.None? ==> unit.work == AfterWrites(p, plan.writes)
      ensures r.None? ==> unit.work.log == p.log && unit.work.head == p.head && unit.work.receipts == p.receipts
    {
      var i := 0;
      while i < |plan.writes|
        invariant 0 <= i <= |plan.writes| && unit.work == AfterWrites(p, plan.writes[..i])
        invariant forall k | 0 <= k < i :: WriteFits(p, plan.writes, k)
        invariant unit.touched == set k | 0 <= k < i :: plan.writes[k].slot
      {
        var w := plan.writes[i];
        BothStepsIffWriteFits(p, plan.writes, i);
        WriteNext(p, plan.writes, i);
        r := unit.AddFormalGeneration(w.generation, GenerationOf(w));
        if r.Some? {
          assert !WriteFits(p, plan.writes, i);
          return;
        }
        r := unit.ReplaceCurrentSlot(w.slot, w.generation, w.expected);
        if r.Some? {
          assert !WriteFits(p, plan.writes, i);
          return;
        }
        if w.expected.Some? { CurrentExists(p, w.slot); }
        i := i + 1;
      }
      assert plan.writes[..i] == plan.writes;
      AfterWritesAt(p, plan.writes, i);
      r := None;
    }

    method AppendAll(unit: PublicationUnitOfWork, plan: Plan) returns (r: Option<PublicationError>)
      requires unit.h == h && unit.receipt == plan.receipt && unit.work.log == p.log && unit.eventsAdded == 0
      requires unit.sequence == p.head.sequence && unit.root == p.head.root
      modifies unit`work, unit`sequence, unit`root, unit`eventsAdded
      ensures r.None? <==> forall i | 0 <= i < |plan.entries| :: EntryFits(h, p, plan.entries, i)
      ensures r.None? ==> unit.eventsAdded == |plan.entries| && unit.sequence == p.head.sequence + |plan.entries|
      ensures r.None? ==> unit.root == Fold(h, p.head.root, Payloads(plan.entries))
      ensures r.None? ==> unit.work == old(unit.work).(log := p.log + EventsFor(h, p.head, plan.receipt, Payloads(plan.entries)))
    {
      LogStarts(h, p, plan);
      hide EntryFits, Fold, EventsFor, Payloads, RootAt, LogAt;
      ghost var start := unit.work;
      var i := 0;
      while i < |plan.entries|
        invariant 0 <= i <= |plan.entries| && unit.eventsAdded == i
        invariant unit.sequence == p.head.sequence + i && unit.root == RootAt(h, p, plan, i)
        invariant unit.work == start.(log := LogAt(h, p, plan, i))
        invariant forall k | 0 <= k < i :: EntryFits(h, p, plan.entries, k)
      {
        EntryFitsIff(h, p, plan, i);
        var e := plan.entries[i];
        r := unit.AppendAuthorityEvent(e.payload, h.content(e.payload), e.root);
        if r.Some? {
          assert !EntryFits(h, p, plan.entries, i);
          return;
        }
        LogNext(h, p, plan, i);
        i := i + 1;
      }
      LogComplete(h, p, plan);
      r := None;
    }
  }

  /** The next write of a plan, one step after the others. */
  lemma WriteNext(p: Project, ws: seq<Write>, i: nat)
    requires i < |ws|
    ensures AfterWrites(p, ws[..i + 1]) == AfterWrite(AfterWrites(p, ws[..i]), ws[i])
  {
    assert ws[..i + 1][..i] == ws[..i];
  }

  lemma LastFold(h: Hashes, root: Digest, payloads: seq<Payload>, i: nat)
    requires i < |payloads|
    ensures Fold(h, root, payloads[..i + 1]) == h.extend(Fold(h, root, payloads[..i]), h.content(payloads[i]))
  {
    assert payloads[..i + 1][..i] == payloads[..i];
  }

  /** The root and the log after the first entries of a plan. */
  function RootAt(h: Hashes, p: Project, plan: Plan, i: nat): Digest
    requires i <= |plan.entries|
  {
    Fold(h, p.head.root, Payloads(plan.entries)[..i])
  }

  function LogAt(h: Hashes, p: Project, plan: Plan, i: nat): seq<Event>
    requires i <= |plan.entries|
  {
    p.log + EventsFor(h, p.head, plan.receipt, Payloads(plan.entries))[..i]
  }

  lemma LogNext(h: Hashes, p: Project, plan: Plan, i: nat)
    requires i < |plan.entries| && EntryFits(h, p, plan.entries, i)
    ensures var e := plan.entries[i];
      RootAt(h, p, plan, i + 1) == e.root
      && LogAt(h, p, plan, i + 1) == LogAt(h, p, plan, i) +
           [Event(p.head.sequence + i + 1, RootAt(h, p, plan, i), h.content(e.payload), e.root, plan.receipt, e.payload)]
  {
    var events := EventsFor(h, p.head, plan.receipt, Payloads(plan.entries));
    assert events[..i + 1] == events[..i] + [events[i]];
  }

  lemma LogStarts(h: Hashes, p: Project, plan: Plan)
    ensures RootAt(h, p, plan, 0) == p.head.root && LogAt(h, p, plan, 0) == p.log
  {
  }

  lemma LogComplete(h: Hashes, p: Project, plan: Plan)
    ensures var n, payloads := |plan.entries|, Payloads(plan.entries);
      RootAt(h, p, plan, n) == Fold(h, p.head.root, payloads)
      && LogAt(h, p, plan, n) == p.log + EventsFor(h, p.head, plan.receipt, payloads)
  {
    var n, payloads := |plan.entries|, Payloads(plan.entries);
    assert payloads[..n] == payloads;
    var events := EventsFor(h, p.head, plan.receipt, payloads);
    assert events[..n] == events;
  }

  /** What `AppendAuthorityEvent` checks about entry `i`, after the entries before it. */
  lemma EntryFitsIff(h: Hashes, p: Project, plan: Plan, i: nat)
    requires i < |plan.entries|
    ensures var e := plan.entries[i];
      EntryFits(h, p, plan.entries, i) <==>
        && e.root == h.extend(RootAt(h, p, plan, i), h.content(e.payload))
        && forall x | x in LogAt(h, p, plan, i) :: x.payload.eventId != e.payload.eventId
  {
    var payloads := Payloads(plan.entries);
    var events := EventsFor(h, p.head, plan.receipt, payloads);
    LastFold(h, p.head.root, payloads, i);
    forall j | 0 <= j < i ensures events[j] in events[..i] && events[j].payload == plan.entries[j].payload {
      assert events[..i][j] == events[j];
    }
  }
}
