/** What a Phase 2 run publishes: its method records and the catalog rebuilt from them, over the
    catalog it froze (src/model_forge/harness/publication.py, src/model_forge/harness/
    publication_basis.py and src/model_forge/application/run_coordinator.py; the bindings are those
    of architecture/contracts/phases/P2.json). */
module MethodPublications {
  import opened Wrappers
  import opened PublicationHead
  import opened MethodCatalog
  import opened MethodIndex
  import opened Authority
  import opened ProjectCommands

  const DECISION := "p2.phase_decision.current"

  datatype Refusal = IndexRefused(error: IndexError) | UnsafeKey | RepeatedSlot

  predicate IsKeyChar(c: char) {
    'a' <= c <= 'z' || '0' <= c <= '9'
  }

  /** `_SAFE_ITEM_KEY`: runs of letters and digits joined by single separators, from a letter on. */
  predicate SafeKey(k: string) {
    && k != "" && 'a' <= k[0] <= 'z'
    && forall i | 0 <= i < |k| ::
      IsKeyChar(k[i]) || ((k[i] == '.' || k[i] == '_' || k[i] == '-') && i + 1 < |k| && IsKeyChar(k[i + 1]))
  }

  /** The documents of a run, slot by slot: every record of the run, the next index, the decision. */
  function MethodNews(prior: Option<Catalog>, changes: seq<Item>, decision: string): Result<seq<(string, Document)>, Refusal> {
    var index := Index(prior, changes);
    IndexRefusedIff(prior, changes);
    if index.Err? then Err(IndexRefused(index.error))
    else if exists i :: 0 <= i < |changes| && !SafeKey(KeyOf(changes[i])) then Err(UnsafeKey)
    else if exists i, j :: 0 <= i < j < |changes| && KeyOf(changes[i]) == KeyOf(changes[j]) then Err(RepeatedSlot)
    else Ok(RecordsOf(changes) + [(CATALOG, MethodCatalogRecord(index.value)), (DECISION, OtherRecord(decision))])
  }

  predicate Separator(c: char) {
    c == '.' || c == '_' || c == '-'
  }

  /** A run of lower-case letters and digits. */
  predicate Word(k: string) {
    k != "" && forall i | 0 <= i < |k| :: 'a' <= k[i] <= 'z' || '0' <= k[i] <= '9'
  }

  /** Words joined by single separators. */
  ghost predicate Joined(k: string)
    decreases |k|
  {
    Word(k) || exists i | 0 <= i < |k| :: Word(k[..i]) && Separator(k[i]) && Joined(k[i + 1..])
  }

  /** Every character is a key character, or a separator with a key character behind it. */
  predicate Chained(k: string) {
    forall i | 0 <= i < |k| :: IsKeyChar(k[i]) || (Separator(k[i]) && i + 1 < |k| && IsKeyChar(k[i + 1]))
  }

  lemma {:induction false} JoinedIsChained(k: string)
    requires Joined(k)
    ensures Chained(k) && k != "" && IsKeyChar(k[0])
    decreases |k|
  {
    if !Word(k) {
      var i :| 0 <= i < |k| && Word(k[..i]) && Separator(k[i]) && Joined(k[i + 1..]);
      var rest := k[i + 1..];
      JoinedIsChained(rest);
      forall j | 0 <= j < |k| ensures IsKeyChar(k[j]) || (Separator(k[j]) && j + 1 < |k| && IsKeyChar(k[j + 1])) {
        if j < i { assert k[..i][j] == k[j]; }
        if j == i { assert rest[0] == k[i + 1]; }
        if j > i { assert rest[j - i - 1] == k[j]; }
      }
      assert k[..i][0] == k[0];
    }
  }

  lemma {:induction false} ChainedIsJoined(k: string)
    requires Chained(k) && k != "" && IsKeyChar(k[0])
    ensures Joined(k)
    decreases |k|
  {
    if !Word(k) {
      var i := FirstSeparator(k);
      var rest := k[i + 1..];
      assert rest[0] == k[i + 1];
      forall j | 0 <= j < |rest| ensures IsKeyChar(rest[j]) || (Separator(rest[j]) && j + 1 < |rest| && IsKeyChar(rest[j + 1])) {
        assert rest[j] == k[i + 1 + j];
      }
      ChainedIsJoined(rest);
    }
  }

  lemma {:induction false} FirstSeparator(k: string) returns (i: nat)
    requires Chained(k) && k != "" && IsKeyChar(k[0]) && !Word(k)
    ensures i + 1 < |k| && Word(k[..i]) && Separator(k[i]) && IsKeyChar(k[i + 1])
  {
    i := 0;
    while IsKeyChar(k[i])
      invariant i < |k| && forall j | 0 <= j < i :: IsKeyChar(k[j])
      decreases |k| - i
    {
      if i + 1 == |k| { assert false; }
      i := i + 1;
    }
  }

  /** The characters read one by one are the regular expression: words of lower-case letters and digits
      joined by single separators, from a letter on. */
  lemma SafeKeyIff(k: string)
    ensures Joined(k) ==> k != ""
    ensures SafeKey(k) <==> Joined(k) && 'a' <= k[0] <= 'z'
  {
    if SafeKey(k) { ChainedIsJoined(k); }
    if Joined(k) { JoinedIsChained(k); }
  }

  /** A run publishes exactly when its index is accepted, every stable id of its records is a safe key
      and no two records have the same; and then it publishes each record in the slot of its id, the
      next index and its decision. */
  lemma MethodNewsMeaning(prior: Option<Catalog>, changes: seq<Item>, decision: string)
    ensures MethodNews(prior, changes, decision).Ok? <==>
      && Index(prior, changes).Ok? && AllKeyed(changes)
      && (forall i | 0 <= i < |changes| :: SafeKey(KeyOf(changes[i])))
      && forall i, j | 0 <= i < j < |changes| :: KeyOf(changes[i]) != KeyOf(changes[j])
    ensures MethodNews(prior, changes, decision).Ok? ==>
      var news, n := MethodNews(prior, changes, decision).value, |changes|;
      && |news| == n + 2 && AllKeyed(changes) && Index(prior, changes).Ok?
      && (forall i | 0 <= i < n :: news[i].0 == "methods/" + KeyOf(changes[i]) + "/current" && news[i].1 == MethodRecord(changes[i].doc))
      && news[n] == ("p2.method_catalog.current", MethodCatalogRecord(Index(prior, changes).value))
      && news[n + 1] == ("p2.phase_decision.current", OtherRecord(decision))
  {
    IndexRefusedIff(prior, changes);
    hide Index, SafeKey, KeyOf;
  }

  function RecordsOf(changes: seq<Item>): (r: seq<(string, Document)>)
    requires AllKeyed(changes)
    ensures |r| == |changes|
    ensures forall k | 0 <= k < |r| :: r[k] == (MethodSlot(KeyOf(changes[k])), MethodRecord(changes[k].doc))
  {
    seq(|changes|, k requires 0 <= k < |changes| => (MethodSlot(KeyOf(changes[k])), MethodRecord(changes[k].doc)))
  }

  /** The catalog record among the current documents. */
  function CatalogIn(docs: map<string, Document>): Option<Catalog> {
    if CATALOG in docs && docs[CATALOG].MethodCatalogRecord? then Some(docs[CATALOG].catalog) else None
  }

  // ---------------------------------------------------------------- a run from its preparation on

  /** `capture_publication_basis`: the head and every current slot, in one read. */
  datatype Basis = Basis(head: Head, slots: map<string, string>)

  /** A run in preparation or after it: the catalog it resolved as an input, the basis it captured,
      and which of the two checks of `_verify_frozen_inputs` it has passed. */
  datatype MethodRun = MethodRun(input: Read, basis: Option<Basis>, headSeen: bool, inputSeen: bool)

  /** The current catalog, which is looked up by its record type. */
  function CatalogRead(p: Project): Read {
    var r := ReadOf(p, CATALOG);
    if r.Some? && r.value.1.MethodCatalogRecord? then r else None
  }

  function InputCatalog(k: MethodRun): Option<Catalog> {
    if k.input.Some? && k.input.value.1.MethodCatalogRecord? then Some(k.input.value.1.catalog) else None
  }

  function GenerationAt(generations: seq<string>, k: nat): string {
    if k < |generations| then generations[k] else ""
  }

  /** The writes expect the generations of the basis. */
  function WritesFrom(basis: Basis, news: seq<(string, Document)>, generations: seq<string>): (r: seq<Write>)
    ensures |r| == |news|
    ensures forall k | 0 <= k < |r| ::
      r[k] == Write(news[k].0, GenerationAt(generations, k), Lookup(basis.slots, news[k].0), news[k].1)
  {
    seq(|news|, k requires 0 <= k < |news| =>
      Write(news[k].0, GenerationAt(generations, k), Lookup(basis.slots, news[k].0), news[k].1))
  }

  /** The publication of a verified run; its receipt, generation ids and events are its own.  A run
      that did not consume the catalog of its basis is refused. */
  function PlanFrom(k: MethodRun, changes: seq<Item>, decision: string, receipt: string, generations: seq<string>,
                    entries: seq<Entry>): Option<Plan>
  {
    var news := MethodNews(InputCatalog(k), changes, decision);
    if k.basis.None? || !k.headSeen || !k.inputSeen || news.Err? || (CATALOG in k.basis.value.slots && k.input.None?) then None
    else Some(Plan(receipt, k.basis.value.head, WritesFrom(k.basis.value, news.value, generations), entries))
  }

  /** What stays true of a run while others publish: as long as the revision is that of the basis, the
      slots are those of the basis, and a checked input is still the current catalog. */
  ghost predicate RunFits(p: Project, k: MethodRun) {
    && (k.input.Some? ==> k.input.value.0 in p.generations && p.generations[k.input.value.0].document == k.input.value.1
                          && k.input.value.1.MethodCatalogRecord?)
    && (k.basis.Some? ==> k.basis.value.head.revision <= p.head.revision
                          && (k.basis.value.head.revision == p.head.revision ==> k.basis.value.slots == p.slots))
    && (k.inputSeen ==> k.basis.Some?
                        && (k.input.Some? && k.basis.value.head.revision == p.head.revision ==>
                              Lookup(p.slots, CATALOG) == Some(k.input.value.0)))
  }

  /** A run that is accepted reduced the catalog that is current at its commit. */
  lemma AcceptedInputIsCurrent(h: Hashes, p: Project, k: MethodRun, changes: seq<Item>, decision: string, receipt: string,
                               generations: seq<string>, entries: seq<Entry>)
    requires RunFits(p, k) && PlanFrom(k, changes, decision, receipt, generations, entries).Some?
    requires Accepts(h, p, PlanFrom(k, changes, decision, receipt, generations, entries).value)
    ensures InputCatalog(k) == CatalogIn(Docs(p))
    ensures MethodNews(CatalogIn(Docs(p)), changes, decision)
         == Ok(DocumentsOf(PlanFrom(k, changes, decision, receipt, generations, entries).value.writes))
  {
    var plan := PlanFrom(k, changes, decision, receipt, generations, entries).value;
    var news := MethodNews(InputCatalog(k), changes, decision).value;
    assert p.head == k.basis.value.head && k.basis.value.slots == p.slots;
    assert DocumentsOf(plan.writes) == news;
    DocsAt(p, CATALOG);
  }

  /** Publications of others only raise the revision and add generations. */
  lemma CommitKeepsRun(p: Project, q: Project, k: MethodRun)
    requires RunFits(p, k) && p.head.revision < q.head.revision
    requires forall g | g in p.generations :: g in q.generations && q.generations[g] == p.generations[g]
    ensures RunFits(q, k)
  {
  }

  // ---------------------------------------------------------------- what it does to a method

  lemma MethodSlotsDiffer(a: string, b: string)
    ensures MethodSlot(a) == MethodSlot(b) ==> a == b
    ensures MethodSlot(a) !in {CATALOG, BRIEF, DECISION}
  {
    assert MethodSlot(a)[0] == 'm' && CATALOG[0] == 'p' && BRIEF[0] == 'p' && DECISION[0] == 'p';
    assert MethodSlot(a)[8..|MethodSlot(a)| - 8] == a && MethodSlot(b)[8..|MethodSlot(b)| - 8] == b;
  }

  /** The slots of the other phases and of the brief: `methods/<id>/v<n>/<digest>/p3.theory.current` and
      the like. */
  predicate IsPhaseSlot(slot: string) {
    slot != CATALOG && |slot| >= 8 && slot[|slot| - 8..] == ".current"
  }

  lemma PhaseSlotsAreNoMethodSlots(slot: string, id: string)
    requires IsPhaseSlot(slot)
    ensures slot != MethodSlot(id) && slot != CATALOG
  {
    assert MethodSlot(id)[|MethodSlot(id)| - 8..] == "/current";
    assert ".current"[0] == '.' && "/current"[0] == '/';
  }

  lemma {:induction false} ReplacedElsewhere(docs: map<string, Document>, news: seq<(string, Document)>, slot: string)
    requires forall k | 0 <= k < |news| :: news[k].0 != slot
    ensures var r := Replaced(docs, news);
      (slot in r <==> slot in docs) && (slot in r ==> r[slot] == docs[slot])
  {
    if news != [] { ReplacedElsewhere(docs, news[..|news| - 1], slot); }
  }

  lemma {:induction false} ReplacedOnce(docs: map<string, Document>, news: seq<(string, Document)>, i: nat)
    requires i < |news| && forall k | 0 <= k < |news| && k != i :: news[k].0 != news[i].0
    ensures news[i].0 in Replaced(docs, news) && Replaced(docs, news)[news[i].0] == news[i].1
  {
    var n := |news| - 1;
    if i < n {
      assert news[..n][i] == news[i];
      ReplacedOnce(docs, news[..n], i);
    }
  }

  /** The slots of a publication: one for each record, the catalog and the decision, all different. */
  lemma NewsShape(prior: Option<Catalog>, changes: seq<Item>, decision: string) returns (news: seq<(string, Document)>)
    requires MethodNews(prior, changes, decision).Ok?
    ensures news == MethodNews(prior, changes, decision).value && |news| == |changes| + 2
    ensures Index(prior, changes).Ok? && AllKeyed(changes)
    ensures forall k | 0 <= k < |changes| :: news[k] == (MethodSlot(KeyOf(changes[k])), MethodRecord(changes[k].doc))
    ensures news[|changes|] == (CATALOG, MethodCatalogRecord(Index(prior, changes).value)) && news[|changes| + 1].0 == DECISION
    ensures forall j, k | 0 <= j < |changes| && 0 <= k < |changes| && j != k :: KeyOf(changes[j]) != KeyOf(changes[k])
  {
    IndexRefusedIff(prior, changes);
    news := MethodNews(prior, changes, decision).value;
  }

  lemma SlotsOfNews(changes: seq<Item>, news: seq<(string, Document)>, id: string)
    requires |news| == |changes| + 2 && AllKeyed(changes)
    requires forall k | 0 <= k < |changes| :: news[k] == (MethodSlot(KeyOf(changes[k])), MethodRecord(changes[k].doc))
    requires news[|changes|].0 == CATALOG && news[|changes| + 1].0 == DECISION
    ensures forall k | 0 <= k < |news| && k != |changes| :: news[k].0 != CATALOG
    ensures forall k | 0 <= k < |news| :: news[k].0 == MethodSlot(id) <==> k < |changes| && KeyOf(changes[k]) == id
  {
    assert CATALOG[3] == 'm' && DECISION[3] == 'p';
    MethodSlotsDiffer(id, id);
    forall k | 0 <= k < |changes| ensures news[k].0 != CATALOG && (news[k].0 == MethodSlot(id) <==> KeyOf(changes[k]) == id) {
      MethodSlotsDiffer(KeyOf(changes[k]), id);
    }
  }

  /** The documents after a Phase 2 publication: the next index, and of every method the record of the
      run, if it has one, or else the record from before. */
  lemma MethodsAfter(docs: map<string, Document>, changes: seq<Item>, decision: string, id: string)
    requires MethodNews(CatalogIn(docs), changes, decision).Ok?
    ensures Index(CatalogIn(docs), changes).Ok? && AllKeyed(changes)
    ensures var after := Replaced(docs, MethodNews(CatalogIn(docs), changes, decision).value);
      && CATALOG in after && after[CATALOG] == MethodCatalogRecord(Index(CatalogIn(docs), changes).value)
      && (id in Merged(changes) ==> MethodSlot(id) in after && after[MethodSlot(id)] == MethodRecord(Merged(changes)[id]))
      && (id !in Merged(changes) ==>
            (MethodSlot(id) in after <==> MethodSlot(id) in docs)
            && (MethodSlot(id) in docs ==> after[MethodSlot(id)] == docs[MethodSlot(id)]))
  {
    var news := NewsShape(CatalogIn(docs), changes, decision);
    SlotsOfNews(changes, news, id);
    hide Index, MethodNews, Replaced;
    ReplacedOnce(docs, news, |changes|);
    MergedMeaning(changes, id);
    if id in Merged(changes) {
      var k :| 0 <= k < |changes| && Names(changes[k], id);
      assert KeyOf(changes[k]) == id;
      ReplacedOnce(docs, news, k);
      LastItemWins(changes, k);
    } else {
      forall j | 0 <= j < |changes| ensures KeyOf(changes[j]) != id { assert !Names(changes[j], id); }
      ReplacedElsewhere(docs, news, MethodSlot(id));
    }
  }
}
