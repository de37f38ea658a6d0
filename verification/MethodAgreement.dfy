/** Method records and the method catalog under every interleaving: each record has its one entry and
    they agree, and what may happen to a method's identity and lifecycle state. */
module MethodAgreement {
  import opened Wrappers
  import opened PublicationHead
  import opened MethodCatalog
  import opened MethodIndex
  import opened Authority
  import opened ProjectCommands
  import opened MethodPublications
  import opened CommandInterleavings
  import opened AuthorityHistory

  type Documents = map<string, Document>

  ghost predicate HasMethod(docs: Documents, id: string) {
    MethodSlot(id) in docs && docs[MethodSlot(id)].MethodRecord?
  }

  ghost predicate HasCatalog(docs: Documents) {
    CATALOG in docs && docs[CATALOG].MethodCatalogRecord?
  }

  /** The current record of a method and its single catalog entry agree. */
  ghost predicate Agrees(docs: Documents, id: string) {
    HasMethod(docs, id) && HasCatalog(docs) && Agree(docs[MethodSlot(id)].doc, docs[CATALOG].catalog, id)
  }

  /** No entry that is no object can turn into one naming the method. */
  ghost predicate Unhidden(docs: Documents, id: string) {
    HasCatalog(docs) ==> !Hidden(docs[CATALOG].catalog, id)
  }

  // ---------------------------------------------------------------- one committed change

  lemma BriefIsNoMethodSlot(id: string)
    ensures BRIEF != MethodSlot(id) && BRIEF != CATALOG
  {
    MethodSlotsDiffer(id, id);
    assert BRIEF[1] == 'r' && CATALOG[1] == '2';
  }

  /** What a lifecycle command makes of the documents. */
  lemma ChangeEffect(docs: Documents, id: string, target: string, ids: Ids)
    requires Effect(docs, ChangeMethod(id, target), ids).Ok?
    ensures HasMethod(docs, id) && HasCatalog(docs)
    ensures var m, c := docs[MethodSlot(id)].doc, docs[CATALOG].catalog;
      var r := Change(Some(m), Some(c), id, target, ids.stamp, ids.catalogStamp);
      r.Ok? && Replaced(docs, Effect(docs, ChangeMethod(id, target), ids).value)
        == docs[MethodSlot(id) := MethodRecord(r.value.0)][CATALOG := MethodCatalogRecord(r.value.1)]
  {
    var news := Effect(docs, ChangeMethod(id, target), ids).value;
    assert news[..1] == [news[0]] && news[..1][..0] == [];
    assert Replaced(docs, news[..1]) == docs[news[0].0 := news[0].1];
  }

  /** A publication of a phase other than the second writes no method slot and not the catalog. */
  predicate DoneFits(d: Done) {
    d.Elsewhere? ==> forall k | 0 <= k < |d.news| :: IsPhaseSlot(d.news[k].0)
  }

  /** Anything but lifecycle commands and Phase 2 runs leaves methods and catalog alone. */
  lemma OthersLeaveMethods(docs: Documents, d: Done, id: string)
    requires Next(docs, d).Some? && DoneFits(d) && !d.Methods? && !(d.Ran? && d.command.ChangeMethod?)
    ensures var after := Next(docs, d).value;
      && (MethodSlot(id) in after <==> MethodSlot(id) in docs) && (MethodSlot(id) in docs ==> after[MethodSlot(id)] == docs[MethodSlot(id)])
      && (CATALOG in after <==> CATALOG in docs) && (CATALOG in docs ==> after[CATALOG] == docs[CATALOG])
  {
    BriefIsNoMethodSlot(id);
    var news := if d.Ran? then Effect(docs, d.command, d.ids).value else d.news;
    forall k | 0 <= k < |news| ensures news[k].0 != MethodSlot(id) && news[k].0 != CATALOG {
      if d.Elsewhere? { PhaseSlotsAreNoMethodSlots(news[k].0, id); }
    }
    ReplacedElsewhere(docs, news, MethodSlot(id));
    ReplacedElsewhere(docs, news, CATALOG);
  }

  /** A Phase 2 run that publishes a record of the method. */
  ghost predicate Republishes(d: Done, id: string) {
    d.Methods? && exists k :: 0 <= k < |d.changes| && Names(d.changes[k], id)
  }

  /** What one committed change keeps of a method: its agreement, counts that were right, and, unless a
      run published its record again, its identity, and that it is not proposed. */
  ghost predicate Keeps(docs: Documents, after: Documents, id: string, republished: bool) {
    && Agrees(after, id) && HasMethod(docs, id) && HasCatalog(docs) && Unhidden(after, id)
    && (CountsRight(docs[CATALOG].catalog) ==> CountsRight(after[CATALOG].catalog))
    && (!republished ==>
          && after[MethodSlot(id)].doc.identity == docs[MethodSlot(id)].doc.identity
          && (StateOf(docs[MethodSlot(id)].doc) != "proposed" ==> StateOf(after[MethodSlot(id)].doc) != "proposed"))
  }

  lemma ChangeKeeps(docs: Documents, id: string, target: string, ids: Ids, other: string)
    requires Effect(docs, ChangeMethod(id, target), ids).Ok? && Agrees(docs, other) && Unhidden(docs, other)
    ensures Keeps(docs, Replaced(docs, Effect(docs, ChangeMethod(id, target), ids).value), other, false)
    ensures other != id ==> var after := Replaced(docs, Effect(docs, ChangeMethod(id, target), ids).value);
      after[MethodSlot(other)] == docs[MethodSlot(other)]
  {
    MethodSlotsDiffer(id, other);
    ChangeEffect(docs, id, target, ids);
    var m, c := docs[MethodSlot(id)].doc, docs[CATALOG].catalog;
    ChangeMeaning(m, c, id, target, ids.stamp, ids.catalogStamp);
    if other != id {
      MethodSlotsDiffer(other, id);
      ChangeLeavesOthersAgreeing(m, c, id, target, ids.stamp, ids.catalogStamp, other, docs[MethodSlot(other)].doc);
    }
  }

  /** After a Phase 2 run a method that agreed agrees, whether or not the run published its record. */
  lemma MethodsKeep(docs: Documents, changes: seq<Item>, decision: string, id: string)
    requires Next(docs, Methods(changes, decision)).Some? && Agrees(docs, id)
    ensures Keeps(docs, Next(docs, Methods(changes, decision)).value, id, Republishes(Methods(changes, decision), id))
  {
    var prior, m := CatalogIn(docs), docs[MethodSlot(id)].doc;
    MethodsAfter(docs, changes, decision, id);
    var after := Next(docs, Methods(changes, decision)).value;
    IndexMeaning(prior, changes, id);
    IndexAgrees(prior, changes, after[MethodSlot(id)].doc, id);
    MergedMeaning(changes, id);
  }

  lemma NextKeeps(docs: Documents, d: Done, id: string)
    requires Next(docs, d).Some? && DoneFits(d) && Agrees(docs, id) && Unhidden(docs, id)
    ensures Keeps(docs, Next(docs, d).value, id, Republishes(d, id))
  {
    if d.Methods? {
      MethodsKeep(docs, d.changes, d.decision, id);
    } else if d.Ran? && d.command.ChangeMethod? {
      ChangeKeeps(docs, d.command.id, d.command.target, d.ids, id);
    } else {
      OthersLeaveMethods(docs, d, id);
    }
  }

  // ---------------------------------------------------------------- the catalog mirrors the records

  /** The catalog has exactly one entry for every method with a current record, and they agree; it has
      no other entry, and nothing but objects with stable ids.  Without a catalog there is no record. */
  ghost predicate Mirror(docs: Documents) {
    if CATALOG !in docs then forall id: string :: MethodSlot(id) !in docs
    else
      && docs[CATALOG].MethodCatalogRecord? && docs[CATALOG].catalog.methods.Some?
      && AllKeyed(docs[CATALOG].catalog.methods.value) && CountsRight(docs[CATALOG].catalog)
      && forall id: string :: Mirrored(docs, docs[CATALOG].catalog, id)
  }

  ghost predicate Mirrored(docs: Documents, c: Catalog, id: string) {
    if MethodSlot(id) in docs then docs[MethodSlot(id)].MethodRecord? && Agree(docs[MethodSlot(id)].doc, c, id)
    else c.methods.Some? && forall i | 0 <= i < |c.methods.value| :: !Names(c.methods.value[i], id)
  }

  lemma EmptyMirrors(h: Hashes)
    ensures Mirror(Docs(Empty(h)))
  {
  }

  lemma MirrorAgrees(docs: Documents, id: string)
    requires Mirror(docs)
    ensures MethodSlot(id) in docs <==> Agrees(docs, id)
    ensures Unhidden(docs, id)
  {
    if CATALOG in docs { assert Mirrored(docs, docs[CATALOG].catalog, id); }
  }

  lemma ChangeMirrored(docs: Documents, id: string, target: string, ids: Ids, other: string)
    requires Effect(docs, ChangeMethod(id, target), ids).Ok? && Mirror(docs)
    ensures var after := Replaced(docs, Effect(docs, ChangeMethod(id, target), ids).value);
      && HasCatalog(after) && Mirrored(after, after[CATALOG].catalog, other)
      && after[CATALOG].catalog.methods.Some? && AllKeyed(after[CATALOG].catalog.methods.value) && CountsRight(after[CATALOG].catalog)
  {
    var after := Replaced(docs, Effect(docs, ChangeMethod(id, target), ids).value);
    MirrorAgrees(docs, other);
    MirrorAgrees(docs, id);
    MethodSlotsDiffer(id, other);
    ChangeEffect(docs, id, target, ids);
    var m, c := docs[MethodSlot(id)].doc, docs[CATALOG].catalog;
    ChangeMeaning(m, c, id, target, ids.stamp, ids.catalogStamp);
    if MethodSlot(other) in docs {
      ChangeKeeps(docs, id, target, ids, other);
    } else {
      MethodSlotsDiffer(other, id);
      assert Mirrored(docs, c, other);
    }
  }

  lemma MethodsMirrored(docs: Documents, changes: seq<Item>, decision: string, id: string)
    requires Next(docs, Methods(changes, decision)).Some? && Mirror(docs)
    ensures var after := Next(docs, Methods(changes, decision)).value;
      && HasCatalog(after) && Mirrored(after, after[CATALOG].catalog, id)
      && after[CATALOG].catalog.methods.Some? && AllKeyed(after[CATALOG].catalog.methods.value) && CountsRight(after[CATALOG].catalog)
  {
    var prior := CatalogIn(docs);
    var after := Next(docs, Methods(changes, decision)).value;
    MirrorAgrees(docs, id);
    MethodsAfter(docs, changes, decision, id);
    IndexMeaning(prior, changes, id);
    if id in Merged(changes) {
      IndexAgrees(prior, changes, Merged(changes)[id], id);
    } else if MethodSlot(id) in docs {
      IndexAgrees(prior, changes, docs[MethodSlot(id)].doc, id);
    } else {
      MergedMeaning(ItemsOf(prior), id);
      if prior.Some? { assert Mirrored(docs, prior.value, id); }
    }
  }

  lemma NextMirrors(docs: Documents, d: Done)
    requires Next(docs, d).Some? && DoneFits(d) && Mirror(docs)
    ensures Mirror(Next(docs, d).value)
  {
    var after := Next(docs, d).value;
    if d.Methods? {
      forall id: string ensures HasCatalog(after) && Mirrored(after, after[CATALOG].catalog, id) {
        MethodsMirrored(docs, d.changes, d.decision, id);
      }
      MethodsMirrored(docs, d.changes, d.decision, "");
    } else if d.Ran? && d.command.ChangeMethod? {
      forall id: string ensures HasCatalog(after) && Mirrored(after, after[CATALOG].catalog, id) {
        ChangeMirrored(docs, d.command.id, d.command.target, d.ids, id);
      }
      ChangeMirrored(docs, d.command.id, d.command.target, d.ids, "");
    } else {
      forall id: string ensures MethodSlot(id) in after <==> MethodSlot(id) in docs { OthersLeaveMethods(docs, d, id); }
      OthersLeaveMethods(docs, d, "");
      if CATALOG in docs {
        forall id: string ensures Mirrored(after, after[CATALOG].catalog, id) {
          OthersLeaveMethods(docs, d, id);
          assert Mirrored(docs, docs[CATALOG].catalog, id);
        }
      }
    }
  }

  // ---------------------------------------------------------------- every interleaving

  /** Publications of the other phases write slots of their own. */
  predicate OthersInTheirSlots(steps: seq<Step>) {
    forall i | 0 <= i < |steps| && steps[i].Foreign? :: forall w | w in steps[i].plan.writes :: IsPhaseSlot(w.slot)
  }

  lemma StepFits(h: Hashes, s: System, step: Step)
    requires step.Foreign? ==> forall w | w in step.plan.writes :: IsPhaseSlot(w.slot)
    ensures var t := After(h, s, step);
      t.done == s.done || (t.done == s.done + [t.done[|t.done| - 1]] && DoneFits(t.done[|t.done| - 1]))
  {
    hide Accepts, Committed;
  }

  /** Some of these changes published the record of the method again. */
  ghost predicate Republished(done: seq<Done>, id: string) {
    exists d :: d in done && Republishes(d, id)
  }

  lemma KeepsFollows(a: Documents, b: Documents, c: Documents, id: string, first: seq<Done>, later: seq<Done>)
    requires Keeps(a, b, id, Republished(first, id)) && Keeps(b, c, id, Republished(later, id))
    ensures Keeps(a, c, id, Republished(first + later, id))
  {
    if Republished(first, id) {
      var d :| d in first && Republishes(d, id);
      assert d in first + later;
    }
    if Republished(later, id) {
      var d :| d in later && Republishes(d, id);
      assert d in first + later;
    }
  }

  lemma KeepsItself(docs: Documents, id: string)
    requires Agrees(docs, id) && Unhidden(docs, id)
    ensures Keeps(docs, docs, id, Republished([], id))
  {
  }

  lemma KeptAgrees(a: Documents, b: Documents, id: string, republished: bool)
    requires Keeps(a, b, id, republished)
    ensures Agrees(b, id) && Unhidden(b, id)
  {
  }

  lemma StepKeepsMethod(h: Hashes, s: System, step: Step, id: string) returns (more: seq<Done>)
    requires Inv(h, s) && Agrees(Docs(s.p), id) && Unhidden(Docs(s.p), id)
    requires step.Foreign? ==> forall w | w in step.plan.writes :: IsPhaseSlot(w.slot)
    ensures After(h, s, step).done == s.done + more
    ensures Keeps(Docs(s.p), Docs(After(h, s, step).p), id, Republished(more, id))
  {
    StepIsSerial(h, s, step);
    StepFits(h, s, step);
    hide After, Docs;
    var t := After(h, s, step);
    if t.done == s.done {
      more := [];
      assert t.p == s.p;
    } else {
      var d := t.done[|s.done|];
      more := [d];
      NextKeeps(Docs(s.p), d, id);
      assert Republishes(d, id) ==> Republished(more, id);
    }
  }

  /** From any moment on, whatever is pending then: a method that agrees with its single entry, and that
      no other entry hides, keeps agreeing. */
  lemma {:induction false} RunKeepsMethod(h: Hashes, s: System, steps: seq<Step>, id: string) returns (more: seq<Done>)
    requires Inv(h, s) && OthersInTheirSlots(steps) && Agrees(Docs(s.p), id) && Unhidden(Docs(s.p), id)
    ensures Run(h, s, steps).done == s.done + more
    ensures Keeps(Docs(s.p), Docs(Run(h, s, steps).p), id, Republished(more, id))
    decreases |steps|
  {
    hide After, Docs, Keeps, Mirror;
    if steps == [] {
      more := [];
      KeepsItself(Docs(s.p), id);
    } else {
      var t := After(h, s, steps[0]);
      var first := StepKeepsMethod(h, s, steps[0], id);
      AfterKeepsInv(h, s, steps[0]);
      KeptAgrees(Docs(s.p), Docs(t.p), id, Republished(first, id));
      var later := RunKeepsMethod(h, t, steps[1..], id);
      KeepsFollows(Docs(s.p), Docs(t.p), Docs(Run(h, t, steps[1..]).p), id, first, later);
      more := first + later;
      assert s.done + first + later == s.done + more;
    }
  }

  lemma StepMirrors(h: Hashes, s: System, step: Step)
    requires Inv(h, s) && Mirror(Docs(s.p))
    requires step.Foreign? ==> forall w | w in step.plan.writes :: IsPhaseSlot(w.slot)
    ensures Mirror(Docs(After(h, s, step).p))
  {
    StepIsSerial(h, s, step);
    StepFits(h, s, step);
    hide After, Docs, Mirror;
    var t := After(h, s, step);
    if t.done != s.done { NextMirrors(Docs(s.p), t.done[|s.done|]); }
  }

  lemma {:induction false} RunMirrors(h: Hashes, s: System, steps: seq<Step>)
    requires Inv(h, s) && OthersInTheirSlots(steps) && Mirror(Docs(s.p))
    ensures Mirror(Docs(Run(h, s, steps).p))
    decreases |steps|
  {
    if steps != [] {
      StepMirrors(h, s, steps[0]);
      AfterKeepsInv(h, s, steps[0]);
      RunMirrors(h, After(h, s, steps[0]), steps[1..]);
    }
  }

  /** Over every interleaving of commands, Phase 2 runs and other publications, between any two
      moments of it: the catalog mirrors the records; and a method that has a record keeps one that
      agrees with its single entry, under the same identity, and never proposed again once it was not,
      unless a Phase 2 run in between published its record again. */
  lemma MethodsAlwaysAgree(h: Hashes, p: Project, steps: seq<Step>, i: nat, id: string)
    requires Sound(h, p) && Mirror(Docs(p)) && OthersInTheirSlots(steps) && i <= |steps|
    ensures var mid, end := Run(h, Beginning(p), steps[..i]), Run(h, Beginning(p), steps);
      && Mirror(Docs(mid.p)) && Mirror(Docs(end.p)) && mid.done <= end.done
      && (MethodSlot(id) in Docs(mid.p) ==>
            Keeps(Docs(mid.p), Docs(end.p), id, Republished(end.done[|mid.done|..], id)))
  {
    hide After, Docs, Keeps, Mirror;
    var start := Beginning(p);
    var mid := Run(h, start, steps[..i]);
    RunMirrors(h, start, steps[..i]);
    RunMirrors(h, start, steps);
    RunIsSerial(h, start, steps[..i], Docs(p));
    RunIsSerial(h, mid, steps[i..], Docs(p));
    RunInTwoParts(h, start, steps, i);
    MirrorAgrees(Docs(mid.p), id);
    if MethodSlot(id) in Docs(mid.p) {
      var more := RunKeepsMethod(h, mid, steps[i..], id);
      assert Run(h, start, steps).done[|mid.done|..] == more;
    }
  }

  /** In particular from an empty project on, where the two writers of the catalog made all of it. */
  lemma FromNothing(h: Hashes, steps: seq<Step>)
    requires OthersInTheirSlots(steps)
    ensures Mirror(Docs(Run(h, Beginning(Empty(h)), steps).p))
  {
    EmptyIsSound(h);
    EmptyMirrors(h);
    RunMirrors(h, Beginning(Empty(h)), steps);
  }

  // ---------------------------------------------------------------- who changes a lifecycle state

  /** A Phase 2 run leaves the lifecycle state of a method as it was exactly when no record it
      publishes of the method has another one. */
  lemma RunKeepsLifecycleIff(docs: Documents, changes: seq<Item>, decision: string, id: string)
    requires Next(docs, Methods(changes, decision)).Some? && Agrees(docs, id)
    ensures var after := Next(docs, Methods(changes, decision)).value;
      && HasMethod(after, id)
      && (StateOf(after[MethodSlot(id)].doc) == StateOf(docs[MethodSlot(id)].doc) <==>
            forall k | 0 <= k < |changes| && Names(changes[k], id) :: StateOf(changes[k].doc) == StateOf(docs[MethodSlot(id)].doc))
  {
    MethodsKeep(docs, changes, decision, id);
    MethodsAfter(docs, changes, decision, id);
    var news := NewsShape(CatalogIn(docs), changes, decision);
    MergedMeaning(changes, id);
    if id in Merged(changes) {
      var k :| 0 <= k < |changes| && Names(changes[k], id);
      assert KeyOf(changes[k]) == id;
      LastItemWins(changes, k);
      forall j | 0 <= j < |changes| && Names(changes[j], id) ensures j == k { assert KeyOf(changes[j]) == id; }
    }
  }

  lemma OneRecordIsNews(prior: Catalog, change: Item, decision: string)
    requires Keyed(change) && SafeKey(KeyOf(change)) && HasFormat(prior) && prior.methods.Some? && AllKeyed(prior.methods.value)
    ensures MethodNews(Some(prior), [change], decision).Ok?
    ensures AllKeyed([change]) && KeyOf(change) in Merged([change]) && Merged([change])[KeyOf(change)] == change.doc
  {
    IndexRefusedIff(Some(prior), [change]);
    LastItemWins([change], 0);
  }

  /** The run that retires a method without any lifecycle command: it publishes the current record with
      another state. */
  lemma RunCanRetire(docs: Documents, id: string, decision: string)
    requires Mirror(docs) && HasMethod(docs, id) && HasCatalog(docs) && HasFormat(docs[CATALOG].catalog) && SafeKey(id)
    requires StateOf(docs[MethodSlot(id)].doc) == "active"
    ensures var change := Dict(docs[MethodSlot(id)].doc.(state := Some("retired")));
      var r := Next(docs, Methods([change], decision));
      r.Some? && HasMethod(r.value, id) && StateOf(r.value[MethodSlot(id)].doc) == "retired"
  {
    var change := Dict(docs[MethodSlot(id)].doc.(state := Some("retired")));
    MirrorAgrees(docs, id);
    MirroredIsNamed(docs, id);
    OneRecordIsNews(docs[CATALOG].catalog, change, decision);
    hide MethodNews, Merged, Replaced, Mirror;
    MethodsAfter(docs, [change], decision, id);
  }

  lemma MirroredIsNamed(docs: Documents, id: string)
    requires Agrees(docs, id)
    ensures Names(Dict(docs[MethodSlot(id)].doc), id)
  {
    var m, c := docs[MethodSlot(id)].doc, docs[CATALOG].catalog;
    var i :| EntryAt(c.methods.value, id, i) && AgreeOn(m, c.methods.value[i].doc);
  }
}
