/** What holds of a project after any history of publication attempts. */
module AuthorityHistory {
  import opened Wrappers
  import opened PublicationHead
  import opened Authority
  import opened Sequences

  /** Attempts one publication after the other; a refused one changes nothing. */
  ghost function History(h: Hashes, p: Project, plans: seq<Plan>): Project
    decreases |plans|
  {
    if plans == [] then p
    else History(h, if Accepts(h, p, plans[0]) then Committed(h, p, plans[0]) else p, plans[1..])
  }

  lemma EmptyIsSound(h: Hashes)
    ensures Sound(h, Empty(h))
  {
    assert ChainsFit(Empty(h), map[]);
  }

  lemma {:induction false} HistoryIsSound(h: Hashes, p: Project, plans: seq<Plan>)
    requires Sound(h, p)
    ensures Sound(h, History(h, p, plans))
    decreases |plans|
  {
    if plans != [] {
      if Accepts(h, p, plans[0]) {
        CommittedIsSound(h, p, plans[0]);
        HistoryIsSound(h, Committed(h, p, plans[0]), plans[1..]);
      } else {
        HistoryIsSound(h, p, plans[1..]);
      }
    }
  }

  function PayloadOf(e: Event): Payload {
    e.payload
  }

  function Contents(log: seq<Event>): seq<Payload> {
    Mapped(log, PayloadOf)
  }

  lemma {:induction false} RootIsFold(h: Hashes, head: Head, log: seq<Event>)
    requires LogFits(h, head, log)
    ensures head.root == Fold(h, h.zero, Contents(log))
    decreases |log|
  {
    if log != [] {
      var n := |log| - 1;
      var before := Head(n, if n == 0 then h.zero else log[n - 1].root, 0);
      forall k | 0 <= k < n ensures EventFits(h, log[..n], k) { assert EventFits(h, log, k); }
      RootIsFold(h, before, log[..n]);
      assert Contents(log)[..n] == Contents(log[..n]);
      assert EventFits(h, log, n);
    }
  }

  /** Over any history from the empty project, whatever was attempted and in whatever
      interleaving: the sequence is the length of the log, the root is the fold of the whole log
      from zero, the receipts are a gapless chain of heads up to the current one, and each slot's
      generations are one chain of supersessions that ends at the current generation. */
  lemma AuthorityIsAuthentic(h: Hashes, plans: seq<Plan>)
    ensures var p := History(h, Empty(h), plans);
      && p.head.sequence == |p.log| && p.head.root == Fold(h, h.zero, Contents(p.log))
      && p.head.revision == |p.receipts|
      && (p.receipts != [] ==> p.receipts[0].prior == Head(0, h.zero, 0) && p.receipts[|p.receipts| - 1].next == p.head)
      && (forall k | 0 < k < |p.receipts| :: p.receipts[k].prior == p.receipts[k - 1].next)
      && (forall k | 0 <= k < |p.receipts| :: Covers(p.receipts[k], p.log))
  {
    var p := History(h, Empty(h), plans);
    EmptyIsSound(h);
    HistoryIsSound(h, Empty(h), plans);
    RootIsFold(h, p.head, p.log);
    ReceiptsLead(h, p.head, p.receipts);
  }

  lemma ReceiptsLead(h: Hashes, head: Head, receipts: seq<Receipt>)
    requires ReceiptsFit(h, head, receipts)
    ensures head.revision == |receipts|
    ensures receipts != [] ==> receipts[0].prior == Head(0, h.zero, 0) && receipts[|receipts| - 1].next == head
    ensures forall k | 0 < k < |receipts| :: receipts[k].prior == receipts[k - 1].next
  {
    if receipts != [] { assert ReceiptFits(h, receipts, 0) && ReceiptFits(h, receipts, |receipts| - 1); }
    forall k | 0 < k < |receipts| ensures receipts[k].prior == receipts[k - 1].next {
      assert ReceiptFits(h, receipts, k);
    }
  }

  /** The history of a slot: all its generations, without repetition, each superseding the one
      before, up to the current one. */
  lemma SlotHistoryIsLinear(h: Hashes, plans: seq<Plan>, slot: string)
    requires slot in History(h, Empty(h), plans).slots
    ensures var p := History(h, Empty(h), plans);
      exists c :: Chain(p, slot, c) && (forall a, b | 0 <= a < b < |c| :: c[a] != c[b])
                  && forall g :: g in p.generations && p.generations[g].slot == Some(slot) <==> g in c
  {
    var p := History(h, Empty(h), plans);
    EmptyIsSound(h);
    HistoryIsSound(h, Empty(h), plans);
    var chains :| ChainsFit(p, chains);
    var c := chains[slot];
    assert Chain(p, slot, c);
    forall a, b | 0 <= a < b < |c| ensures c[a] != c[b] { ChainDistinct(p, slot, c, a, b); }
    forall g ensures g in p.generations && p.generations[g].slot == Some(slot) <==> g in c {
      if g in p.generations { assert OnItsChain(p, chains, g); }
      if g in c {
        var k :| 0 <= k < |c| && c[k] == g;
        assert Link(p, slot, c, k);
      }
    }
  }

  ghost predicate InjectiveHashes(h: Hashes) {
    && (forall a, b, c, d :: h.extend(a, b) == h.extend(c, d) ==> a == c && b == d)
    && forall x, y :: h.content(x) == h.content(y) ==> x == y
  }

  lemma {:induction false} FoldInjective(h: Hashes, root: Digest, a: seq<Payload>, b: seq<Payload>)
    requires InjectiveHashes(h) && |a| == |b| && Fold(h, root, a) == Fold(h, root, b)
    ensures a == b
    decreases |a|
  {
    if a != [] {
      var n := |a| - 1;
      FoldInjective(h, root, a[..n], b[..n]);
      assert a == a[..n] + [a[n]] && b == b[..n] + [b[n]];
    }
  }

  /** With injective digests, two projects with the same head have the same log: the same
      documents, digests and roots, event for event. */
  lemma EqualHeadsEqualLogs(h: Hashes, p: Project, q: Project)
    requires InjectiveHashes(h) && Sound(h, p) && Sound(h, q)
    requires p.head.sequence == q.head.sequence && p.head.root == q.head.root
    ensures |p.log| == |q.log|
    ensures forall k | 0 <= k < |p.log| :: p.log[k].payload == q.log[k].payload && p.log[k].root == q.log[k].root
  {
    RootIsFold(h, p.head, p.log);
    RootIsFold(h, q.head, q.log);
    FoldInjective(h, h.zero, Contents(p.log), Contents(q.log));
    forall k | 0 <= k < |p.log| ensures p.log[k].payload == q.log[k].payload && p.log[k].root == q.log[k].root {
      assert Contents(p.log)[k] == Contents(q.log)[k];
      SameRoots(h, p.head, p.log, q.head, q.log, k);
    }
  }

  lemma {:induction false} SameRoots(h: Hashes, ph: Head, p: seq<Event>, qh: Head, q: seq<Event>, k: nat)
    requires LogFits(h, ph, p) && LogFits(h, qh, q) && k < |p| == |q|
    requires forall i | 0 <= i < |p| :: p[i].payload == q[i].payload
    ensures p[k].root == q[k].root
  {
    assert EventFits(h, p, k) && EventFits(h, q, k);
    if k > 0 { SameRoots(h, ph, p, qh, q, k - 1); }
  }
}
