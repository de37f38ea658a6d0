/** Replay of authority events into record states
    (architecture/tools/validate_package.py, `fold_authority_events` and
    `validate_subject_prior_state_bindings`). */
module AuthorityReplay {
  import opened Wrappers
  import opened Sequences

  datatype Field = PublicationState | RecordPosition | Alignment | ResearchAttention | EvidenceEligibility

  const STATE_FIELDS: set<Field> := {PublicationState, RecordPosition, Alignment, ResearchAttention, EvidenceEligibility}

  /** A subject with everything else it says in `rest`. */
  datatype Subject =
    | RecordGeneration(id: string, generation: string, rest: string)
    | EvidenceItem(id: string, rest: string)
    | OtherSubject(rest: string)

  datatype Key = RecordKey(id: string, generation: string) | EvidenceKey(id: string)

  datatype Event = Event(id: string, sequence: int, project: string, subject: Subject, changes: map<Field, string>, hasPrior: bool)

  datatype Projection = Projection(project: string, subject: Subject, values: map<Field, string>, sources: seq<string>)

  datatype Issue = PriorMissing(id: string, key: Key) | ProjectChanges(key: Key) | SubjectChanges(key: Key) | FieldsMissing(key: Key)

  /** `authority_subject_key`. */
  function KeyOf(s: Subject): Option<Key> {
    match s
    case RecordGeneration(id, g, _) => Some(RecordKey(id, g))
    case EvidenceItem(id, _) => Some(EvidenceKey(id))
    case OtherSubject(_) => None
  }

  /** Two subjects share a key exactly when they are the same generation of one record or the same
      evidence item; subjects of other kinds have none. */
  lemma SubjectsShareKeyIff(s: Subject, t: Subject)
    ensures KeyOf(s).Some? && KeyOf(s) == KeyOf(t) <==>
      || (s.RecordGeneration? && t.RecordGeneration? && s.id == t.id && s.generation == t.generation)
      || (s.EvidenceItem? && t.EvidenceItem? && s.id == t.id)
  {
  }

  const NOT_APPLICABLE := "not_applicable"

  function Defaults(k: Key): map<Field, string> {
    if k.RecordKey? then map[EvidenceEligibility := NOT_APPLICABLE] else map[RecordPosition := "none"]
  }

  predicate Has(e: Event, k: Key) {
    KeyOf(e.subject) == Some(k)
  }

  // ---------------------------------------------------------------- order

  /** The events in sequence order. */
  function Sorted(events: seq<Event>): (r: seq<Event>)
    ensures multiset(r) == multiset(events)
  {
    SortedBy(events, Earlier)
  }

  ghost predicate Ascending(s: seq<Event>) {
    AscendingBy(s, Earlier)
  }

  ghost predicate DistinctSequences(s: seq<Event>) {
    DistinctBy(s, SequenceOf)
  }

  predicate Earlier(d: Event, e: Event) {
    d.sequence < e.sequence
  }

  function SequenceOf(e: Event): int {
    e.sequence
  }

  // ---------------------------------------------------------------- the fold, on values

  function Applied(before: Option<Projection>, e: Event, k: Key): Projection {
    if before.None? then Projection(e.project, e.subject, Defaults(k) + e.changes, [e.id])
    else before.value.(values := before.value.values + e.changes, sources := before.value.sources + [e.id])
  }

  function Find(folded: map<Key, Projection>, k: Key): Option<Projection> {
    if k in folded then Some(folded[k]) else None
  }

  function Step(folded: map<Key, Projection>, e: Event): map<Key, Projection> {
    match KeyOf(e.subject)
    case None => folded
    case Some(k) => folded[k := Applied(Find(folded, k), e, k)]
  }

  /** Continues a fold over events that are already in order. */
  function FoldOver(folded: map<Key, Projection>, s: seq<Event>): map<Key, Projection> {
    if s == [] then folded else Step(FoldOver(folded, s[..|s| - 1]), s[|s| - 1])
  }

  // ---------------------------------------------------------------- what the messages claim

  ghost predicate SeenBefore(existing: set<Key>, s: seq<Event>, j: nat, k: Key)
    requires j <= |s|
  {
    k in existing || exists i :: 0 <= i < j && Has(s[i], k)
  }

  ghost predicate PriorIssueAt(existing: set<Key>, s: seq<Event>, j: nat, x: Issue)
    requires j < |s|
  {
    x.PriorMissing? && x.id == s[j].id && Has(s[j], x.key) && !s[j].hasPrior && SeenBefore(existing, s, j, x.key)
  }

  ghost predicate PriorIssue(existing: set<Key>, s: seq<Event>, n: nat, x: Issue)
    requires n <= |s|
  {
    exists j :: 0 <= j < n && PriorIssueAt(existing, s, j, x)
  }

  /** The event is not the first of its key and differs from the first in project or subject. */
  ghost predicate ChangeIssueAt(s: seq<Event>, j: nat, x: Issue)
    requires j < |s|
  {
    match x
    case ProjectChanges(k) => Has(s[j], k) && exists i :: FirstOf(s, i, k) && i < j && s[i].project != s[j].project
    case SubjectChanges(k) => Has(s[j], k) && exists i :: FirstOf(s, i, k) && i < j && s[i].subject != s[j].subject
    case _ => false
  }

  ghost predicate FirstOf(s: seq<Event>, i: int, k: Key) {
    0 <= i < |s| && Has(s[i], k) && forall h | 0 <= h < i :: !Has(s[h], k)
  }

  ghost predicate ChangeIssue(s: seq<Event>, n: nat, x: Issue)
    requires n <= |s|
  {
    exists j :: 0 <= j < n && ChangeIssueAt(s, j, x)
  }

  ghost predicate MissingIssue(folded: map<Key, Projection>, x: Issue) {
    x.FieldsMissing? && x.key in folded && !(STATE_FIELDS <= folded[x.key].values.Keys)
  }

  // ---------------------------------------------------------------- the two checks

  /** `validate_subject_prior_state_bindings`: a revisited subject without a prior state is
      reported, and nothing else. */
  method ValidateSubjectPriorStateBindings(events: seq<Event>, existing: seq<Subject>) returns (errors: seq<Issue>)
    ensures forall x :: x in errors <==> PriorIssue(KeysOf(existing), Sorted(events), |Sorted(events)|, x)
  {
    errors := [];
    var s := Sorted(events);
    var seen := KeysOf(existing);
    var j := 0;
    while j < |s|
      invariant 0 <= j <= |s|
      invariant forall k :: k in seen <==> SeenBefore(KeysOf(existing), s, j, k)
      invariant forall x :: x in errors <==> PriorIssue(KeysOf(existing), s, j, x)
    {
      var key := KeyOf(s[j].subject);
      ghost var before := errors;
      if key.Some? {
        if key.value in seen && !s[j].hasPrior { errors := errors + [PriorMissing(s[j].id, key.value)]; }
        seen := seen + {key.value};
      }
      forall x ensures x in errors <==> PriorIssue(KeysOf(existing), s, j + 1, x) {
        assert PriorIssue(KeysOf(existing), s, j + 1, x) <==>
          PriorIssue(KeysOf(existing), s, j, x) || PriorIssueAt(KeysOf(existing), s, j, x);
      }
      j := j + 1;
    }
  }

  function KeysOf(subjects: seq<Subject>): (r: set<Key>)
    ensures forall k :: k in r <==> exists i :: 0 <= i < |subjects| && KeyOf(subjects[i]) == Some(k)
  {
    set i | 0 <= i < |subjects| && KeyOf(subjects[i]).Some? :: KeyOf(subjects[i]).value
  }

  /** One pass of the replay loop on the messages. */
  method CheckAgainst(folded: map<Key, Projection>, s: seq<Event>, j: nat) returns (errors: seq<Issue>)
    requires j < |s| && folded == FoldOver(map[], s[..j])
    ensures forall x :: x in errors <==> ChangeIssueAt(s, j, x)
  {
    errors := [];
    var e := s[j];
    var key := KeyOf(e.subject);
    if key.None? {
      NoKeyChangesNothing(s, j);
      return;
    }
    var k := key.value;
    FirstProjection(s, j, k);
    if k !in folded {
      NewKeyChangesNothing(s, j, k);
      return;
    }
    ChangesFrom(s, j, k, folded[k]);
    if folded[k].project != e.project { errors := errors + [ProjectChanges(k)]; }
    if folded[k].subject != e.subject { errors := errors + [SubjectChanges(k)]; }
  }

  lemma ChangesFrom(s: seq<Event>, j: nat, k: Key, projection: Projection)
    requires j < |s| && Has(s[j], k)
    requires exists i :: FirstOf(s, i, k) && i < j && projection.project == s[i].project && projection.subject == s[i].subject
    ensures forall x :: ChangeIssueAt(s, j, x) <==>
      (x == ProjectChanges(k) && projection.project != s[j].project)
      || (x == SubjectChanges(k) && projection.subject != s[j].subject)
  {
  }

  /** The replay loop over events in order. */
  method Replay(s: seq<Event>) returns (folded: map<Key, Projection>, changes: seq<Issue>)
    ensures folded == FoldOver(map[], s)
    ensures forall x :: x in changes <==> ChangeIssue(s, |s|, x)
  {
    changes := [];
    folded := map[];
    var j := 0;
    while j < |s|
      invariant 0 <= j <= |s| && folded == FoldOver(map[], s[..j])
      invariant forall x :: x in changes <==> ChangeIssue(s, j, x)
    {
      var more := CheckAgainst(folded, s, j);
      FoldNext(s, j);
      changes := changes + more;
      forall x ensures x in changes <==> ChangeIssue(s, j + 1, x) {
        assert ChangeIssue(s, j + 1, x) <==> ChangeIssue(s, j, x) || ChangeIssueAt(s, j, x);
      }
      folded := Step(folded, s[j]);
      j := j + 1;
    }
    assert s[..j] == s;
  }

  lemma FoldNext(s: seq<Event>, j: nat)
    requires j < |s|
    ensures FoldOver(map[], s[..j + 1]) == Step(FoldOver(map[], s[..j]), s[j])
  {
    assert s[..j + 1][..j] == s[..j];
  }

  /** `fold_authority_events`: the fold of the events in sequence order, and a message exactly for
      every event without a needed prior state, for every change of project or subject, and for
      every key that ends without all fields. */
  method FoldAuthorityEvents(events: seq<Event>) returns (folded: map<Key, Projection>, errors: seq<Issue>)
    ensures folded == FoldOver(map[], Sorted(events))
    ensures forall x :: x in errors <==>
      PriorIssue({}, Sorted(events), |Sorted(events)|, x) || ChangeIssue(Sorted(events), |Sorted(events)|, x) || MissingIssue(folded, x)
  {
    var prior := ValidateSubjectPriorStateBindings(events, []);
    assert KeysOf([]) == {};
    var changes: seq<Issue>;
    folded, changes := Replay(Sorted(events));
    var missing := CheckComplete(folded);
    errors := prior + changes + missing;
  }

  method CheckComplete(folded: map<Key, Projection>) returns (errors: seq<Issue>)
    ensures forall x :: x in errors <==> MissingIssue(folded, x)
  {
    errors := [];
    var keys := folded.Keys;
    while keys != {}
      invariant keys <= folded.Keys
      invariant forall x :: x in errors <==> MissingIssue(folded, x) && x.key !in keys
      decreases |keys|
    {
      var k :| k in keys;
      keys := keys - {k};
      if !(STATE_FIELDS <= folded[k].values.Keys) { errors := errors + [FieldsMissing(k)]; }
    }
  }

  lemma NewKeyChangesNothing(s: seq<Event>, j: nat, k: Key)
    requires j < |s| && Has(s[j], k) && forall i | 0 <= i < j :: !Has(s[i], k)
    ensures forall x :: !ChangeIssueAt(s, j, x)
  {
  }

  lemma NoKeyChangesNothing(s: seq<Event>, j: nat)
    requires j < |s| && KeyOf(s[j].subject).None?
    ensures forall x :: !ChangeIssueAt(s, j, x)
  {
  }

  /** A projection is there exactly when an event of its key came, and carries the project and
      the subject of the first one. */
  lemma {:induction false} FirstProjection(s: seq<Event>, j: nat, k: Key)
    requires j <= |s|
    ensures var f := FoldOver(map[], s[..j]);
      (k in f <==> exists i :: 0 <= i < j && Has(s[i], k))
      && (k in f ==> exists i :: FirstOf(s, i, k) && i < j && f[k].project == s[i].project && f[k].subject == s[i].subject)
  {
    if j > 0 {
      FirstProjection(s, j - 1, k);
      assert s[..j][..j - 1] == s[..j - 1];
      var f := FoldOver(map[], s[..j - 1]);
      if Has(s[j - 1], k) && k !in f { assert FirstOf(s, j - 1, k); }
    } else {
      assert s[..0] == [];
    }
  }

  // ---------------------------------------------------------------- what the fold means

  ghost predicate Sets(e: Event, k: Key, f: Field) {
    Has(e, k) && f in e.changes
  }

  /** The value that the last of the first `n` events to set a field gives it. */
  function LastValue(s: seq<Event>, n: nat, k: Key, f: Field): Option<string>
    requires n <= |s|
  {
    if n == 0 then None
    else if Has(s[n - 1], k) && f in s[n - 1].changes then Some(s[n - 1].changes[f])
    else LastValue(s, n - 1, k, f)
  }

  /** The ids of the events of a key among the first `n`, in order. */
  function SourcesOf(s: seq<Event>, n: nat, k: Key): seq<string>
    requires n <= |s|
  {
    if n == 0 then [] else SourcesOf(s, n - 1, k) + (if Has(s[n - 1], k) then [s[n - 1].id] else [])
  }

  function ValueAt(values: map<Field, string>, f: Field): Option<string> {
    if f in values then Some(values[f]) else None
  }

  lemma {:induction false} FoldSources(s: seq<Event>, n: nat, k: Key)
    requires n <= |s|
    ensures var folded := FoldOver(map[], s[..n]);
      SourcesOf(s, n, k) == if k in folded then folded[k].sources else []
  {
    if n > 0 {
      FoldSources(s, n - 1, k);
      FoldNext(s, n - 1);
    }
  }

  lemma {:induction false} FoldValues(s: seq<Event>, n: nat, k: Key, f: Field)
    requires n <= |s|
    ensures var folded := FoldOver(map[], s[..n]);
      if k !in folded then LastValue(s, n, k, f) == None
      else ValueAt(folded[k].values, f) == if LastValue(s, n, k, f).Some? then LastValue(s, n, k, f) else ValueAt(Defaults(k), f)
  {
    if n > 0 {
      FoldValues(s, n - 1, k, f);
      FoldNext(s, n - 1);
    }
  }

  /** No other event that sets the field has as high a sequence. */
  ghost predicate Highest(events: seq<Event>, top: Event, k: Key, f: Field) {
    top in events && Sets(top, k, f) && forall e | e in events && e != top && Sets(e, k, f) :: e.sequence < top.sequence
  }

  /** The replay fold means: a key is there exactly when one of its events came; each field holds
      the value of the event with the highest sequence that sets it; a field that no event sets is not
      there, but for the evidence eligibility of a record, which reads as not applicable, and the
      record position of an evidence item, which reads as none; and the sources are the ids of the
      key's events in sequence order. */
  lemma FoldMeaning(events: seq<Event>, k: Key, f: Field, top: Event)
    ensures var folded := FoldOver(map[], Sorted(events));
      (k in folded <==> exists e :: e in events && Has(e, k))
      && (k in folded ==> folded[k].sources == SourcesOf(Sorted(events), |Sorted(events)|, k))
      && (Highest(events, top, k, f) ==> k in folded && ValueAt(folded[k].values, f) == Some(top.changes[f]))
      && (k in folded && (forall e | e in events :: !Sets(e, k, f)) ==>
            ValueAt(folded[k].values, f) ==
              if k.RecordKey? && f == EvidenceEligibility then Some("not_applicable")
              else if k.EvidenceKey? && f == RecordPosition then Some("none") else None)
  {
    var s := Sorted(events);
    assert s[..|s|] == s;
    SortedMembers(events, Earlier);
    FirstProjection(s, |s|, k);
    FoldSources(s, |s|, k);
    if Highest(events, top, k, f) { HighestDecides(events, k, f, top); }
    if k in FoldOver(map[], s) && forall e | e in events :: !Sets(e, k, f) { UnsetIsDefault(events, k, f); }
    hide *;
  }

  lemma HighestDecides(events: seq<Event>, k: Key, f: Field, top: Event)
    requires Highest(events, top, k, f)
    ensures var folded := FoldOver(map[], Sorted(events));
      k in folded && ValueAt(folded[k].values, f) == Some(top.changes[f])
  {
    var s := Sorted(events);
    assert s[..|s|] == s;
    SortedMembers(events, Earlier);
    SortedAscending(events, Earlier, events);
    FoldValues(s, |s|, k, f);
    TopIsLast(s, |s|, k, f, top);
  }

  lemma UnsetIsDefault(events: seq<Event>, k: Key, f: Field)
    requires k in FoldOver(map[], Sorted(events)) && forall e | e in events :: !Sets(e, k, f)
    ensures ValueAt(FoldOver(map[], Sorted(events))[k].values, f) ==
      if k.RecordKey? && f == EvidenceEligibility then Some("not_applicable")
      else if k.EvidenceKey? && f == RecordPosition then Some("none") else None
  {
    var s := Sorted(events);
    assert s[..|s|] == s;
    SortedMembers(events, Earlier);
    FoldValues(s, |s|, k, f);
    NoSetter(s, |s|, k, f);
    DefaultsMeaning(k, f);
  }

  lemma DefaultsMeaning(k: Key, f: Field)
    ensures ValueAt(Defaults(k), f) ==
      if k.RecordKey? && f == EvidenceEligibility then Some("not_applicable")
      else if k.EvidenceKey? && f == RecordPosition then Some("none") else None
  {
  }

  lemma {:induction false} TopIsLast(s: seq<Event>, n: nat, k: Key, f: Field, top: Event)
    requires n <= |s| && Ascending(s) && Highest(s, top, k, f) && top in s[..n]
    ensures LastValue(s, n, k, f) == Some(top.changes[f])
  {
    if s[n - 1] != top {
      var i :| 0 <= i < n && s[i] == top;
      assert s[i].sequence <= s[n - 1].sequence && s[n - 1] in s;
      assert s[..n - 1][i] == top;
      TopIsLast(s, n - 1, k, f, top);
    }
  }

  lemma {:induction false} NoSetter(s: seq<Event>, n: nat, k: Key, f: Field)
    requires n <= |s| && forall e | e in s :: !Sets(e, k, f)
    ensures LastValue(s, n, k, f) == None
  {
    if n > 0 {
      assert s[n - 1] in s;
      NoSetter(s, n - 1, k, f);
    }
  }

  // ---------------------------------------------------------------- order and continuation

  lemma SameFirst(a: seq<Event>, b: seq<Event>)
    requires Ascending(a) && Ascending(b) && DistinctSequences(a) && multiset(a) == multiset(b) && a != [] && b != []
    ensures a[0] == b[0]
  {
    assert a[0] in multiset(b) && b[0] in multiset(a);
    var i :| 0 <= i < |b| && b[i] == a[0];
    var j :| 0 <= j < |a| && a[j] == b[0];
    assert b[0].sequence <= b[i].sequence && a[0].sequence <= a[j].sequence;
  }

  lemma TailFits(a: seq<Event>)
    requires a != []
    ensures Ascending(a) ==> Ascending(a[1..])
    ensures DistinctSequences(a) ==> DistinctSequences(a[1..])
  {
  }

  lemma SplitFirst(a: seq<Event>)
    requires a != []
    ensures a == [a[0]] + a[1..] && multiset(a[1..]) == multiset(a) - multiset{a[0]}
  {
    assert a == [a[0]] + a[1..];
  }

  lemma {:induction false} SameSorted(a: seq<Event>, b: seq<Event>)
    requires Ascending(a) && Ascending(b) && DistinctSequences(a) && multiset(a) == multiset(b)
    ensures a == b
    decreases |a|
  {
    assert |multiset(a)| == |a| && |multiset(b)| == |b|;
    if a != [] {
      SameFirst(a, b);
      TailFits(a);
      TailFits(b);
      SplitFirst(a);
      SplitFirst(b);
      SameSorted(a[1..], b[1..]);
    }
  }

  /** For distinct sequences the order in which events arrive does not matter. */
  lemma OrderDoesNotMatter(a: seq<Event>, b: seq<Event>)
    requires DistinctSequences(a) && multiset(a) == multiset(b)
    ensures Sorted(a) == Sorted(b) && FoldOver(map[], Sorted(a)) == FoldOver(map[], Sorted(b))
  {
    SortedAscending(a, Earlier, a);
    SortedAscending(b, Earlier, b);
    DistinctIsOrderFree(a, Sorted(a), SequenceOf);
    SameSorted(Sorted(a), Sorted(b));
  }

  lemma {:induction false} FoldContinues(folded: map<Key, Projection>, a: seq<Event>, b: seq<Event>)
    ensures FoldOver(FoldOver(folded, a), b) == FoldOver(folded, a + b)
    decreases |b|
  {
    if b == [] {
      assert a + b == a;
    } else {
      var n := |b| - 1;
      FoldContinues(folded, a, b[..n]);
      assert (a + b)[..|a + b| - 1] == a + b[..n];
    }
  }

  ghost predicate Before(a: seq<Event>, b: seq<Event>) {
    forall i, j | 0 <= i < |a| && 0 <= j < |b| :: a[i].sequence < b[j].sequence
  }

  lemma JoinedIsSorted(a: seq<Event>, b: seq<Event>)
    requires DistinctSequences(a + b) && Before(a, b)
    ensures Sorted(a) + Sorted(b) == Sorted(a + b)
  {
    SortedAscending(a + b, Earlier, a + b);
    JoinedAscending(a, b);
    assert multiset(Sorted(a) + Sorted(b)) == multiset(a + b);
    DistinctIsOrderFree(a + b, Sorted(a) + Sorted(b), SequenceOf);
    SameSorted(Sorted(a) + Sorted(b), Sorted(a + b));
  }

  lemma JoinedAscending(a: seq<Event>, b: seq<Event>)
    requires Before(a, b)
    ensures Ascending(Sorted(a) + Sorted(b))
  {
    SortedAscending(a, Earlier, a);
    SortedAscending(b, Earlier, b);
    SortedMembers(a, Earlier);
    SortedMembers(b, Earlier);
    var s, t := Sorted(a), Sorted(b);
    forall i, j | 0 <= i < |s| && 0 <= j < |t| ensures s[i].sequence < t[j].sequence {
      assert s[i] in a && t[j] in b;
    }
  }

  /** Folding an earlier batch and continuing with a later one is folding both at once. */
  lemma PrefixThenContinue(a: seq<Event>, b: seq<Event>)
    requires DistinctSequences(a + b) && Before(a, b)
    ensures FoldOver(FoldOver(map[], Sorted(a)), Sorted(b)) == FoldOver(map[], Sorted(a + b))
  {
    JoinedIsSorted(a, b);
    FoldContinues(map[], Sorted(a), Sorted(b));
  }

  /** And the later batch is checked for missing prior states exactly as if the subjects of the
      earlier one were given as existing. */
  lemma PriorsContinue(a: seq<Event>, b: seq<Event>, x: Issue)
    ensures PriorIssue({}, a + b, |a + b|, x) <==>
      PriorIssue({}, a, |a|, x) || PriorIssue(KeysOf(SubjectsOf(a)), b, |b|, x)
  {
    var all := a + b;
    forall j | 0 <= j < |a| ensures PriorIssueAt({}, all, j, x) <==> PriorIssueAt({}, a, j, x) {
      assert all[..j] == a[..j];
    }
    forall j | 0 <= j < |b|
      ensures PriorIssueAt({}, all, |a| + j, x) <==> PriorIssueAt(KeysOf(SubjectsOf(a)), b, j, x)
    {
      if x.PriorMissing? { SeenAcross(a, b, j, x.key); }
    }
    if PriorIssue({}, all, |all|, x) {
      var j :| 0 <= j < |all| && PriorIssueAt({}, all, j, x);
      if j >= |a| { assert PriorIssueAt(KeysOf(SubjectsOf(a)), b, j - |a|, x); }
    }
    if PriorIssue(KeysOf(SubjectsOf(a)), b, |b|, x) {
      var j :| 0 <= j < |b| && PriorIssueAt(KeysOf(SubjectsOf(a)), b, j, x);
      assert PriorIssueAt({}, all, |a| + j, x);
    }
  }

  function SubjectsOf(s: seq<Event>): (r: seq<Subject>)
    ensures |r| == |s| && forall i | 0 <= i < |r| :: r[i] == s[i].subject
  {
    seq(|s|, i requires 0 <= i < |s| => s[i].subject)
  }

  lemma SeenAcross(a: seq<Event>, b: seq<Event>, j: nat, k: Key)
    requires j < |b|
    ensures SeenBefore({}, a + b, |a| + j, k) <==> SeenBefore(KeysOf(SubjectsOf(a)), b, j, k)
  {
    var all := a + b;
    if SeenBefore({}, all, |a| + j, k) {
      var i :| 0 <= i < |a| + j && Has(all[i], k);
      if i < |a| { assert KeyOf(SubjectsOf(a)[i]) == Some(k); } else { assert Has(b[i - |a|], k); }
    }
    if i :| 0 <= i < |a| && KeyOf(SubjectsOf(a)[i]) == Some(k) { assert Has(all[i], k); }
    if i :| 0 <= i < j && Has(b[i], k) { assert Has(all[|a| + i], k); }
  }
}
