/** The read and write part of the phase-contract check
    (architecture/tools/validate_package.py, `validate_contracts`), and what it guarantees for
    every schedule of the roles of a phase. */
module PhaseContract {
  import opened Wrappers
  import opened Sequences

  datatype RoleRead = RoleRead(role: string, inputs: set<string>)

  datatype Stage = Stage(id: string, modes: set<string>, sequence: int, roles: set<string>, shared: set<string>,
                         roleReads: seq<RoleRead>, writes: set<string>)

  datatype Context = Context(id: string, modes: set<string>)

  datatype Contract = Contract(modes: set<string>, inputs: set<string>, contexts: seq<Context>, stages: seq<Stage>)

  datatype Diagnostic =
    | SequenceGap(mode: string)
    | MixedReads(stage: string) | RepeatedRole(stage: string) | RolesDiffer(stage: string)
    | Unavailable(stage: string, role: string, ids: set<string>)

  // ---------------------------------------------------------------- the stages of a mode

  function InMode(stages: seq<Stage>, mode: string): (r: seq<Stage>)
    ensures forall s | s in r :: s in stages && mode in s.modes
  {
    if stages == [] then []
    else (if mode in stages[0].modes then [stages[0]] else []) + InMode(stages[1..], mode)
  }

  predicate Earlier(s: Stage, t: Stage) {
    s.sequence < t.sequence
  }

  /** The stages of a mode by sequence. */
  function Selected(c: Contract, mode: string): seq<Stage> {
    SortedBy(InMode(c.stages, mode), Earlier)
  }

  /** Numbered one, two, three and so on. */
  predicate Contiguous(stages: seq<Stage>) {
    forall k | 0 <= k < |stages| :: stages[k].sequence == k + 1
  }

  function ContextIds(contexts: seq<Context>, mode: string): set<string> {
    set i | 0 <= i < |contexts| && mode in contexts[i].modes :: contexts[i].id
  }

  function Written(stages: seq<Stage>, k: nat): set<string>
    requires k <= |stages|
  {
    if k == 0 then {} else Written(stages, k - 1) + stages[k - 1].writes
  }

  /** What is there before stage `k` of a mode starts. */
  function Available(c: Contract, mode: string, k: nat): set<string>
    requires k <= |Selected(c, mode)|
  {
    c.inputs + ContextIds(c.contexts, mode) + Written(Selected(c, mode), k)
  }

  function RoleOf(r: RoleRead): string {
    r.role
  }

  /** The dictionary of role-specific reads; a repeated role keeps its last entry. */
  function RoleTable(entries: seq<RoleRead>): map<string, set<string>> {
    if entries == [] then map[]
    else
      var last := |entries| - 1;
      RoleTable(entries[..last])[entries[last].role := entries[last].inputs]
  }

  function DeclaredRoles(s: Stage): (r: set<string>)
    ensures forall x :: x in r <==> exists i :: 0 <= i < |s.roleReads| && s.roleReads[i].role == x
  {
    set i | 0 <= i < |s.roleReads| :: s.roleReads[i].role
  }

  /** What the checker takes each role of a stage to read. */
  function ReadsByRole(s: Stage): map<string, set<string>> {
    if s.roleReads != [] then RoleTable(s.roleReads) else map r | r in s.roles :: s.shared
  }

  // ---------------------------------------------------------------- what the messages claim

  ghost predicate StageIssue(s: Stage, available: set<string>, d: Diagnostic) {
    match d
    case MixedReads(id) => id == s.id && s.roleReads != [] && s.shared != {}
    case RepeatedRole(id) => id == s.id && !DistinctBy(s.roleReads, RoleOf)
    case RolesDiffer(id) => id == s.id && s.roleReads != [] && DeclaredRoles(s) != s.roles
    case Unavailable(id, role, ids) => id == s.id && role in ReadsByRole(s) && ids == ReadsByRole(s)[role] - available && ids != {}
    case SequenceGap(_) => false
  }

  ghost predicate ModeIssue(c: Contract, mode: string, n: nat, d: Diagnostic)
    requires n <= |Selected(c, mode)|
  {
    exists k :: 0 <= k < n && StageIssue(Selected(c, mode)[k], Available(c, mode, k), d)
  }

  ghost predicate Issue(c: Contract, d: Diagnostic) {
    || (d.SequenceGap? && d.mode in c.modes && !Contiguous(Selected(c, d.mode)))
    || exists m :: m in c.modes && ModeIssue(c, m, |Selected(c, m)|, d)
  }

  // ---------------------------------------------------------------- the check

  method CheckRoles(s: Stage, available: set<string>) returns (ds: seq<Diagnostic>)
    ensures forall d :: d in ds <==> d.Unavailable? && StageIssue(s, available, d)
  {
    ds := [];
    var table := ReadsByRole(s);
    var roles := table.Keys;
    while roles != {}
      invariant roles <= table.Keys
      invariant forall d :: d in ds <==> d.Unavailable? && d.role !in roles && StageIssue(s, available, d)
      decreases |roles|
    {
      var r :| r in roles;
      roles := roles - {r};
      var unknown := table[r] - available;
      if unknown != {} { ds := ds + [Unavailable(s.id, r, unknown)]; }
    }
  }

  method CheckStage(s: Stage, available: set<string>) returns (ds: seq<Diagnostic>)
    ensures forall d :: d in ds <==> StageIssue(s, available, d)
  {
    var shape: seq<Diagnostic> := [];
    if s.roleReads != [] {
      if s.shared != {} { shape := shape + [MixedReads(s.id)]; }
      var repeated := HasRepeatedRole(s.roleReads);
      if repeated { shape := shape + [RepeatedRole(s.id)]; }
      if DeclaredRoles(s) != s.roles { shape := shape + [RolesDiffer(s.id)]; }
    }
    var unavailable := CheckRoles(s, available);
    ds := shape + unavailable;
  }

  method HasRepeatedRole(entries: seq<RoleRead>) returns (repeated: bool)
    ensures repeated <==> !DistinctBy(entries, RoleOf)
  {
    repeated := exists i, j :: 0 <= i < j < |entries| && RoleOf(entries[i]) == RoleOf(entries[j]);
  }

  /** The availability loop of one mode. */
  method CheckMode(c: Contract, mode: string) returns (ds: seq<Diagnostic>)
    ensures forall d :: d in ds <==> ModeIssue(c, mode, |Selected(c, mode)|, d)
  {
    ds := [];
    var stages := Selected(c, mode);
    var available := c.inputs + ContextIds(c.contexts, mode);
    var k := 0;
    while k < |stages|
      invariant 0 <= k <= |stages| && available == Available(c, mode, k)
      invariant forall d :: d in ds <==> ModeIssue(c, mode, k, d)
    {
      var more := CheckStage(stages[k], available);
      available := available + stages[k].writes;
      ds := ds + more;
      forall d ensures d in ds <==> ModeIssue(c, mode, k + 1, d) {
        assert ModeIssue(c, mode, k + 1, d) <==> ModeIssue(c, mode, k, d) || StageIssue(stages[k], Available(c, mode, k), d);
      }
      k := k + 1;
    }
  }

  /** The stage-sequence and read checks of `validate_contracts` for one contract. */
  method CheckContract(c: Contract) returns (ds: seq<Diagnostic>)
    ensures forall d :: d in ds <==> Issue(c, d)
    ensures ds == [] <==> forall d :: !Issue(c, d)
  {
    ds := [];
    var modes := c.modes;
    while modes != {}
      invariant modes <= c.modes
      invariant forall d :: d in ds <==>
        || (d.SequenceGap? && d.mode in c.modes - modes && !Contiguous(Selected(c, d.mode)))
        || exists m :: m in c.modes - modes && ModeIssue(c, m, |Selected(c, m)|, d)
      decreases |modes|
    {
      var m :| m in modes;
      var gap := if Contiguous(Selected(c, m)) then [] else [SequenceGap(m)];
      var more := CheckMode(c, m);
      NoGapInModes(c, m);
      modes := modes - {m};
      ds := ds + (gap + more);
    }
    if ds != [] { assert ds[0] in ds; }
  }

  lemma NoGapInModes(c: Contract, m: string)
    ensures forall mode :: !ModeIssue(c, m, |Selected(c, m)|, SequenceGap(mode))
  {
  }

  // ---------------------------------------------------------------- the stages of the contract itself

  lemma {:induction false} InModeCounts(stages: seq<Stage>, mode: string, x: Stage)
    ensures multiset(InMode(stages, mode))[x] == if mode in x.modes then multiset(stages)[x] else 0
  {
    if stages != [] {
      InModeCounts(stages[1..], mode, x);
      assert stages == [stages[0]] + stages[1..];
    }
  }

  /** The stages that are checked in a mode are exactly those of the contract that apply in it, each as
      often as it is there, in ascending sequence. */
  lemma StagesOfMode(c: Contract, mode: string)
    ensures forall x: Stage :: multiset(Selected(c, mode))[x] == if mode in x.modes then multiset(c.stages)[x] else 0
    ensures forall s :: s in Selected(c, mode) <==> s in c.stages && mode in s.modes
    ensures forall i, j | 0 <= i < j < |Selected(c, mode)| :: Selected(c, mode)[i].sequence <= Selected(c, mode)[j].sequence
  {
    var r := Selected(c, mode);
    forall x: Stage ensures multiset(r)[x] == if mode in x.modes then multiset(c.stages)[x] else 0 {
      InModeCounts(c.stages, mode, x);
    }
    forall s ensures s in r <==> s in c.stages && mode in s.modes {
      assert s in r <==> s in multiset(r);
      assert s in c.stages <==> s in multiset(c.stages);
    }
    SortedAscending(InMode(c.stages, mode), Earlier, InMode(c.stages, mode));
    forall i, j | 0 <= i < j < |r| ensures r[i].sequence <= r[j].sequence { assert !Earlier(r[j], r[i]); }
  }

  function SequenceOf(s: Stage): int {
    s.sequence
  }

  /** No two entries of the contract that apply in the mode have the same sequence. */
  ghost predicate SequencesDiffer(stages: seq<Stage>, mode: string) {
    forall i, j | 0 <= i < j < |stages| && mode in stages[i].modes && mode in stages[j].modes ::
      stages[i].sequence != stages[j].sequence
  }

  /** The stages of the mode are numbered from one on without a gap and without a repetition. */
  ghost predicate Numbered(c: Contract, mode: string) {
    && SequencesDiffer(c.stages, mode)
    && (forall s | s in c.stages && mode in s.modes :: 1 <= s.sequence)
    && forall s, v | s in c.stages && mode in s.modes && 1 <= v < s.sequence :: HasSequence(c.stages, mode, v)
  }

  ghost predicate HasSequence(stages: seq<Stage>, mode: string, v: int) {
    exists t :: t in stages && mode in t.modes && t.sequence == v
  }

  lemma {:induction false} InModeDiffer(stages: seq<Stage>, mode: string)
    ensures SequencesDiffer(stages, mode) <==> DistinctBy(InMode(stages, mode), SequenceOf)
  {
    if stages != [] {
      var rest := stages[1..];
      var r := InMode(rest, mode);
      InModeDiffer(rest, mode);
      InModeMembers(rest, mode);
      FirstDiffers(stages, mode);
      if mode in stages[0].modes { DistinctFirst(stages[0], r); }
      assert InMode(stages, mode) == (if mode in stages[0].modes then [stages[0]] + r else r);
    }
  }

  lemma {:induction false} InModeMembers(stages: seq<Stage>, mode: string)
    ensures forall s :: s in InMode(stages, mode) <==> s in stages && mode in s.modes
  {
    if stages != [] {
      InModeMembers(stages[1..], mode);
      assert stages == [stages[0]] + stages[1..];
    }
  }

  ghost predicate FirstApart(stages: seq<Stage>, mode: string)
    requires stages != []
  {
    mode in stages[0].modes ==> forall s | s in stages[1..] && mode in s.modes :: s.sequence != stages[0].sequence
  }

  lemma FirstDiffers(stages: seq<Stage>, mode: string)
    requires stages != []
    ensures SequencesDiffer(stages, mode) <==> SequencesDiffer(stages[1..], mode) && FirstApart(stages, mode)
  {
    var rest := stages[1..];
    if SequencesDiffer(stages, mode) {
      forall i, j | 0 <= i < j < |rest| && mode in rest[i].modes && mode in rest[j].modes ensures rest[i].sequence != rest[j].sequence {
        assert stages[i + 1] == rest[i] && stages[j + 1] == rest[j];
      }
      forall s | mode in stages[0].modes && s in rest && mode in s.modes ensures s.sequence != stages[0].sequence {
        var j :| 0 <= j < |rest| && rest[j] == s;
        assert stages[j + 1] == s;
      }
    }
    if SequencesDiffer(rest, mode) && FirstApart(stages, mode) {
      forall i, j | 0 <= i < j < |stages| && mode in stages[i].modes && mode in stages[j].modes
        ensures stages[i].sequence != stages[j].sequence
      {
        assert stages[j] == rest[j - 1];
        if i > 0 { assert stages[i] == rest[i - 1]; }
      }
    }
  }

  lemma DistinctFirst(x: Stage, r: seq<Stage>)
    ensures DistinctBy([x] + r, SequenceOf) <==> DistinctBy(r, SequenceOf) && forall s | s in r :: s.sequence != x.sequence
  {
    var all := [x] + r;
    if DistinctBy(all, SequenceOf) {
      forall i, j | 0 <= i < j < |r| ensures SequenceOf(r[i]) != SequenceOf(r[j]) {
        assert all[i + 1] == r[i] && all[j + 1] == r[j];
      }
      forall s | s in r ensures s.sequence != x.sequence {
        var j :| 0 <= j < |r| && r[j] == s;
        assert SequenceOf(all[0]) != SequenceOf(all[j + 1]);
      }
    }
    if DistinctBy(r, SequenceOf) && forall s | s in r :: s.sequence != x.sequence {
      forall i, j | 0 <= i < j < |all| ensures SequenceOf(all[i]) != SequenceOf(all[j]) {
        assert all[j] == r[j - 1];
        if i > 0 { assert all[i] == r[i - 1]; }
      }
    }
  }

  /** The checker finds no gap exactly when the stages of the mode are numbered. */
  lemma NoGapIffNumbered(c: Contract, mode: string)
    ensures Contiguous(Selected(c, mode)) <==> Numbered(c, mode)
  {
    var r := Selected(c, mode);
    StagesOfMode(c, mode);
    SameDistinct(c, mode);
    hide Selected, SequencesDiffer;
    if Contiguous(r) {
      forall s, v | s in c.stages && mode in s.modes && 1 <= v < s.sequence ensures HasSequence(c.stages, mode, v) {
        var k :| 0 <= k < |r| && r[k] == s;
        assert r[v - 1].sequence == v && r[v - 1] in r;
      }
      forall s | s in c.stages && mode in s.modes ensures 1 <= s.sequence {
        var k :| 0 <= k < |r| && r[k] == s;
      }
      assert DistinctBy(r, SequenceOf);
    }
    if Numbered(c, mode) {
      forall k | 0 <= k < |r| ensures r[k].sequence == k + 1 { NumberedAt(c, mode, r, k); }
    }
  }

  lemma SameDistinct(c: Contract, mode: string)
    ensures DistinctBy(Selected(c, mode), SequenceOf) <==> SequencesDiffer(c.stages, mode)
  {
    var r, listed := Selected(c, mode), InMode(c.stages, mode);
    InModeDiffer(c.stages, mode);
    if DistinctBy(r, SequenceOf) { DistinctIsOrderFree(r, listed, SequenceOf); }
    if DistinctBy(listed, SequenceOf) { DistinctIsOrderFree(listed, r, SequenceOf); }
  }

  lemma PlaceOf(c: Contract, mode: string, r: seq<Stage>, v: int) returns (i: nat)
    requires HasSequence(c.stages, mode, v) && forall s :: s in r <==> s in c.stages && mode in s.modes
    ensures i < |r| && r[i].sequence == v
  {
    var t :| t in c.stages && mode in t.modes && t.sequence == v;
    i :| 0 <= i < |r| && r[i] == t;
  }

  lemma {:induction false} NumberedAt(c: Contract, mode: string, r: seq<Stage>, k: nat)
    requires Numbered(c, mode) && DistinctBy(r, SequenceOf) && k < |r|
    requires forall s :: s in r <==> s in c.stages && mode in s.modes
    requires forall i, j | 0 <= i < j < |r| :: r[i].sequence <= r[j].sequence
    ensures r[k].sequence == k + 1
  {
    hide SequencesDiffer;
    assert r[k] in r;
    if k > 0 {
      NumberedAt(c, mode, r, k - 1);
      assert SequenceOf(r[k - 1]) != SequenceOf(r[k]) && r[k - 1].sequence <= r[k].sequence;
    }
    if r[k].sequence > k + 1 { var i := PlaceOf(c, mode, r, k + 1); }
  }

  // ---------------------------------------------------------------- what a contract declares

  /** Everything a role may read by the contract, whichever way the stage declares it. */
  predicate MayRead(s: Stage, role: string, id: string) {
    role in s.roles && (id in s.shared || exists i :: 0 <= i < |s.roleReads| && s.roleReads[i].role == role && id in s.roleReads[i].inputs)
  }

  /** A formal input, or a context prepared in the mode. */
  predicate Given(c: Contract, mode: string, id: string) {
    id in c.inputs || exists i :: 0 <= i < |c.contexts| && mode in c.contexts[i].modes && c.contexts[i].id == id
  }

  /** It is given, or a stage of the mode with a strictly smaller sequence writes it. */
  ghost predicate DeclaredBefore(c: Contract, mode: string, s: Stage, id: string) {
    Given(c, mode, id) || exists t :: t in c.stages && mode in t.modes && t.sequence < s.sequence && id in t.writes
  }

  /** A stage shares its reads or lists them role by role: every role once, and no other. */
  ghost predicate WellShaped(s: Stage) {
    s.roleReads != [] ==>
      && s.shared == {}
      && (forall i, j | 0 <= i < j < |s.roleReads| :: s.roleReads[i].role != s.roleReads[j].role)
      && forall r :: r in s.roles <==> exists i :: 0 <= i < |s.roleReads| && s.roleReads[i].role == r
  }

  lemma {:induction false} WrittenBySome(stages: seq<Stage>, k: nat, id: string)
    requires k <= |stages|
    ensures id in Written(stages, k) <==> exists h :: 0 <= h < k && id in stages[h].writes
  {
    if k > 0 { WrittenBySome(stages, k - 1, id); }
  }

  lemma ContextGiven(c: Contract, mode: string, id: string)
    ensures Given(c, mode, id) <==> id in c.inputs + ContextIds(c.contexts, mode)
  {
  }

  /** In a numbered mode the ids the checker has before stage `k` are those declared before it. */
  lemma AvailableIsDeclared(c: Contract, mode: string, k: nat, id: string)
    requires Numbered(c, mode) && k < |Selected(c, mode)|
    ensures id in Available(c, mode, k) <==> DeclaredBefore(c, mode, Selected(c, mode)[k], id)
  {
    var r := Selected(c, mode);
    NoGapIffNumbered(c, mode);
    StagesOfMode(c, mode);
    WrittenBySome(r, k, id);
    ContextGiven(c, mode, id);
    assert id in Available(c, mode, k) <==> Given(c, mode, id) || id in Written(r, k);
    hide Selected, Numbered, Written, Given, ContextIds, Available, InMode;
    if h :| 0 <= h < k && id in r[h].writes {
      assert r[h] in r && r[h].sequence < r[k].sequence;
    }
    if t :| t in c.stages && mode in t.modes && t.sequence < r[k].sequence && id in t.writes {
      var h :| 0 <= h < |r| && r[h] == t;
      assert h < k;
    }
  }

  lemma {:induction false} TableHasEntry(entries: seq<RoleRead>, i: nat)
    requires i < |entries| && DistinctBy(entries, RoleOf)
    ensures entries[i].role in RoleTable(entries) && RoleTable(entries)[entries[i].role] == entries[i].inputs
  {
    var last := |entries| - 1;
    if i < last {
      var front := entries[..last];
      forall a, b | 0 <= a < b < last ensures RoleOf(front[a]) != RoleOf(front[b]) { assert RoleOf(entries[a]) != RoleOf(entries[b]); }
      TableHasEntry(front, i);
      assert RoleOf(entries[i]) != RoleOf(entries[last]);
    }
  }

  lemma {:induction false} TableEntryIsRead(entries: seq<RoleRead>, role: string)
    requires role in RoleTable(entries)
    ensures exists i :: 0 <= i < |entries| && entries[i].role == role && entries[i].inputs == RoleTable(entries)[role]
  {
    var last := |entries| - 1;
    if entries[last].role != role {
      TableEntryIsRead(entries[..last], role);
      var i :| 0 <= i < last && entries[..last][i].role == role && entries[..last][i].inputs == RoleTable(entries[..last])[role];
      assert entries[i] == entries[..last][i];
    }
  }

  /** What the checker takes the roles of a well-shaped stage to read is what they may read. */
  lemma ReadsAreMayRead(s: Stage, role: string, id: string)
    requires WellShaped(s)
    ensures MayRead(s, role, id) <==> role in ReadsByRole(s) && id in ReadsByRole(s)[role]
  {
    if s.roleReads != [] {
      assert DistinctBy(s.roleReads, RoleOf);
      if MayRead(s, role, id) {
        var i :| 0 <= i < |s.roleReads| && s.roleReads[i].role == role && id in s.roleReads[i].inputs;
        TableHasEntry(s.roleReads, i);
      }
      if role in ReadsByRole(s) { TableEntryIsRead(s.roleReads, role); }
    }
  }

  /** No message is about the shape of the stage exactly when it is well shaped. */
  lemma ShapeIff(s: Stage, available: set<string>)
    ensures (forall d: Diagnostic | !d.Unavailable? :: !StageIssue(s, available, d)) <==> WellShaped(s)
  {
    if forall d: Diagnostic | !d.Unavailable? :: !StageIssue(s, available, d) {
      assert !StageIssue(s, available, MixedReads(s.id)) && !StageIssue(s, available, RepeatedRole(s.id));
      assert !StageIssue(s, available, RolesDiffer(s.id));
      if s.roleReads != [] {
        forall i, j | 0 <= i < j < |s.roleReads| ensures s.roleReads[i].role != s.roleReads[j].role {
          assert RoleOf(s.roleReads[i]) != RoleOf(s.roleReads[j]);
        }
      }
    }
    if WellShaped(s) {
      assert DistinctBy(s.roleReads, RoleOf);
      assert s.roleReads != [] ==> DeclaredRoles(s) == s.roles;
    }
  }

  ghost predicate ReadsFit(c: Contract, mode: string, s: Stage) {
    forall role, id | MayRead(s, role, id) :: DeclaredBefore(c, mode, s, id)
  }

  lemma StageCleanIff(c: Contract, mode: string, k: nat)
    requires Numbered(c, mode) && k < |Selected(c, mode)|
    ensures var s := Selected(c, mode)[k];
      (forall d :: !StageIssue(s, Available(c, mode, k), d)) <==> WellShaped(s) && ReadsFit(c, mode, s)
  {
    var s, available := Selected(c, mode)[k], Available(c, mode, k);
    ShapeIff(s, available);
    if forall d :: !StageIssue(s, available, d) {
      forall role, id | MayRead(s, role, id) ensures DeclaredBefore(c, mode, s, id) {
        ReadsAreMayRead(s, role, id);
        AvailableIsDeclared(c, mode, k, id);
        assert !StageIssue(s, available, Unavailable(s.id, role, ReadsByRole(s)[role] - available));
        assert id !in ReadsByRole(s)[role] - available;
      }
    }
    if WellShaped(s) && ReadsFit(c, mode, s) {
      forall d ensures !StageIssue(s, available, d) {
        if d.Unavailable? && StageIssue(s, available, d) {
          var id :| id in d.ids;
          ReadsAreMayRead(s, d.role, id);
          AvailableIsDeclared(c, mode, k, id);
          assert false;
        }
      }
    }
  }

  /** The check accepts exactly the contracts in which, mode by mode, the stages that apply are numbered
      from one on, every one of them is well shaped, and whatever one of its roles may read is given or
      written by a stage of the mode before it. */
  lemma CleanIff(c: Contract)
    ensures (forall d :: !Issue(c, d)) <==>
      forall mode | mode in c.modes ::
        Numbered(c, mode) && forall s | s in c.stages && mode in s.modes :: WellShaped(s) && ReadsFit(c, mode, s)
  {
    if forall d :: !Issue(c, d) {
      forall mode | mode in c.modes
        ensures Numbered(c, mode) && forall s | s in c.stages && mode in s.modes :: WellShaped(s) && ReadsFit(c, mode, s)
      {
        assert !Issue(c, SequenceGap(mode));
        NoGapIffNumbered(c, mode);
        StagesOfMode(c, mode);
        forall s | s in c.stages && mode in s.modes ensures WellShaped(s) && ReadsFit(c, mode, s) {
          var k :| 0 <= k < |Selected(c, mode)| && Selected(c, mode)[k] == s;
          forall d ensures !StageIssue(s, Available(c, mode, k), d) {
            assert !Issue(c, d);
            assert !ModeIssue(c, mode, |Selected(c, mode)|, d);
          }
          StageCleanIff(c, mode, k);
        }
      }
    }
    if forall mode | mode in c.modes ::
         Numbered(c, mode) && forall s | s in c.stages && mode in s.modes :: WellShaped(s) && ReadsFit(c, mode, s) {
      forall d ensures !Issue(c, d) {
        if d.SequenceGap? { NoGapIffNumbered(c, d.mode); }
        forall m | m in c.modes ensures !ModeIssue(c, m, |Selected(c, m)|, d) {
          StagesOfMode(c, m);
          forall k | 0 <= k < |Selected(c, m)| ensures !StageIssue(Selected(c, m)[k], Available(c, m, k), d) {
            assert Selected(c, m)[k] in Selected(c, m);
            StageCleanIff(c, m, k);
          }
        }
      }
    }
  }

  // ---------------------------------------------------------------- schedules of the roles

  /** What happens while a mode runs: a role of a stage reads an id, or a stage gets one of its
      outputs. */
  datatype Action = Read(stage: Stage, role: string, id: string) | Wrote(stage: Stage, id: string)

  /** The stages of the mode run in ascending sequence and a stage is left with all its outputs
      written; inside a stage the roles interleave in any way. */
  ghost predicate Schedule(c: Contract, mode: string, actions: seq<Action>) {
    && (forall i, j | 0 <= i < j < |actions| :: actions[i].stage.sequence <= actions[j].stage.sequence)
    && forall j | 0 <= j < |actions| :: ActionFits(c, mode, actions, j)
  }

  ghost predicate ActionFits(c: Contract, mode: string, actions: seq<Action>, j: nat)
    requires j < |actions|
  {
    && actions[j].stage in c.stages && mode in actions[j].stage.modes
    && (if actions[j].Read? then MayRead(actions[j].stage, actions[j].role, actions[j].id) else actions[j].id in actions[j].stage.writes)
    && forall t, id | t in c.stages && mode in t.modes && t.sequence < actions[j].stage.sequence && id in t.writes ::
         WroteBefore(actions, j, t, id)
  }

  ghost predicate WroteBefore(actions: seq<Action>, j: nat, t: Stage, id: string)
    requires j <= |actions|
  {
    exists i :: 0 <= i < j && actions[i] == Wrote(t, id)
  }

  /** The read finds something: it is given, or a stage with a smaller sequence wrote it before. */
  ghost predicate Found(c: Contract, mode: string, actions: seq<Action>, j: nat)
    requires j < |actions|
  {
    Given(c, mode, actions[j].id)
    || exists i :: 0 <= i < j && actions[i].Wrote? && actions[i].id == actions[j].id
                   && actions[i].stage.sequence < actions[j].stage.sequence
  }

  /** When the checker reports nothing, then in every mode and for every interleaving of the roles of
      its stages, whatever a role reads is a formal input, a context prepared in the mode, or an
      output already written by a stage with a strictly smaller sequence. */
  lemma CleanContractsReadSafely(c: Contract, mode: string, actions: seq<Action>, j: nat)
    requires (forall d :: !Issue(c, d)) && mode in c.modes && Schedule(c, mode, actions)
    requires j < |actions| && actions[j].Read?
    ensures Found(c, mode, actions, j)
  {
    CleanIff(c);
    assert ActionFits(c, mode, actions, j);
    assert ReadsFit(c, mode, actions[j].stage);
    DeclaredIsFound(c, mode, actions, j);
  }

  lemma DeclaredIsFound(c: Contract, mode: string, actions: seq<Action>, j: nat)
    requires Schedule(c, mode, actions) && j < |actions| && DeclaredBefore(c, mode, actions[j].stage, actions[j].id)
    ensures Found(c, mode, actions, j)
  {
    assert ActionFits(c, mode, actions, j);
    if !Given(c, mode, actions[j].id) {
      var t :| t in c.stages && mode in t.modes && t.sequence < actions[j].stage.sequence && actions[j].id in t.writes;
      assert WroteBefore(actions, j, t, actions[j].id);
    }
  }

  /** And the check is not stricter than that: of any contract, a read is found in every schedule
      exactly when its id is declared before its stage. */
  lemma ReadIsSafeIff(c: Contract, mode: string, s: Stage, role: string, id: string)
    requires s in c.stages && mode in s.modes && MayRead(s, role, id)
    ensures DeclaredBefore(c, mode, s, id) <==>
      forall actions, j | Schedule(c, mode, actions) && 0 <= j < |actions| && actions[j] == Read(s, role, id) ::
        Found(c, mode, actions, j)
  {
    if DeclaredBefore(c, mode, s, id) {
      forall actions, j | Schedule(c, mode, actions) && 0 <= j < |actions| && actions[j] == Read(s, role, id)
        ensures Found(c, mode, actions, j)
      {
        DeclaredIsFound(c, mode, actions, j);
      }
    } else {
      ReportedReadsCanFail(c, mode, s, role, id);
    }
  }

  /** In this schedule a role reads an id that no stage has written yet. */
  ghost predicate EarlyRead(c: Contract, mode: string, actions: seq<Action>, j: nat, s: Stage, role: string, id: string) {
    && Schedule(c, mode, actions) && j < |actions| && actions[j] == Read(s, role, id)
    && forall i | 0 <= i < j :: !(actions[i].Wrote? && actions[i].id == id)
  }

  /** A read that is not declared before its stage is one that some schedule makes before its output
      exists - the schedule in which the roles of its stage read first. */
  lemma ReportedReadsCanFail(c: Contract, mode: string, s: Stage, role: string, id: string)
    requires s in c.stages && mode in s.modes && MayRead(s, role, id) && !DeclaredBefore(c, mode, s, id)
    ensures exists actions, j :: EarlyRead(c, mode, actions, j, s, role, id) && !Found(c, mode, actions, j)
  {
    var k, earlier := WritesFirst(c, mode, s, id);
    AppendStage(c, mode, earlier, [Read(s, role, id)], s);
    hide *;
    EarlyReadAtEnd(c, mode, earlier, s, role, id);
    assert EarlyRead(c, mode, earlier + [Read(s, role, id)], |earlier|, s, role, id);
  }

  /** All that the stages before `s` write, in a schedule that is ready for it. */
  lemma WritesFirst(c: Contract, mode: string, s: Stage, id: string) returns (k: nat, earlier: seq<Action>)
    requires s in c.stages && mode in s.modes && !DeclaredBefore(c, mode, s, id)
    ensures Schedule(c, mode, earlier) && ReadyFor(c, mode, earlier, s)
    ensures forall i | 0 <= i < |earlier| :: earlier[i].stage.sequence <= s.sequence
    ensures forall i | 0 <= i < |earlier| :: earlier[i].Wrote? && earlier[i].id != id
  {
    var r := Selected(c, mode);
    StagesOfMode(c, mode);
    k := Below(r, s.sequence);
    earlier := AllWrites(r, k);
    AllWritesFit(c, mode, k);
    AllWritesAre(r, k);
    WritesBelow(r, k, s.sequence);
    ReadyAfterWrites(c, mode, k, s);
    hide Selected, Schedule, ReadyFor, AllWrites, Given;
    forall i | 0 <= i < |earlier| ensures earlier[i].Wrote? && earlier[i].id != id {
      var h :| 0 <= h < k && r[..k][h] == earlier[i].stage;
      assert r[h] == earlier[i].stage && r[h] in r;
    }
  }

  lemma EarlyReadAtEnd(c: Contract, mode: string, earlier: seq<Action>, s: Stage, role: string, id: string)
    requires Schedule(c, mode, earlier + [Read(s, role, id)]) && !Given(c, mode, id)
    requires forall i | 0 <= i < |earlier| :: earlier[i].Wrote? && earlier[i].id != id
    ensures var actions := earlier + [Read(s, role, id)];
      EarlyRead(c, mode, actions, |earlier|, s, role, id) && !Found(c, mode, actions, |earlier|)
  {
    hide Schedule, Given;
    var actions := earlier + [Read(s, role, id)];
    assert forall i | 0 <= i < |earlier| :: actions[i] == earlier[i];
  }

  /** How many of the ascending stages come before the sequence. */
  lemma {:induction false} Below(r: seq<Stage>, sequence: int) returns (k: nat)
    requires forall i, j | 0 <= i < j < |r| :: r[i].sequence <= r[j].sequence
    ensures k <= |r| && forall i | 0 <= i < |r| :: i < k <==> r[i].sequence < sequence
    decreases |r|
  {
    if r == [] || r[|r| - 1].sequence < sequence {
      k := |r|;
    } else {
      k := Below(r[..|r| - 1], sequence);
    }
  }

  /** The outputs of one stage, in some order. */
  ghost function Writes(s: Stage, ids: set<string>): (r: seq<Action>)
    ensures forall a :: a in r <==> a.Wrote? && a.stage == s && a.id in ids
    decreases |ids|
  {
    if ids == {} then []
    else
      var id :| id in ids;
      Writes(s, ids - {id}) + [Wrote(s, id)]
  }

  ghost function AllWrites(stages: seq<Stage>, k: nat): seq<Action>
    requires k <= |stages|
  {
    if k == 0 then [] else AllWrites(stages, k - 1) + Writes(stages[k - 1], stages[k - 1].writes)
  }

  lemma {:induction false} AllWritesAre(stages: seq<Stage>, k: nat)
    requires k <= |stages|
    ensures forall i | 0 <= i < |AllWrites(stages, k)| ::
      var a := AllWrites(stages, k)[i]; a.Wrote? && a.stage in stages[..k] && a.id in a.stage.writes
    ensures forall h, id | 0 <= h < k && id in stages[h].writes :: WroteBefore(AllWrites(stages, k), |AllWrites(stages, k)|, stages[h], id)
  {
    if k > 0 {
      var n := k - 1;
      AllWritesAre(stages, n);
      var before, last := AllWrites(stages, n), Writes(stages[n], stages[n].writes);
      assert stages[..k] == stages[..n] + [stages[n]];
      forall i | 0 <= i < |last| ensures last[i].Wrote? && last[i].stage == stages[n] && last[i].id in stages[n].writes {
        assert last[i] in last;
      }
      forall h, id | 0 <= h < k && id in stages[h].writes ensures WroteBefore(before + last, |before + last|, stages[h], id) {
        if h < n {
          WroteStays(before, last, |before|, |before + last|, stages[h], id);
        } else {
          assert Wrote(stages[n], id) in last;
          var i :| 0 <= i < |last| && last[i] == Wrote(stages[n], id);
          assert (before + last)[|before| + i] == Wrote(stages[n], id);
        }
      }
    }
  }

  lemma WroteStays(a: seq<Action>, b: seq<Action>, i: nat, j: nat, t: Stage, id: string)
    requires i <= |a| && i <= j <= |a + b| && WroteBefore(a, i, t, id)
    ensures WroteBefore(a + b, j, t, id)
  {
    var p :| 0 <= p < i && a[p] == Wrote(t, id);
    assert (a + b)[p] == Wrote(t, id);
  }

  /** Everything that the stages before `s` write is written. */
  ghost predicate ReadyFor(c: Contract, mode: string, actions: seq<Action>, s: Stage) {
    forall t, id | t in c.stages && mode in t.modes && t.sequence < s.sequence && id in t.writes ::
      WroteBefore(actions, |actions|, t, id)
  }

  lemma ReadyAfterWrites(c: Contract, mode: string, k: nat, s: Stage)
    requires k <= |Selected(c, mode)|
    requires forall i | 0 <= i < |Selected(c, mode)| && Selected(c, mode)[i].sequence < s.sequence :: i < k
    ensures ReadyFor(c, mode, AllWrites(Selected(c, mode), k), s)
  {
    var r := Selected(c, mode);
    var actions := AllWrites(r, k);
    StagesOfMode(c, mode);
    AllWritesAre(r, k);
    hide Selected;
    forall t, id | t in c.stages && mode in t.modes && t.sequence < s.sequence && id in t.writes
      ensures WroteBefore(actions, |actions|, t, id)
    {
      var h :| 0 <= h < |r| && r[h] == t;
    }
  }

  lemma FitsEarlier(c: Contract, mode: string, a: seq<Action>, b: seq<Action>, j: nat)
    requires Schedule(c, mode, a) && j < |a|
    ensures ActionFits(c, mode, a + b, j)
  {
    var all := a + b;
    assert all[j] == a[j] && ActionFits(c, mode, a, j);
    forall t, id | t in c.stages && mode in t.modes && t.sequence < all[j].stage.sequence && id in t.writes
      ensures WroteBefore(all, j, t, id)
    {
      WroteStays(a, b, j, j, t, id);
    }
  }

  /** When a stage is ready its actions may follow in any order. */
  lemma AppendStage(c: Contract, mode: string, a: seq<Action>, b: seq<Action>, s: Stage)
    requires Schedule(c, mode, a) && ReadyFor(c, mode, a, s) && s in c.stages && mode in s.modes
    requires forall i | 0 <= i < |a| :: a[i].stage.sequence <= s.sequence
    requires forall i | 0 <= i < |b| :: b[i].stage == s && if b[i].Read? then MayRead(s, b[i].role, b[i].id) else b[i].id in s.writes
    ensures Schedule(c, mode, a + b)
  {
    var all := a + b;
    forall j | 0 <= j < |all| ensures ActionFits(c, mode, all, j) {
      if j < |a| {
        FitsEarlier(c, mode, a, b, j);
      } else {
        assert all[j] == b[j - |a|];
        forall t, id | t in c.stages && mode in t.modes && t.sequence < s.sequence && id in t.writes ensures WroteBefore(all, j, t, id) {
          WroteStays(a, b, |a|, j, t, id);
        }
      }
    }
  }

  lemma StageAt(c: Contract, mode: string, n: nat)
    requires n < |Selected(c, mode)|
    ensures var r := Selected(c, mode);
      && r[n] in c.stages && mode in r[n].modes
      && (forall h | 0 <= h < n :: r[h].sequence <= r[n].sequence)
      && forall i | 0 <= i < |r| && r[i].sequence < r[n].sequence :: i < n
  {
    StagesOfMode(c, mode);
    assert Selected(c, mode)[n] in Selected(c, mode);
  }

  /** Writing everything, stage after stage, is a schedule. */
  lemma {:induction false} AllWritesFit(c: Contract, mode: string, k: nat)
    requires k <= |Selected(c, mode)|
    ensures Schedule(c, mode, AllWrites(Selected(c, mode), k))
  {
    if k > 0 {
      var r, n := Selected(c, mode), k - 1;
      assert AllWrites(r, k) == AllWrites(r, n) + Writes(r[n], r[n].writes);
      hide *;
      AllWritesFit(c, mode, n);
      StageAt(c, mode, n);
      ReadyAfterWrites(c, mode, n, r[n]);
      WritesBelow(r, n, r[n].sequence);
      StageWritesFit(c, mode, AllWrites(r, n), r[n]);
    }
  }

  lemma StageWritesFit(c: Contract, mode: string, before: seq<Action>, s: Stage)
    requires Schedule(c, mode, before) && ReadyFor(c, mode, before, s) && s in c.stages && mode in s.modes
    requires forall i | 0 <= i < |before| :: before[i].stage.sequence <= s.sequence
    ensures Schedule(c, mode, before + Writes(s, s.writes))
  {
    hide Schedule, ReadyFor;
    var last := Writes(s, s.writes);
    forall i | 0 <= i < |last| ensures last[i].Wrote? && last[i].stage == s && last[i].id in s.writes { assert last[i] in last; }
    AppendStage(c, mode, before, last, s);
  }

  lemma WritesBelow(r: seq<Stage>, k: nat, sequence: int)
    requires k <= |r| && forall h | 0 <= h < k :: r[h].sequence <= sequence
    ensures forall i | 0 <= i < |AllWrites(r, k)| :: AllWrites(r, k)[i].stage.sequence <= sequence
  {
    AllWritesAre(r, k);
    forall i | 0 <= i < |AllWrites(r, k)| ensures AllWrites(r, k)[i].stage.sequence <= sequence {
      var h :| 0 <= h < k && r[..k][h] == AllWrites(r, k)[i].stage;
      assert r[h] == AllWrites(r, k)[i].stage;
    }
  }
}
