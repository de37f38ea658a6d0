/** Promotion of a run's memory and session state with last-known-good rollback
    (src/model_forge/application/state_promotion.py).

    Every filesystem or database operation may fail: `faults` decides, operation by operation.
    A rename either happens or fails without effect, and restoring does not fail. */
module Promotion {
  import opened Wrappers

  // ---------------------------------------------------------------- trees and inventories

  type Path = seq<string>
  type Digest = int

  /** One entry of a directory tree; links and special files are never followed. */
  datatype Kind = File(bytes: string) | Subdirectory | Link | Special

  /** Every entry below a directory, by its relative path. */
  type Tree = map<Path, Kind>

  /** What a name in the profile directory can be. */
  datatype Content = Folder(tree: Tree) | Plain(bytes: string) | Symlink

  const MEMORIES := "memories"
  const STATE_DB := "state.db"

  const SECRET_FILE_NAMES: set<string> := {
    ".env", "auth.json", "auth.lock", "credential_pool", "credentials.json", "secrets.json", "secret",
    ".netrc", ".npmrc", ".pypirc", "id_rsa", "id_ed25519", "id_ecdsa" }

  predicate IsExcluded(p: Path) {
    exists i | 0 <= i < |p| :: p[i] in SECRET_FILE_NAMES
  }

  /** The digests of the regular files, as `_walk_inventory` lists them. */
  function Inventory(sha: string -> Digest, t: Tree): map<Path, Digest> {
    map p | p in t && t[p].File? :: sha(t[p].bytes)
  }

  /** The allowlisted part of a run's memories. */
  function Allowed(t: Tree): Tree {
    map p | p in t && !IsExcluded(p) :: t[p]
  }

  /** No link and no special file outside the secret names. */
  predicate Stageable(t: Tree) {
    forall p | p in t && !IsExcluded(p) :: t[p].File? || t[p].Subdirectory?
  }

  /** The inventory lines a staged tree must reproduce.  The lookup table is built from the joint
      inventory without its `state.db` line, so a memory file of that name is lost from it. */
  function ExpectedFiles(sha: string -> Digest, after: Tree): map<Path, Digest> {
    map p | p in Inventory(sha, after) && p != [STATE_DB] && !IsExcluded(p) :: Inventory(sha, after)[p]
  }

  datatype PromotionError =
    | GateClosed | BadTree | Fault | LinkedPath | SpecialEntry | InventoryMismatch | SymlinkTarget

  /** The result of staging: `None` for the session store when the run has none. */
  datatype Staged = Staged(memories: Tree, stateDb: Option<string>)

  // ---------------------------------------------------------------- the swap, on values

  type Listing = map<string, Content>

  /** A text for each target: the backup suffixes of one promotion carry a tag drawn anew for
      every target. */
  datatype PerTarget = PerTarget(memories: string, stateDb: string) {
    function For(name: string): string {
      if name == MEMORIES then memories else stateDb
    }
  }

  function BackupName(name: string, suffix: PerTarget): string {
    name + "." + suffix.For(name)
  }

  /** Back the current target up (when there is one) and put the replacement in its place. */
  function SwapOne(entries: Listing, name: string, content: Content, suffix: PerTarget): Listing {
    (if name in entries then entries[BackupName(name, suffix) := entries[name]] else entries)[name := content]
  }

  function SwapAll(entries: Listing, names: seq<string>, staging: Listing, suffix: PerTarget): Listing
    requires forall n | n in names :: n in staging
  {
    if names == [] then entries
    else
      var last := |names| - 1;
      SwapOne(SwapAll(entries, names[..last], staging, suffix), names[last], staging[names[last]], suffix)
  }

  /** `_restore_target`. */
  function Restored(entries: Listing, name: string, backup: Option<string>): Listing {
    if backup.Some? && backup.value in entries
    then (entries - {name})[name := entries[backup.value]] - {backup.value}
    else entries - {name}
  }

  /** The listing after a promotion of `staged` under the backup suffix. */
  function Promoted(entries: Listing, staged: Staged, suffix: PerTarget): Listing {
    var first := SwapOne(entries, MEMORIES, Folder(staged.memories), suffix);
    if staged.stateDb.Some? then SwapOne(first, STATE_DB, Plain(staged.stateDb.value), suffix) else first
  }

  /** Backup names of this promotion are new. */
  predicate FreshSuffix(entries: Listing, suffix: PerTarget) {
    BackupName(MEMORIES, suffix) !in entries && BackupName(STATE_DB, suffix) !in entries
  }

  lemma BackupNamesDiffer(suffix: PerTarget)
    ensures BackupName(MEMORIES, suffix) != BackupName(STATE_DB, suffix)
    ensures BackupName(MEMORIES, suffix) !in {MEMORIES, STATE_DB}
    ensures BackupName(STATE_DB, suffix) !in {MEMORIES, STATE_DB}
  {
    assert BackupName(MEMORIES, suffix)[0] == 'm' && BackupName(STATE_DB, suffix)[0] == 's';
    assert |BackupName(MEMORIES, suffix)| > |MEMORIES| && |BackupName(STATE_DB, suffix)| > |STATE_DB|;
    assert MEMORIES[0] == 'm' && STATE_DB[0] == 's';
  }

  /** What a completed promotion means, name by name. */
  lemma PromotedMeaning(entries: Listing, staged: Staged, suffix: PerTarget)
    requires FreshSuffix(entries, suffix)
    ensures var after := Promoted(entries, staged, suffix);
      var mb, db := BackupName(MEMORIES, suffix), BackupName(STATE_DB, suffix);
      && MEMORIES in after && after[MEMORIES] == Folder(staged.memories)
      && (staged.stateDb.Some? ==> STATE_DB in after && after[STATE_DB] == Plain(staged.stateDb.value))
      && (staged.stateDb.None? ==> (STATE_DB in after <==> STATE_DB in entries)
                                   && (STATE_DB in entries ==> after[STATE_DB] == entries[STATE_DB]))
      && (mb in after <==> MEMORIES in entries) && (mb in after ==> after[mb] == entries[MEMORIES])
      && (db in after <==> STATE_DB in entries && staged.stateDb.Some?) && (db in after ==> after[db] == entries[STATE_DB])
      && (forall n | n !in {MEMORIES, STATE_DB, mb, db} :: (n in after <==> n in entries)
                                                        && (n in entries ==> after[n] == entries[n]))
  {
    BackupNamesDiffer(suffix);
  }

  // ---------------------------------------------------------------- staging, what it accepts

  /** The checks of `_stage_allowlisted`: `now` is the run's tree while it is copied, `after`
      the tree its inventory was taken from a moment earlier. */
  predicate StagingAccepts(sha: string -> Digest, after: Tree, now: Tree) {
    Stageable(now) && Inventory(sha, Allowed(now)) == ExpectedFiles(sha, after)
  }

  /** When nobody disturbs the run tree, staging accepts exactly the trees without links or
      special files outside the secret names and without a memory file called `state.db`. */
  lemma StagingAcceptsUndisturbed(sha: string -> Digest, t: Tree)
    ensures StagingAccepts(sha, t, t) <==>
      && (forall p | p in t && (t[p].Link? || t[p].Special?) :: exists i :: 0 <= i < |p| && p[i] in SECRET_FILE_NAMES)
      && !([STATE_DB] in t && t[[STATE_DB]].File?)
  {
    var a, b := Inventory(sha, Allowed(t)), ExpectedFiles(sha, t);
    StateDbIsNotSecret();
    if [STATE_DB] in t && t[[STATE_DB]].File? {
      assert [STATE_DB] in a && [STATE_DB] !in b;
    } else {
      forall p ensures p in a <==> p in b {}
      assert a == b;
    }
  }

  lemma StateDbIsNotSecret()
    ensures !IsExcluded([STATE_DB])
  {
    assert |STATE_DB| == 8 && STATE_DB[0] == 's' && STATE_DB[1] == 't';
    assert STATE_DB !in SECRET_FILE_NAMES;
  }

  /** Every staged file is a file of the inventoried tree with the same digest, no secret is
      staged, and no inventoried file is missing. */
  lemma StagedFilesAreInventoried(sha: string -> Digest, after: Tree, now: Tree, p: Path)
    requires StagingAccepts(sha, after, now)
    ensures p in Allowed(now) && Allowed(now)[p].File? <==>
      p in after && after[p].File? && !IsExcluded(p) && p != [STATE_DB]
    ensures p in Allowed(now) && Allowed(now)[p].File? ==> sha(Allowed(now)[p].bytes) == sha(after[p].bytes)
    ensures p in Allowed(now) ==> !IsExcluded(p)
  {
    assert p in Inventory(sha, Allowed(now)) <==> p in ExpectedFiles(sha, after);
    if p in Inventory(sha, Allowed(now)) {
      assert Inventory(sha, Allowed(now))[p] == ExpectedFiles(sha, after)[p];
    }
  }

  // ---------------------------------------------------------------- restoring undoes each stage

  /** Whatever stage a target reached - backed up, moved in, or (first promotion) only moved in -
      restoring it gives back the listing from before that target was touched. */
  lemma RestoreUndoes(entries: Listing, name: string, content: Content, suffix: PerTarget)
    requires BackupName(name, suffix) !in entries && BackupName(name, suffix) != name
    ensures var b := BackupName(name, suffix);
      && (name in entries ==>
          Restored(SwapOne(entries, name, content, suffix), name, Some(b)) == entries
          && Restored(entries[b := entries[name]] - {name}, name, Some(b)) == entries)
      && (name !in entries ==>
          Restored(SwapOne(entries, name, content, suffix), name, None) == entries
          && Restored(entries, name, None) == entries)
  {
  }

  /** Restores the completed targets, the last one first. */
  function RestoredAll(entries: Listing, completed: seq<Completed>): Listing
    decreases |completed|
  {
    if completed == [] then entries
    else
      var last := completed[|completed| - 1];
      RestoredAll(Restored(entries, last.name, last.backup), completed[..|completed| - 1])
  }

  /** A target shares no name with the ones restored before it. */
  predicate Apart(c: Completed, name: string, backup: Option<string>) {
    c.name != name && c.backup != Some(name) && backup != Some(c.name) && (c.backup.Some? ==> c.backup != backup)
  }

  /** Targets that share no name can be restored in any order. */
  lemma {:induction false} RestoredAllCommutes(entries: Listing, completed: seq<Completed>, name: string, backup: Option<string>)
    requires forall c | c in completed :: Apart(c, name, backup)
    ensures Restored(RestoredAll(entries, completed), name, backup) == RestoredAll(Restored(entries, name, backup), completed)
    decreases |completed|
  {
    if completed != [] {
      var last := completed[|completed| - 1];
      assert Apart(last, name, backup);
      assert Restored(Restored(entries, last.name, last.backup), name, backup)
          == Restored(Restored(entries, name, backup), last.name, last.backup);
      RestoredAllCommutes(Restored(entries, last.name, last.backup), completed[..|completed| - 1], name, backup);
    }
  }

  // ---------------------------------------------------------------- the profile directory

  /** Bookkeeping for one swapped target. */
  datatype Completed = Completed(name: string, backup: Option<string>, before: Option<Digest>, after: Digest)

  datatype Record = Record(seal: string, targets: seq<Completed>)

  /** The launch, validation and memory-policy facts the gates read. */
  datatype Gates = Gates(launch: Option<string>, verdict: Option<string>, reportMatches: bool, policy: string)

  predicate GatesOpen(g: Gates) {
    g.launch == Some("succeeded") && g.verdict == Some("pass") && g.reportMatches
    && g.policy != "ephemeral" && g.policy != "read_only"
  }

  /** The run's state as seen when it is inventoried and, later, when it is copied. */
  datatype RunState = RunState(memories: Content, stateDb: Option<Content>)

  predicate DbListed(sha: string -> Digest, after: RunState, bytes: string) {
    (after.stateDb.Some? && after.stateDb.value.Plain? && sha(after.stateDb.value.bytes) == sha(bytes))
    || (after.memories.Folder? && [STATE_DB] in Inventory(sha, after.memories.tree)
        && Inventory(sha, after.memories.tree)[[STATE_DB]] == sha(bytes))
  }

  /** Everything staging checks about the run, apart from failing operations. */
  predicate RunAccepted(sha: string -> Digest, after: RunState, now: RunState) {
    && after.memories.Folder? && (after.stateDb.Some? ==> after.stateDb.value.Plain?)
    && now.memories.Folder? && StagingAccepts(sha, after.memories.tree, now.memories.tree)
    && (now.stateDb.Some? ==> now.stateDb.value.Plain? && DbListed(sha, after, now.stateDb.value.bytes))
  }

  function StagedState(now: RunState): Staged
    requires now.memories.Folder? && (now.stateDb.Some? ==> now.stateDb.value.Plain?)
  {
    Staged(Allowed(now.memories.tree), if now.stateDb.Some? then Some(now.stateDb.value.bytes) else None)
  }

  function StagingListing(staged: Staged): Listing {
    if staged.stateDb.Some? then map[MEMORIES := Folder(staged.memories), STATE_DB := Plain(staged.stateDb.value)]
    else map[MEMORIES := Folder(staged.memories)]
  }

  function TargetNames(staged: Staged): seq<string> {
    if staged.stateDb.Some? then [MEMORIES, STATE_DB] else [MEMORIES]
  }

  /** When nobody disturbs the run between inventory and copy, staging accepts it exactly when its
      memories are a folder without links or special files outside the secret names and without a
      memory file called `state.db`, and its session store, if it has one, is a regular file. */
  lemma UndisturbedRunAccepted(sha: string -> Digest, r: RunState)
    ensures RunAccepted(sha, r, r) <==>
      && r.memories.Folder?
      && (forall p | p in r.memories.tree && (r.memories.tree[p].Link? || r.memories.tree[p].Special?) ::
            exists i :: 0 <= i < |p| && p[i] in SECRET_FILE_NAMES)
      && !([STATE_DB] in r.memories.tree && r.memories.tree[[STATE_DB]].File?)
      && (r.stateDb.Some? ==> r.stateDb.value.Plain?)
  {
    if r.memories.Folder? { StagingAcceptsUndisturbed(sha, r.memories.tree); }
  }

  /** An accepted session store has the digest it had when it was inventoried - or that of a memory
      file which was called `state.db` then. */
  lemma StoreIsInventoried(sha: string -> Digest, after: RunState, now: RunState)
    requires RunAccepted(sha, after, now) && now.stateDb.Some?
    ensures now.stateDb.value.Plain? && after.memories.Folder?
    ensures
      || (after.stateDb.Some? && after.stateDb.value.Plain? && sha(after.stateDb.value.bytes) == sha(now.stateDb.value.bytes))
      || ([STATE_DB] in after.memories.tree && after.memories.tree[[STATE_DB]].File?
          && sha(after.memories.tree[[STATE_DB]].bytes) == sha(now.stateDb.value.bytes))
  {
  }

  /** The profile holds the run's state: its memories without the secret names, directories included,
      and its session store if it has one; otherwise the profile's own store is as it was. */
  ghost predicate HoldsStateOf(now: RunState, before: Listing, entries: Listing)
    requires now.memories.Folder?
  {
    && MEMORIES in entries && entries[MEMORIES].Folder?
    && (forall p :: p in entries[MEMORIES].tree <==>
          p in now.memories.tree && forall i | 0 <= i < |p| :: p[i] !in SECRET_FILE_NAMES)
    && (forall p | p in entries[MEMORIES].tree :: entries[MEMORIES].tree[p] == now.memories.tree[p])
    && (now.stateDb.Some? ==> STATE_DB in entries && entries[STATE_DB] == now.stateDb.value)
    && (now.stateDb.None? ==> (STATE_DB in entries <==> STATE_DB in before)
                              && (STATE_DB in before ==> entries[STATE_DB] == before[STATE_DB]))
  }

  /** The record lists the memories, and the session store exactly when the run has one. */
  predicate ListsTargetsOf(now: RunState, completed: seq<Completed>) {
    && |completed| == (if now.stateDb.Some? then 2 else 1)
    && completed[0].name == MEMORIES && (now.stateDb.Some? ==> completed[1].name == STATE_DB)
  }

  lemma PromotedHoldsState(digest: Content -> Digest, before: Listing, now: RunState, suffix: PerTarget)
    requires now.memories.Folder? && (now.stateDb.Some? ==> now.stateDb.value.Plain?) && FreshSuffix(before, suffix)
    ensures HoldsStateOf(now, before, Promoted(before, StagedState(now), suffix))
    ensures var staged := StagedState(now);
      ListsTargetsOf(now, AllCompleted(digest, before, TargetNames(staged), StagingListing(staged), suffix))
  {
    var staged := StagedState(now);
    PromotedMeaning(before, staged, suffix);
    assert Allowed(now.memories.tree) == staged.memories;
    hide Promoted, AllCompleted;
  }

  /** The canonical targets a swap may replace: real content, and of the kind it is read as. */
  predicate Replaceable(entries: Listing, name: string) {
    name in entries ==> if name == MEMORIES then entries[name].Folder? else entries[name].Plain?
  }

  predicate AllReplaceable(entries: Listing, names: seq<string>) {
    forall n | n in names :: Replaceable(entries, n)
  }

  /** What the promotion would replace is a real folder of memories and a regular session store. */
  predicate TargetsInPlaceReal(entries: Listing, now: RunState) {
    && (MEMORIES in entries ==> entries[MEMORIES].Folder?)
    && (now.stateDb.Some? && STATE_DB in entries ==> entries[STATE_DB].Plain?)
  }

  lemma ReplaceableAreReal(entries: Listing, now: RunState)
    requires now.memories.Folder? && (now.stateDb.Some? ==> now.stateDb.value.Plain?)
    ensures AllReplaceable(entries, TargetNames(StagedState(now))) <==> TargetsInPlaceReal(entries, now)
  {
    var names := TargetNames(StagedState(now));
    assert MEMORIES[0] != STATE_DB[0];
    assert forall n :: n in names <==> n == MEMORIES || (now.stateDb.Some? && n == STATE_DB);
    if AllReplaceable(entries, names) {
      assert Replaceable(entries, MEMORIES);
      if now.stateDb.Some? { assert Replaceable(entries, STATE_DB); }
    }
  }

  lemma OneMoreReplaceable(entries: Listing, names: seq<string>, i: nat)
    requires i < |names|
    ensures AllReplaceable(entries, names[..i + 1]) <==> AllReplaceable(entries, names[..i]) && Replaceable(entries, names[i])
    ensures AllReplaceable(entries, names) ==> Replaceable(entries, names[i])
  {
    assert names[..i + 1] == names[..i] + [names[i]];
    assert names[i] in names;
  }

  /** The bookkeeping a successful swap of one target leaves. */
  function CompletedFor(digest: Content -> Digest, entries: Listing, name: string, content: Content, suffix: PerTarget): Completed {
    Completed(name,
      if name in entries then Some(BackupName(name, suffix)) else None,
      if name in entries then Some(digest(entries[name])) else None,
      digest(content))
  }

  function AllCompleted(digest: Content -> Digest, entries: Listing, names: seq<string>, staging: Listing, suffix: PerTarget)
    : (r: seq<Completed>)
    requires forall n | n in names :: n in staging
    ensures |r| == |names|
    ensures forall i | 0 <= i < |r| ::
      r[i].name == names[i] && (r[i].backup.Some? ==> r[i].backup.value == BackupName(names[i], suffix))
  {
    if names == [] then []
    else
      var last := |names| - 1;
      AllCompleted(digest, entries, names[..last], staging, suffix)
      + [CompletedFor(digest, SwapAll(entries, names[..last], staging, suffix), names[last], staging[names[last]], suffix)]
  }

  /** The targets of one swap: different names, each with a new backup name of its own. */
  predicate Swappable(entries: Listing, names: seq<string>, suffix: PerTarget) {
    && (forall i, j | 0 <= i < j < |names| ::
          names[i] != names[j] && BackupName(names[i], suffix) != BackupName(names[j], suffix))
    && (forall i, j | 0 <= i < |names| && 0 <= j < |names| :: BackupName(names[i], suffix) != names[j])
    && (forall n | n in names :: BackupName(n, suffix) !in entries)
  }

  lemma TargetsSwappable(entries: Listing, staged: Staged, suffix: PerTarget)
    requires FreshSuffix(entries, suffix)
    ensures Swappable(entries, TargetNames(staged), suffix) && StagedFor(StagingListing(staged), TargetNames(staged))
  {
    BackupNamesDiffer(suffix);
    assert MEMORIES[0] == 'm' && STATE_DB[0] == 's';
  }

  /** A replacement is staged for each target, of the kind the target is read as. */
  predicate StagedFor(staging: Listing, names: seq<string>) {
    forall n | n in names :: n in staging && if n == MEMORIES then staging[n].Folder? else staging[n].Plain?
  }

  /** A swap leaves every name alone that is neither a target nor a backup of one. */
  lemma {:induction false} SwapAllElsewhere(base: Listing, names: seq<string>, content: Listing, suffix: PerTarget, n: string)
    requires forall m | m in names :: m in content
    requires n !in names && forall i | 0 <= i < |names| :: BackupName(names[i], suffix) != n
    ensures var e := SwapAll(base, names, content, suffix);
      (n in e <==> n in base) && (n in base ==> e[n] == base[n])
    decreases |names|
  {
    if names != [] {
      var last := |names| - 1;
      assert BackupName(names[last], suffix) != n && names[last] != n;
      SwapAllElsewhere(base, names[..last], content, suffix, n);
    }
  }

  /** After `i` targets the next one is still as it was, and its backup name is still new. */
  lemma SwapAllFresh(base: Listing, names: seq<string>, content: Listing, suffix: PerTarget, i: nat)
    requires Swappable(base, names, suffix) && i < |names| && forall n | n in names :: n in content
    ensures var e := SwapAll(base, names[..i], content, suffix);
      && BackupName(names[i], suffix) !in e && BackupName(names[i], suffix) != names[i]
      && (names[i] in e <==> names[i] in base) && (names[i] in base ==> e[names[i]] == base[names[i]])
  {
    SwapAllElsewhere(base, names[..i], content, suffix, names[i]);
    SwapAllElsewhere(base, names[..i], content, suffix, BackupName(names[i], suffix));
  }

  lemma SwapNothing(digest: Content -> Digest, base: Listing, content: Listing, suffix: PerTarget)
    ensures SwapAll(base, [], content, suffix) == base && AllCompleted(digest, base, [], content, suffix) == []
  {
  }

  lemma SwapOneMore(digest: Content -> Digest, base: Listing, names: seq<string>, content: Listing, suffix: PerTarget, i: nat)
    requires i < |names| && forall n | n in names :: n in content
    ensures SwapAll(base, names[..i + 1], content, suffix)
         == SwapOne(SwapAll(base, names[..i], content, suffix), names[i], content[names[i]], suffix)
    ensures AllCompleted(digest, base, names[..i + 1], content, suffix) == AllCompleted(digest, base, names[..i], content, suffix)
         + [CompletedFor(digest, SwapAll(base, names[..i], content, suffix), names[i], content[names[i]], suffix)]
  {
    assert names[..i + 1][..i] == names[..i];
  }

  lemma SwapLast(digest: Content -> Digest, base: Listing, names: seq<string>, content: Listing, suffix: PerTarget)
    requires names != [] && forall n | n in names :: n in content
    ensures var last := |names| - 1;
      var middle := SwapAll(base, names[..last], content, suffix);
      && SwapAll(base, names, content, suffix) == SwapOne(middle, names[last], content[names[last]], suffix)
      && AllCompleted(digest, base, names, content, suffix) == AllCompleted(digest, base, names[..last], content, suffix)
           + [CompletedFor(digest, middle, names[last], content[names[last]], suffix)]
  {
    hide SwapOne, CompletedFor;
  }

  lemma RestoredLast(entries: Listing, front: seq<Completed>, c: Completed)
    ensures RestoredAll(entries, front + [c]) == RestoredAll(Restored(entries, c.name, c.backup), front)
  {
    assert (front + [c])[..|front|] == front;
  }

  lemma {:induction false} AllCompletedAt(digest: Content -> Digest, base: Listing, names: seq<string>, content: Listing, suffix: PerTarget, i: nat)
    requires i < |names| && forall n | n in names :: n in content
    ensures AllCompleted(digest, base, names, content, suffix)[i]
         == CompletedFor(digest, SwapAll(base, names[..i], content, suffix), names[i], content[names[i]], suffix)
  {
    var last := |names| - 1;
    hide SwapAll, CompletedFor, AllCompleted;
    SwapLast(digest, base, names, content, suffix);
    if i < last {
      assert names[..last][..i] == names[..i] && forall n | n in names[..last] :: n in content;
      AllCompletedAt(digest, base, names[..last], content, suffix, i);
    }
  }

  lemma SwapAllIsPromoted(entries: Listing, staged: Staged, suffix: PerTarget)
    ensures SwapAll(entries, TargetNames(staged), StagingListing(staged), suffix) == Promoted(entries, staged, suffix)
  {
    var names, content := TargetNames(staged), StagingListing(staged);
    assert [MEMORIES][..0] == [];
    assert SwapAll(entries, [MEMORIES], content, suffix) == SwapOne(entries, MEMORIES, content[MEMORIES], suffix);
    if staged.stateDb.Some? { assert names[..1] == [MEMORIES]; }
  }

  /** The record of a successful promotion describes the profile as it was before: for every
      target the digest of the old content, found under the backup name, and of the new one. */
  lemma RecordDescribesSwap(digest: Content -> Digest, entries: Listing, staged: Staged, suffix: PerTarget, i: nat)
    requires FreshSuffix(entries, suffix) && i < |TargetNames(staged)|
    ensures var name := TargetNames(staged)[i];
      var c := AllCompleted(digest, entries, TargetNames(staged), StagingListing(staged), suffix)[i];
      var after := Promoted(entries, staged, suffix);
      && c.name == name && name in after && c.after == digest(after[name])
      && (name in entries <==> c.backup.Some?) && (c.backup.Some? <==> c.before.Some?)
      && (name in entries ==> c.before == Some(digest(entries[name]))
                              && c.backup.value in after && after[c.backup.value] == entries[name])
  {
    AllCompletedAt(digest, entries, TargetNames(staged), StagingListing(staged), suffix, i);
    TargetsSwappable(entries, staged, suffix);
    SwapAllFresh(entries, TargetNames(staged), StagingListing(staged), suffix, i);
    PromotedMeaning(entries, staged, suffix);
  }

  lemma SwappablePrefix(base: Listing, names: seq<string>, content: Listing, suffix: PerTarget, i: nat)
    requires Swappable(base, names, suffix) && i <= |names| && forall n | n in names :: n in content
    ensures Swappable(base, names[..i], suffix) && forall n | n in names[..i] :: n in content
  {
  }

  lemma BackupsAreApart(digest: Content -> Digest, base: Listing, names: seq<string>, content: Listing, suffix: PerTarget)
    requires Swappable(base, names, suffix) && forall n | n in names :: n in content
    ensures forall c | c in AllCompleted(digest, base, names, content, suffix) :: c.backup != Some(c.name)
  {
    hide AllCompleted, BackupName;
  }

  /** Restoring everything a swap completed gives back the listing from before it. */
  lemma {:induction false} RestoredAllUndoes(digest: Content -> Digest, base: Listing, names: seq<string>, content: Listing, suffix: PerTarget)
    requires Swappable(base, names, suffix) && forall n | n in names :: n in content
    ensures RestoredAll(SwapAll(base, names, content, suffix), AllCompleted(digest, base, names, content, suffix)) == base
    decreases |names|
  {
    if names != [] {
      hide SwapAll, AllCompleted, SwapOne, Restored, RestoredAll, Swappable;
      var last := |names| - 1;
      var middle, front := SwapAll(base, names[..last], content, suffix), AllCompleted(digest, base, names[..last], content, suffix);
      var c := CompletedFor(digest, middle, names[last], content[names[last]], suffix);
      SwapLast(digest, base, names, content, suffix);
      SwapAllFresh(base, names, content, suffix, last);
      RestoreUndoes(middle, names[last], content[names[last]], suffix);
      RestoredLast(SwapOne(middle, names[last], content[names[last]], suffix), front, c);
      SwappablePrefix(base, names, content, suffix, last);
      RestoredAllUndoes(digest, base, names[..last], content, suffix);
    }
  }

  /** The targets completed before target `i` share no name with it. */
  lemma CompletedApart(digest: Content -> Digest, base: Listing, names: seq<string>, content: Listing, suffix: PerTarget,
                       i: nat, backup: Option<string>)
    requires Swappable(base, names, suffix) && i < |names| && forall n | n in names :: n in content
    requires backup in {None, Some(BackupName(names[i], suffix))}
    ensures forall c | c in AllCompleted(digest, base, names[..i], content, suffix) :: Apart(c, names[i], backup)
  {
    var completed := AllCompleted(digest, base, names[..i], content, suffix);
    forall k | 0 <= k < |completed| ensures Apart(completed[k], names[i], backup) {
      assert names[..i][k] == names[k] && BackupName(names[k], suffix) != BackupName(names[i], suffix);
    }
  }

  class ProfileDirectory {
    var entries: Listing
    var staging: Listing
    var records: seq<Record>
    var ops: nat
    const faults: nat -> bool
    const sha: string -> Digest
    const digest: Content -> Digest

    constructor (entries: Listing, faults: nat -> bool, sha: string -> Digest, digest: Content -> Digest)
      ensures this.entries == entries && staging == map[] && records == []
      ensures this.faults == faults && this.sha == sha && this.digest == digest
    {
      this.entries, staging, records, ops := entries, map[], [], 0;
      this.faults, this.sha, this.digest := faults, sha, digest;
    }

    /** Asks the oracle about the next operation. */
    method Fails() returns (failed: bool)
      modifies this`ops
      ensures failed == faults(old(ops)) && ops == old(ops) + 1
    {
      failed := faults(ops);
      ops := ops + 1;
    }

    /** Inventory and digest of one target's content. */
    method ReadDigest(name: string, content: Content) returns (r: Result<Digest, PromotionError>)
      modifies this`ops
      ensures r.Ok? ==> r.value == digest(content) && if name == MEMORIES then content.Folder? else content.Plain?
      ensures r.Err? ==> faults(old(ops)) || !(if name == MEMORIES then content.Folder? else content.Plain?)
    {
      var failed := Fails();
      if failed { return Err(Fault); }
      if name == MEMORIES && !content.Folder? { return Err(BadTree); }
      if name != MEMORIES && !content.Plain? { return Err(BadTree); }
      r := Ok(digest(content));
    }

    /** `_stage_allowlisted`; `order` is the listing of the run's memories. */
    method StageAllowlisted(after: RunState, now: RunState, order: seq<Path>) returns (r: Result<Staged, PromotionError>)
      requires now.memories.Folder? ==> forall p :: p in order <==> p in now.memories.tree
      requires after.memories.Folder? && (after.stateDb.Some? ==> after.stateDb.value.Plain?)
      modifies this`ops, this`staging
      ensures r.Ok? ==> RunAccepted(sha, after, now) && r.value == StagedState(now) && staging == StagingListing(r.value)
      ensures r.Err? ==> (exists i :: faults(i)) || !RunAccepted(sha, after, now)
    {
      if !now.memories.Folder? { return Err(BadTree); }
      var tree := now.memories.tree;
      var copied: Tree := map[];
      var i := 0;
      while i < |order|
        invariant 0 <= i <= |order|
        invariant copied == map p | p in tree && p in order[..i] && !IsExcluded(p) :: tree[p]
        invariant forall p | p in order[..i] && !IsExcluded(p) :: p in tree && (tree[p].File? || tree[p].Subdirectory?)
      {
        var p := order[i];
        assert p in order;
        i := i + 1;
        if IsExcluded(p) { continue; }
        var failed := Fails();
        if failed { return Err(Fault); }
        match tree[p]
        case Link => return Err(LinkedPath);
        case Special => return Err(SpecialEntry);
        case _ => copied := copied[p := tree[p]];
      }
      assert order[..i] == order;
      assert copied == Allowed(tree);
      if Inventory(sha, copied) != ExpectedFiles(sha, after.memories.tree) { return Err(InventoryMismatch); }
      var db: Option<string> := None;
      if now.stateDb.Some? {
        if !now.stateDb.value.Plain? { return Err(BadTree); }
        if !DbListed(sha, after, now.stateDb.value.bytes) { return Err(InventoryMismatch); }
        var failed := Fails();
        if failed { return Err(Fault); }
        db := Some(now.stateDb.value.bytes);
      }
      staging := StagingListing(Staged(copied, db));
      r := Ok(Staged(copied, db));
    }

    method RestoreTarget(name: string, backup: Option<string>)
      requires backup != Some(name)
      modifies this`entries
      ensures entries == Restored(old(entries), name, backup)
    {
      if backup.Some? && backup.value in entries {
        if name in entries { entries := entries - {name}; }
        entries := entries[name := entries[backup.value]] - {backup.value};
      } else if name in entries {
        entries := entries - {name};
      }
    }

    /** The body of the swap loop for one target.  On failure `inFlight` says what the rollback
        has to restore: nothing, or this target from its backup (if it had one). */
    method SwapTarget(name: string, suffix: PerTarget) returns (r: Result<Completed, PromotionError>, inFlight: Option<Option<string>>)
      requires name in staging && BackupName(name, suffix) !in entries && BackupName(name, suffix) != name
      requires if name == MEMORIES then staging[name].Folder? else staging[name].Plain?
      modifies this`entries, this`staging, this`ops
      ensures r.Ok? ==> entries == SwapOne(old(entries), name, old(staging)[name], suffix)
      ensures r.Ok? ==> staging == old(staging) - {name} && Replaceable(old(entries), name)
      ensures r.Ok? ==> r.value == CompletedFor(digest, old(entries), name, old(staging)[name], suffix)
      ensures inFlight.Some? ==> inFlight.value in {None, Some(BackupName(name, suffix))}
      ensures r.Err? ==>
        if inFlight.None? then entries == old(entries) else Restored(entries, name, inFlight.value) == old(entries)
      ensures r.Err? ==> (exists i :: faults(i)) || !Replaceable(old(entries), name)
    {
      ghost var before, content := entries, staging[name];
      RestoreUndoes(before, name, content, suffix);
      inFlight := None;
      var afterDigest :- ReadDigest(name, staging[name]);
      var backup: Option<string> := None;
      var beforeDigest: Option<Digest> := None;
      if name in entries {
        if entries[name].Symlink? { return Err(SymlinkTarget), None; }
        var backupName := BackupName(name, suffix);
        var failed := Fails();
        if failed { return Err(Fault), None; }
        entries := entries[backupName := entries[name]] - {name};
        backup := Some(backupName);
        inFlight := Some(backup);
        var d := ReadDigest(name, entries[backupName]);
        if d.Err? { return Err(d.error), inFlight; }
        beforeDigest := Some(d.value);
      } else {
        inFlight := Some(None);
      }
      var failed := Fails();
      if failed { return Err(Fault), inFlight; }
      entries := entries[name := staging[name]];
      staging := staging - {name};
      assert entries == SwapOne(before, name, content, suffix);
      var recomputed := ReadDigest(name, entries[name]);
      if recomputed.Err? { return Err(recomputed.error), inFlight; }
      if recomputed.value != afterDigest { return Err(InventoryMismatch), inFlight; }
      r := Ok(Completed(name, backup, beforeDigest, afterDigest));
    }

    /** Restores completed targets in reverse order. */
    method RestoreAll(completed: seq<Completed>)
      requires forall c | c in completed :: c.backup != Some(c.name)
      modifies this`entries
      ensures entries == RestoredAll(old(entries), completed)
    {
      var i := |completed|;
      assert completed[..i] == completed;
      while i > 0
        invariant 0 <= i <= |completed|
        invariant RestoredAll(entries, completed[..i]) == RestoredAll(old(entries), completed)
      {
        i := i - 1;
        assert completed[..i + 1][..i] == completed[..i];
        RestoreTarget(completed[i].name, completed[i].backup);
      }
    }

    /** The handler of the swap: the completed targets, then the one in flight. */
    method RollBack(completed: seq<Completed>, name: string, inFlight: Option<Option<string>>,
                    ghost base: Listing, ghost names: seq<string>, ghost content: Listing, suffix: PerTarget, ghost i: nat)
      requires Swappable(base, names, suffix) && i < |names| && name == names[i] && forall n | n in names :: n in content
      requires completed == AllCompleted(digest, base, names[..i], content, suffix)
      requires inFlight.Some? ==> inFlight.value in {None, Some(BackupName(name, suffix))}
      requires (if inFlight.Some? then Restored(entries, name, inFlight.value) else entries)
        == SwapAll(base, names[..i], content, suffix)
      modifies this`entries
      ensures entries == base
    {
      hide SwapAll, AllCompleted, RestoredAll, Restored, Swappable;
      ghost var broken := entries;
      SwapAllFresh(base, names, content, suffix, i);
      SwappablePrefix(base, names, content, suffix, i);
      BackupsAreApart(digest, base, names[..i], content, suffix);
      RestoredAllUndoes(digest, base, names[..i], content, suffix);
      RestoreAll(completed);
      if inFlight.Some? {
        CompletedApart(digest, base, names, content, suffix, i, inFlight.value);
        RestoredAllCommutes(broken, completed, name, inFlight.value);
        RestoreTarget(name, inFlight.value);
      }
    }

    /** One turn of the swap loop: the next target is swapped as well, or everything is undone. */
    method SwapNext(completed: seq<Completed>, names: seq<string>, i: nat, suffix: PerTarget, ghost base: Listing, ghost content: Listing)
      returns (r: Result<Completed, PromotionError>)
      requires Swappable(base, names, suffix) && StagedFor(content, names) && i < |names|
      requires entries == SwapAll(base, names[..i], content, suffix)
      requires completed == AllCompleted(digest, base, names[..i], content, suffix)
      requires names[i] in staging && staging[names[i]] == content[names[i]]
      modifies this`entries, this`staging, this`ops
      ensures r.Ok? ==> entries == SwapAll(base, names[..i + 1], content, suffix)
      ensures r.Ok? ==> completed + [r.value] == AllCompleted(digest, base, names[..i + 1], content, suffix)
      ensures r.Ok? ==> staging == old(staging) - {names[i]} && Replaceable(base, names[i])
      ensures r.Err? ==> entries == base && ((exists k :: faults(k)) || !Replaceable(base, names[i]))
    {
      hide SwapAll, AllCompleted, SwapOne, CompletedFor, Restored;
      var name := names[i];
      SwapAllFresh(base, names, content, suffix, i);
      SwapOneMore(digest, base, names, content, suffix, i);
      var inFlight;
      r, inFlight := SwapTarget(name, suffix);
      if r.Err? { RollBack(completed, name, inFlight, base, names, content, suffix, i); }
    }

    /** `_swap_targets`: all targets, or none of them. */
    method SwapTargets(names: seq<string>, suffix: PerTarget) returns (r: Result<seq<Completed>, PromotionError>)
      requires Swappable(entries, names, suffix) && StagedFor(staging, names)
      modifies this`entries, this`staging, this`ops
      ensures r.Ok? ==> entries == SwapAll(old(entries), names, old(staging), suffix)
      ensures r.Ok? ==> r.value == AllCompleted(digest, old(entries), names, old(staging), suffix)
      ensures r.Ok? ==> AllReplaceable(old(entries), names)
      ensures r.Err? ==> entries == old(entries)
      ensures r.Err? ==> (exists i :: faults(i)) || !AllReplaceable(old(entries), names)
    {
      hide SwapAll, AllCompleted;
      ghost var content, base := staging, entries;
      SwapNothing(digest, base, content, suffix);
      assert names[..0] == [];
      var completed: seq<Completed> := [];
      var i := 0;
      while i < |names|
        invariant 0 <= i <= |names|
        invariant entries == SwapAll(base, names[..i], content, suffix)
        invariant completed == AllCompleted(digest, base, names[..i], content, suffix)
        invariant forall k | i <= k < |names| :: names[k] in staging && staging[names[k]] == content[names[k]]
        invariant AllReplaceable(base, names[..i])
      {
        var one := SwapNext(completed, names, i, suffix, base, content);
        OneMoreReplaceable(base, names, i);
        if one.Err? { return Err(one.error); }
        forall k | i < k < |names| ensures names[k] in staging && staging[names[k]] == content[names[k]] {
          assert names[i] != names[k];
        }
        completed := completed + [one.value];
        i := i + 1;
      }
      assert names[..i] == names;
      r := Ok(completed);
    }

    /** The swap and the record of it: the record is what makes a swap final. */
    method SwapAndRecord(seal: string, names: seq<string>, suffix: PerTarget) returns (r: Result<seq<Completed>, PromotionError>)
      requires Swappable(entries, names, suffix) && StagedFor(staging, names)
      modifies this
      ensures r.Err? ==> entries == old(entries) && records == old(records)
      ensures r.Ok? ==> entries == SwapAll(old(entries), names, old(staging), suffix)
      ensures r.Ok? ==> records == old(records) + [Record(seal, r.value)]
      ensures r.Ok? ==> r.value == AllCompleted(digest, old(entries), names, old(staging), suffix)
      ensures r.Ok? ==> AllReplaceable(old(entries), names)
      ensures r.Err? ==> (exists i :: faults(i)) || !AllReplaceable(old(entries), names)
    {
      hide SwapAll, AllCompleted, RestoredAll, Swappable;
      BackupsAreApart(digest, entries, names, staging, suffix);
      RestoredAllUndoes(digest, entries, names, staging, suffix);
      r := SwapTargets(names, suffix);
      if r.Ok? {
        var failed := Fails();
        if failed {
          RestoreAll(r.value);
          r := Err(Fault);
        } else {
          records := records + [Record(seal, r.value)];
        }
      }
    }

    /** `promote_run_state`: a failure anywhere leaves the profile and the records as they were;
        success replaces every staged target, keeps the old content under its backup name and
        writes one record.  Without failing operations it succeeds exactly when the gates are
        open, staging accepts the run, and the targets in place are real. */
    method PromoteRunState(g: Gates, seal: string, after: RunState, now: RunState, order: seq<Path>, suffix: PerTarget)
      returns (r: Result<seq<Completed>, PromotionError>)
      requires now.memories.Folder? ==> forall p :: p in order <==> p in now.memories.tree
      requires FreshSuffix(entries, suffix)
      modifies this
      ensures r.Err? ==> entries == old(entries) && records == old(records)
      ensures r.Ok? ==> RunAccepted(sha, after, now) && HoldsStateOf(now, old(entries), entries)
      ensures r.Ok? ==> entries == Promoted(old(entries), StagedState(now), suffix)
      ensures r.Ok? ==> records == old(records) + [Record(seal, r.value)]
      ensures r.Ok? ==> ListsTargetsOf(now, r.value)
      ensures r.Ok? ==> r.value == AllCompleted(digest, old(entries), TargetNames(StagedState(now)),
                                                StagingListing(StagedState(now)), suffix)
      ensures r.Ok? ==> g.launch == Some("succeeded") && g.verdict == Some("pass") && g.reportMatches
                        && g.policy !in {"ephemeral", "read_only"}
      ensures r.Ok? ==> TargetsInPlaceReal(old(entries), now)
      ensures (forall i :: !faults(i)) ==>
        (r.Ok? <==> GatesOpen(g) && RunAccepted(sha, after, now) && TargetsInPlaceReal(old(entries), now))
    {
      if !GatesOpen(g) { return Err(GateClosed); }
      if MEMORIES in entries && !entries[MEMORIES].Folder? { return Err(BadTree); }
      if !after.memories.Folder? || (after.stateDb.Some? && !after.stateDb.value.Plain?) { return Err(BadTree); }
      staging := map[];
      var failed := Fails();
      if failed { return Err(Fault); }
      var staged := StageAllowlisted(after, now, order);
      if staged.Err? {
        staging := map[];
        return Err(staged.error);
      }
      SwapAllIsPromoted(entries, staged.value, suffix);
      PromotedHoldsState(digest, entries, now, suffix);
      ReplaceableAreReal(entries, now);
      TargetsSwappable(entries, staged.value, suffix);
      r := SwapAndRecord(seal, TargetNames(staged.value), suffix);
      staging := map[];
    }
  }
}
